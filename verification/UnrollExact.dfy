/** Which loops unroll: exactly the short counting loops of a few spellings whose bodies neither
    jump nor declare a name that is taken. */
module UnrollExact {
  import opened Arith
  import opened TsLang
  import opened TsConst
  import opened TsRewriteStmts
  import opened LocalConst
  import opened Unroll

  // ----- the spelling of a counting loop -----

  /** `x++`, `x--`, `x += n`, `x -= n`, `x = x + n` or `x = x - n` moves the counter by `d`. */
  ghost predicate Moves(e: Expr, x: Name, d: int, consts: Consts, funcs: Funcs, shadowed: set<Name>) {
    || (e.Update? && e.x == x && d == if e.inc then 1 else -1)
    || (exists op, r :: AddsTo(e, x, op, r) && Shift(op, EvalConst(r, consts, funcs, shadowed), d))
  }

  predicate AddsTo(e: Expr, x: Name, op: BinOp, r: Expr) {
    e == Assign(x, Some(op), r) || e == Assign(x, None, Bin(op, Var(x), r))
  }

  predicate Shift(op: BinOp, v: Option<int>, d: int) {
    v.Some? && ((op == Add && d == v.value) || (op == Sub && d == -v.value))
  }

  lemma StepByExactly(e: Expr, x: Name, d: int, consts: Consts, funcs: Funcs, shadowed: set<Name>)
    ensures StepBy(e, x, consts, funcs, shadowed) == Some(d) <==> Moves(e, x, d, consts, funcs, shadowed)
  {
    match e
    case Assign(y, Some(op), r) =>
      assert y == x ==> AddsTo(e, x, op, r);
    case Assign(y, None, Bin(op, Var(z), r)) =>
      assert y == x && z == x ==> AddsTo(e, x, op, r);
    case _ =>
  }

  /** The loop counts `x` from `start` in steps, while it compares so with `bound`. */
  ghost predicate Counts(init: seq<Stmt>, test: Option<Expr>, inc: Option<Expr>, l: Counting,
                         consts: Consts, funcs: Funcs, shadowed: set<Name>) {
    && |init| == 1 && init[0].Let? && |init[0].ds| == 1 && init[0].ds[0].x == l.x && init[0].ds[0].init.Some?
    && EvalConst(init[0].ds[0].init.value, consts, funcs, shadowed) == Some(l.start)
    && test.Some? && test.value.Bin? && test.value.bop == l.cmp && test.value.l == Var(l.x)
    && EvalConst(test.value.r, consts, funcs, shadowed) == Some(l.bound)
    && inc.Some? && Moves(inc.value, l.x, l.step, consts, funcs, shadowed) && l.step != 0
  }

  lemma ReadLoopExactly(init: seq<Stmt>, test: Option<Expr>, inc: Option<Expr>, body: seq<Stmt>, l: Counting,
                        consts: Consts, funcs: Funcs, shadowed: set<Name>)
    ensures ReadLoop(init, test, inc, body, consts, funcs, shadowed) == Some(l) <==>
            l.body == body && Counts(init, test, inc, l, consts, funcs, shadowed)
  {
    if inc.Some? {
      StepByExactly(inc.value, l.x, l.step, consts, funcs, shadowed);
    }
  }

  // ----- what keeps a body from being copied -----

  /** A statement of the list, at any depth. */
  predicate InList(p: Stmt, ss: seq<Stmt>)
    decreases ss, 0
  {
    ss != [] && (In(p, ss[0]) || InList(p, ss[1..]))
  }

  predicate In(p: Stmt, st: Stmt)
    decreases st, 1
  {
    p == st ||
    (match st
     case If(_, t, f) => InList(p, t) || InList(p, f)
     case While(_, body) => InList(p, body)
     case For(init, _, _, body) => InList(p, init) || InList(p, body)
     case _ => false)
  }

  predicate Stops(p: Stmt, x: Name) {
    p.Return? || p.Break? || p.Continue? || (p.Let? && x in DeclNames(p.ds))
  }

  lemma {:induction false} BlocksNot(ss: seq<Stmt>, x: Name, p: Stmt)
    requires !Blocks(ss, x) && InList(p, ss)
    ensures !Stops(p, x)
    decreases ss, 0
  {
    if In(p, ss[0]) {
      StmtBlocksNot(ss[0], x, p);
    } else {
      BlocksNot(ss[1..], x, p);
    }
  }

  lemma {:induction false} StmtBlocksNot(st: Stmt, x: Name, p: Stmt)
    requires !StmtBlocks(st, x) && In(p, st)
    ensures !Stops(p, x)
    decreases st, 1
  {
    if p != st {
      match st
      case If(_, t, f) => if InList(p, t) { BlocksNot(t, x, p); } else { BlocksNot(f, x, p); }
      case While(_, body) => BlocksNot(body, x, p);
      case For(init, _, _, body) => if InList(p, init) { BlocksNot(init, x, p); } else { BlocksNot(body, x, p); }
    }
  }

  /** A body is blocked exactly when some statement in it jumps or declares the counter's name. */
  lemma {:induction false} BlocksBecause(ss: seq<Stmt>, x: Name) returns (p: Stmt)
    requires Blocks(ss, x)
    ensures InList(p, ss) && Stops(p, x)
    decreases ss, 0
  {
    if StmtBlocks(ss[0], x) {
      p := StmtBlocksBecause(ss[0], x);
    } else {
      p := BlocksBecause(ss[1..], x);
    }
  }

  lemma {:induction false} StmtBlocksBecause(st: Stmt, x: Name) returns (p: Stmt)
    requires StmtBlocks(st, x)
    ensures In(p, st) && Stops(p, x)
    decreases st, 1
  {
    p := st;
    match st
    case If(_, t, f) => if Blocks(t, x) { p := BlocksBecause(t, x); } else { p := BlocksBecause(f, x); }
    case While(_, body) => p := BlocksBecause(body, x);
    case For(init, _, _, body) => if Blocks(init, x) { p := BlocksBecause(init, x); } else { p := BlocksBecause(body, x); }
    case _ =>
  }

  function Own(st: Stmt): set<Name> {
    if st.Let? then DeclNames(st.ds) else {}
  }

  /** Two statements of the list declare one name, or one declares a name already taken. */
  ghost predicate Clash(ss: seq<Stmt>, taken: set<Name>) {
    || (exists i :: 0 <= i < |ss| && !(Own(ss[i]) !! taken))
    || (exists i, j :: 0 <= i < j < |ss| && !(Own(ss[i]) !! Own(ss[j])))
  }

  lemma DirectOne(st: Stmt)
    ensures DirectNames([st]) == Own(st)
  {
    assert [st][1..] == [];
  }

  lemma {:induction false} CollidesExactly(ss: seq<Stmt>, taken: set<Name>)
    ensures Collides(ss, taken) <==> Clash(ss, taken)
  {
    if ss != [] {
      DirectOne(ss[0]);
      CollidesExactly(ss[1..], taken + Own(ss[0]));
      if !(Own(ss[0]) !! taken) {
        assert Own(ss[0]) * taken != {};
      } else {
        assert Own(ss[0]) * taken == {};
        ClashCons(ss, taken);
      }
    }
  }

  lemma ClashCons(ss: seq<Stmt>, taken: set<Name>)
    requires ss != [] && Own(ss[0]) !! taken
    ensures Clash(ss[1..], taken + Own(ss[0])) <==> Clash(ss, taken)
  {
    var rest, more := ss[1..], taken + Own(ss[0]);
    if Clash(rest, more) {
      if i :| 0 <= i < |rest| && !(Own(rest[i]) !! more) {
        assert ss[i + 1] == rest[i];
        assert !(Own(ss[i + 1]) !! taken) || !(Own(ss[0]) !! Own(ss[i + 1]));
      } else {
        var i, j :| 0 <= i < j < |rest| && !(Own(rest[i]) !! Own(rest[j]));
        assert ss[i + 1] == rest[i] && ss[j + 1] == rest[j];
      }
    }
    if Clash(ss, taken) {
      if i :| 0 <= i < |ss| && !(Own(ss[i]) !! taken) {
        assert rest[i - 1] == ss[i] && !(Own(rest[i - 1]) !! more);
      } else {
        var i, j :| 0 <= i < j < |ss| && !(Own(ss[i]) !! Own(ss[j]));
        assert rest[j - 1] == ss[j];
        if i > 0 {
          assert rest[i - 1] == ss[i];
        } else {
          assert !(Own(rest[j - 1]) !! more);
        }
      }
    }
  }

  // ----- the loops that unroll -----

  /** The direction fits the comparison, the loop ends within 256 iterations, and its body can
      be copied side by side. */
  ghost predicate Unrollable(l: Counting, big: bool, taken: set<Name>) {
    && ((l.cmp in {Lt, Le} && l.step > 0) || (l.cmp in {Gt, Ge} && l.step < 0))
    && (forall p | InList(p, l.body) :: !Stops(p, l.x))
    && exists n: nat :: n <= 256 && RunsFor(l, n)
                        && !Clash(Copies(l.body, l.x, Values(l.start, l.step, n), big), taken)
  }

  /** The test holds for the first `n` values of the counter and fails for the next. */
  ghost predicate RunsFor(l: Counting, n: nat) {
    && (forall i: nat | i < n :: Continues(l.cmp, Nth(l.start, l.step, i), l.bound))
    && !Continues(l.cmp, Nth(l.start, l.step, n), l.bound)
  }

  lemma RunsForTrips(l: Counting, n: nat)
    requires Directed(l.cmp, l.step)
    ensures RunsFor(l, n) <==> n == Trips(l.start, l.cmp, l.bound, l.step)
  {
    var m := Trips(l.start, l.cmp, l.bound, l.step);
    TripsExact(l.start, l.cmp, l.bound, l.step, n);
    TripsExact(l.start, l.cmp, l.bound, l.step, m);
    forall i: nat | i < n && n <= m
      ensures Continues(l.cmp, Nth(l.start, l.step, i), l.bound)
    {
      TripsExact(l.start, l.cmp, l.bound, l.step, i);
    }
  }

  lemma UnrollCountingExactly(l: Counting, big: bool, taken: set<Name>)
    ensures UnrollRead(Some(l), big, taken).Some? <==> Unrollable(l, big, taken)
  {
    if Blocks(l.body, l.x) {
      var p := BlocksBecause(l.body, l.x);
    } else {
      forall p | InList(p, l.body)
        ensures !Stops(p, l.x)
      {
        BlocksNot(l.body, l.x, p);
      }
    }
    if Directed(l.cmp, l.step) {
      var n := Trips(l.start, l.cmp, l.bound, l.step);
      forall m: nat
        ensures RunsFor(l, m) <==> m == n
      {
        RunsForTrips(l, m);
      }
      CollidesExactly(Copies(l.body, l.x, Values(l.start, l.step, n), big), taken);
    }
  }

  /** A `for` unrolls exactly when it counts so and can be copied. */
  lemma UnrollsExactly(st: Stmt, big: bool, consts: Consts, funcs: Funcs, shadowed: set<Name>)
    requires st.For?
    ensures UnrollFor(st, big, consts, funcs, shadowed).Some? <==>
            exists l: Counting :: l.body == st.body && Counts(st.init, st.test, st.step, l, consts, funcs, shadowed)
                        && Unrollable(l, big, shadowed)
  {
    var r := ReadLoop(st.init, st.test, st.step, st.body, consts, funcs, shadowed);
    forall l: Counting
      ensures r == Some(l) <==> l.body == st.body && Counts(st.init, st.test, st.step, l, consts, funcs, shadowed)
    {
      ReadLoopExactly(st.init, st.test, st.step, st.body, l, consts, funcs, shadowed);
    }
    if r.Some? {
      UnrollCountingExactly(r.value, big, shadowed);
    }
  }

  /** A `while` does so exactly when its increment comes last in its body, and nothing after the
      loop mentions the counter. */
  lemma UnrollsWhileExactly(prev: Stmt, st: Stmt, rest: seq<Stmt>, big: bool, consts: Consts, funcs: Funcs, shadowed: set<Name>)
    requires st.While?
    ensures UnrollWhile(prev, st, rest, big, consts, funcs, shadowed).Some? <==>
            && st.body != [] && st.body[|st.body| - 1].Do?
            && exists l: Counting :: l.body == st.body[..|st.body| - 1] && l.x !in NamesIn(rest) && Unrollable(l, big, shadowed)
                           && Counts([prev], Some(st.c), Some(st.body[|st.body| - 1].e), l, consts, funcs, shadowed)
  {
    if st.body != [] && st.body[|st.body| - 1].Do? {
      var n := |st.body| - 1;
      var r := ReadLoop([prev], Some(st.c), Some(st.body[n].e), st.body[..n], consts, funcs, shadowed);
      forall l: Counting
        ensures r == Some(l) <==>
                l.body == st.body[..n] && Counts([prev], Some(st.c), Some(st.body[n].e), l, consts, funcs, shadowed)
      {
        ReadLoopExactly([prev], Some(st.c), Some(st.body[n].e), st.body[..n], l, consts, funcs, shadowed);
      }
      if r.Some? {
        UnrollCountingExactly(r.value, big, shadowed);
      }
    }
  }

  // ----- rounding to a double -----

  /** `r` is the multiple of `u` nearest to `v`, the even one of two equally near. */
  ghost predicate NearestMultiple(v: nat, u: nat, r: int) {
    exists m: nat :: IsNearest(v, u, r, m)
  }

  predicate IsNearest(v: nat, u: nat, r: int, m: nat) {
    r == Scale(m, u) && 2 * (r - v) <= u && 2 * (v - r) <= u && (2 * (v - r) == u || 2 * (r - v) == u ==> m % 2 == 0)
  }

  function Scale(m: nat, u: nat): int {
    m * u
  }

  lemma ScaleSplit(v: nat, u: nat)
    requires u > 0
    ensures v == Scale(v / u, u) + v % u && v % u < u
    ensures Scale(v / u + 1, u) == Scale(v / u, u) + u
    ensures Nearest(v, u) == if 2 * (v % u) < u || (2 * (v % u) == u && v / u % 2 == 0) then Scale(v / u, u) else Scale(v / u + 1, u)
  {
  }

  lemma NearestOf(v: nat, u: nat, q: nat, r: nat, low: int, high: int)
    requires v == low + r && r < u && high == low + u && low == Scale(q, u) && high == Scale(q + 1, u)
    ensures if 2 * r < u || (2 * r == u && q % 2 == 0) then IsNearest(v, u, low, q) else IsNearest(v, u, high, q + 1)
  {
  }

  lemma NearestIs(v: nat, u: nat)
    requires u > 0
    ensures NearestMultiple(v, u, Nearest(v, u))
  {
    ScaleSplit(v, u);
    NearestOf(v, u, v / u, v % u, Scale(v / u, u), Scale(v / u + 1, u));
  }

  lemma {:induction false} RoundIs(v: nat, j: nat, k: nat)
    requires j <= k && v < Scaled(TWO_TO_THE_53, k) && (k > j ==> v >= Scaled(TWO_TO_THE_53, k - 1))
    ensures Round(v, PowerOfTwo(j)) == Nearest(v, PowerOfTwo(k))
    decreases k - j
  {
    if j < k {
      PowersGrow(j, k - 1);
      assert PowerOfTwo(j + 1) == 2 * PowerOfTwo(j);
      RoundIs(v, j + 1, k);
    }
  }

  lemma {:induction false} PowersGrow(a: nat, b: nat)
    requires a <= b
    ensures PowerOfTwo(a) <= PowerOfTwo(b) && Scaled(TWO_TO_THE_53, a) <= Scaled(TWO_TO_THE_53, b)
  {
    if a < b {
      PowersGrow(a, b - 1);
    }
  }

  /** A counter of a size where doubles count in units of `2^k` becomes the nearest multiple of
      that unit, ties to even, and keeps its sign. */
  lemma ToDoubleIsNearest(v: int, k: nat)
    requires Abs(v) < Scaled(TWO_TO_THE_53, k) && (k > 0 ==> Abs(v) >= Scaled(TWO_TO_THE_53, k - 1))
    ensures NearestMultiple(Abs(v), PowerOfTwo(k), Abs(ToDouble(v)))
    ensures ToDouble(v) == 0 || (ToDouble(v) < 0 <==> v < 0)
  {
    RoundIs(Abs(v), 0, k);
    NearestIs(Abs(v), PowerOfTwo(k));
  }
}
