/** Loops the unroller accepts and changes, and exactly when it changes them. */
module UnrollLimits {
  import opened Arith
  import opened TsLang
  import opened TsRewrite
  import opened TsRewriteStmts
  import opened TsFrame
  import opened LocalConst
  import opened Unroll
  import opened UnrollSound

  /** `for (let x = start; x < bound; x++) { ... }`, in a file without constants. */
  function CountUp(x: Name, start: nat, bound: nat, body: seq<Stmt>): Stmt {
    For([Let([Declarator(x, Some(Lit(start)))])], Some(Bin(Lt, Var(x), Lit(bound))), Some(Update(x, true, false)), body)
  }

  function CountUpReading(x: Name, start: nat, bound: nat, body: seq<Stmt>, shadowed: set<Name>): Reading {
    Reading(Counting(x, start, Lt, bound, 1, body), Lit(bound), Update(x, true, false), map[], map[], shadowed)
  }

  function Unrolled(x: Name, start: nat, bound: nat, body: seq<Stmt>, shadowed: set<Name>, big: bool): Option<seq<Stmt>> {
    UnrollFor(CountUp(x, start, bound, body), big, map[], map[], shadowed)
  }

  /** How often the loop runs. */
  function TripsUp(start: nat, bound: nat): nat {
    if bound > start then bound - start else 0
  }

  lemma CountUpRead(x: Name, start: nat, bound: nat, body: seq<Stmt>, shadowed: set<Name>, big: bool)
    requires !Blocks(body, x) && TripsUp(start, bound) <= MAX_UNROLL_ITERATIONS
    ensures var st, r := CountUp(x, start, bound, body), CountUpReading(x, start, bound, body, shadowed);
            && Some(r.l) == ReadLoop(st.init, st.test, st.step, st.body, map[], map[], shadowed)
            && Trips(start, Lt, bound, 1) == TripsUp(start, bound)
            && var copies := Copies(body, x, Values(start, 1, TripsUp(start, bound)), big);
               Unrolled(x, start, bound, body, shadowed, big) == if Collides(copies, shadowed) then None else Some(copies)
  {
    var init := CountUp(x, start, bound, body).init;
    assert CounterOf(init) == Some((x, Lit(start)));
  }

  /** What `UnrollForExactly` says of such a loop. */
  lemma CountUpExactly(x: Name, start: nat, bound: nat, body: seq<Stmt>, shadowed: set<Name>, c: Ctx, s: State)
    requires !Blocks(body, x) && x !in WritesIn(body) && TripsUp(start, bound) <= MAX_UNROLL_ITERATIONS
    requires x in shadowed && c.limit >= MAX_UNROLL_ITERATIONS
    requires Unrolled(x, start, bound, body, shadowed, true).Some?
    ensures var o := Exec(c, Unrolled(x, start, bound, body, shadowed, true).value, s);
            var loop := ExecStmt(c, CountUp(x, start, bound, body), s);
            && (loop == o <==> (o.Normal? ==> forall y | y in Declared(body) :: Kept(s, o.s, y)))
            && (Declared(body) == {} ==> loop == o)
  {
    var r := CountUpReading(x, start, bound, body, shadowed);
    CountUpRead(x, start, bound, body, shadowed, true);
    assert Facts(r) == map[];
    assert Callees(r.b) + Callees(r.inc) == {} && Callees(Lit(start)) == {};
    UnrollForExactly(r, c, CountUp(x, start, bound, body), true, s);
  }

  // ----- a name declared inside an `if` -----

  /** `if (p) { let y = w; }`. */
  function Branch(p: Name, y: Name, w: Name): seq<Stmt> {
    [If(Var(p), [Let([Declarator(y, Some(Var(w)))])], [])]
  }

  lemma BranchShape(x: Name, p: Name, y: Name, w: Name, lit: Expr)
    requires x != p && x != y && x != w
    ensures PutList(Branch(p, y, w), x, lit) == Branch(p, y, w)
    ensures Declared(Branch(p, y, w)) == {y} && DirectNames(Branch(p, y, w)) == {}
    ensures !Blocks(Branch(p, y, w), x) && WritesIn(Branch(p, y, w)) == {y}
  {
    var ds := [Declarator(y, Some(Var(w)))];
    var thn, body := [Let(ds)], Branch(p, y, w);
    assert ds[1..] == [] && thn[1..] == [] && body[1..] == [];
    assert ds[0] == Declarator(y, Some(Var(w)));
    assert DeclNames(ds) == {y} + DeclNames([]) && LetWrites(ds) == {y} + LetWrites([]);
    assert PutLets([], x, lit) == [] && PutList([], x, lit) == [];
    assert PutLets(ds, x, lit) == ds;
    assert PutStmt(thn[0], x, lit) == thn[0];
    assert PutList(thn, x, lit) == [thn[0]] + [] == thn;
    assert PutStmt(body[0], x, lit) == body[0];
    assert PutList(body, x, lit) == [body[0]] + [] == body;
    assert Declared([]) == {} && Declared(thn) == StmtDeclared(thn[0]) + Declared([]);
    assert Declared(body) == StmtDeclared(body[0]) + Declared([]);
    assert StmtBlocks(thn[0], x) == false && Blocks([], x) == false;
    assert Blocks(thn, x) == false;
    assert WritesIn([]) == {} && WritesIn(thn) == StmtWrites(thn[0]) + WritesIn([]);
    assert WritesIn(body) == StmtWrites(body[0]) + WritesIn([]);
    assert DirectNames([]) == {} && DirectNames(body) == {} + DirectNames([]);
  }

  lemma {:induction false} BranchCopies(x: Name, p: Name, y: Name, w: Name, vs: seq<int>, taken: set<Name>)
    requires x != p && x != y && x != w
    ensures !Collides(Copies(Branch(p, y, w), x, vs, true), taken)
  {
    if vs != [] {
      BranchShape(x, p, y, w, Literal(vs[0]));
      BranchCopies(x, p, y, w, vs[1..], taken);
      var rest := Copies(Branch(p, y, w), x, vs[1..], true);
      assert (Branch(p, y, w) + rest)[1..] == rest && [(Branch(p, y, w) + rest)[0]] == Branch(p, y, w);
      assert taken + {} == taken;
    }
  }

  /** One run of the body: `y` is set if `p` holds. */
  lemma BranchRuns(p: Name, y: Name, w: Name, pv: int, wv: Value, c: Ctx, s: State)
    requires Lookup(c, s, p) == Some(Int(pv)) && Lookup(c, s, w) == Some(wv)
    ensures Exec(c, Branch(p, y, w), s) == Normal(if pv != 0 then Put(s, y, wv) else s)
  {
    var ds := [Declarator(y, Some(Var(w)))];
    var thn, body := [Let(ds)], Branch(p, y, w);
    assert ds[1..] == [] && thn[1..] == [] && body[1..] == [];
    assert ExecLets(c, [], Put(s, y, wv)) == Normal(Put(s, y, wv));
    assert ExecLets(c, ds, s) == Normal(Put(s, y, wv));
    assert Exec(c, [], Put(s, y, wv)) == Normal(Put(s, y, wv)) && Exec(c, [], s) == Normal(s);
    assert Exec(c, thn, s) == Normal(Put(s, y, wv));
    assert ExecStmt(c, body[0], s) == Normal(if pv != 0 then Put(s, y, wv) else s);
  }

  lemma {:induction false} BranchCopiesRun(x: Name, p: Name, y: Name, w: Name, vs: seq<int>, pv: int, wv: Value,
                                           c: Ctx, s: State)
    requires x != p && x != y && x != w && y != p && y != w
    requires Lookup(c, s, p) == Some(Int(pv)) && Lookup(c, s, w) == Some(wv)
    ensures Exec(c, Copies(Branch(p, y, w), x, vs, true), s) ==
            Normal(if vs != [] && pv != 0 then Put(s, y, wv) else s)
  {
    if vs != [] {
      BranchShape(x, p, y, w, Literal(vs[0]));
      var body, rest := Branch(p, y, w), Copies(Branch(p, y, w), x, vs[1..], true);
      BranchRuns(p, y, w, pv, wv, c, s);
      var t := if pv != 0 then Put(s, y, wv) else s;
      ExecAppend(c, body, rest, s);
      BranchCopiesRun(x, p, y, w, vs[1..], pv, wv, c, t);
      assert Put(t, y, wv).vars == Put(s, y, wv).vars;
    }
  }

  /** The loop takes `y` away with it and the copies leave it behind: they agree exactly when
      the loop never runs, the branch is never taken, or `y` held that value already. */
  lemma BranchLeaksExactly(x: Name, p: Name, y: Name, w: Name, start: nat, bound: nat, pv: int, wv: Value,
                           shadowed: set<Name>, c: Ctx, s: State)
    requires x != p && x != y && x != w && y != p && y != w && x in shadowed
    requires TripsUp(start, bound) <= MAX_UNROLL_ITERATIONS <= c.limit
    requires Lookup(c, s, p) == Some(Int(pv)) && Lookup(c, s, w) == Some(wv)
    ensures var out := Unrolled(x, start, bound, Branch(p, y, w), shadowed, true);
            && out.Some?
            && (ExecStmt(c, CountUp(x, start, bound, Branch(p, y, w)), s) == Exec(c, out.value, s) <==>
                TripsUp(start, bound) == 0 || pv == 0 || (y in s.vars && s.vars[y] == wv))
  {
    var body, vs := Branch(p, y, w), Values(start, 1, TripsUp(start, bound));
    BranchShape(x, p, y, w, Lit(0));
    CountUpRead(x, start, bound, body, shadowed, true);
    BranchCopies(x, p, y, w, vs, shadowed);
    BranchCopiesRun(x, p, y, w, vs, pv, wv, c, s);
    CountUpExactly(x, start, bound, body, shadowed, c, s);
    var o := Exec(c, Copies(body, x, vs, true), s);
    assert |vs| == TripsUp(start, bound);
    assert (forall z | z in Declared(body) :: Kept(s, o.s, z)) <==> Kept(s, o.s, y);
  }

  // ----- a counter that passes through a double -----

  /** `a = x;`. */
  function Copy(a: Name, x: Name): seq<Stmt> {
    [Do(Assign(a, None, Var(x)))]
  }

  lemma CopyShape(a: Name, x: Name, lit: Expr)
    requires a != x
    ensures PutList(Copy(a, x), x, lit) == [Do(Assign(a, None, lit))]
    ensures Declared(Copy(a, x)) == {} && !Blocks(Copy(a, x), x) && WritesIn(Copy(a, x)) == {a}
    ensures !Collides([Do(Assign(a, None, lit))] + [], {x})
  {
    var body := Copy(a, x);
    assert body[1..] == [];
    assert PutList([], x, lit) == [] && PutExpr(Var(x), x, lit) == lit;
    assert PutStmt(body[0], x, lit) == Do(Assign(a, None, lit));
    assert PutList(body, x, lit) == [PutStmt(body[0], x, lit)] + [];
    assert Writes(Assign(a, None, Var(x))) == {a} + Writes(Var(x)) == {a};
    assert StmtWrites(body[0]) == {a};
    assert Declared(body) == StmtDeclared(body[0]) + Declared([]);
    assert Blocks([], x) == false;
    assert WritesIn(body) == StmtWrites(body[0]) + WritesIn([]);
    var one := [Do(Assign(a, None, lit))] + [];
    assert one == [one[0]] && one[1..] == [] && [one[0]][1..] == [];
    assert DirectNames([one[0]]) == {} + DirectNames([]);
    assert Collides([], {x} + {}) == false;
  }

  lemma CopyUnrolled(a: Name, x: Name, v: nat, big: bool)
    requires a != x
    ensures Unrolled(x, v, v + 1, Copy(a, x), {x}, big) ==
            Some([Do(Assign(a, None, Literal(if big then v else ToDouble(v))))])
  {
    var lit := Literal(if big then v else ToDouble(v));
    CopyShape(a, x, lit);
    CountUpRead(x, v, v + 1, Copy(a, x), {x}, big);
    var vs := Values(v, 1, 1);
    assert vs == [v] && vs[1..] == [];
    assert Copies(Copy(a, x), x, [], big) == [];
    assert Copies(Copy(a, x), x, vs, big) == PutList(Copy(a, x), x, lit) + [];
    assert [Do(Assign(a, None, lit))] + [] == [Do(Assign(a, None, lit))];
  }

  lemma StoreRuns(a: Name, v: int, c: Ctx, s: State)
    ensures Exec(c, [Do(Assign(a, None, Literal(v)))], s) == Normal(Put(s, a, Int(v)))
  {
    var ss := [Do(Assign(a, None, Literal(v)))];
    assert ss[1..] == [] && Exec(c, [], Put(s, a, Int(v))) == Normal(Put(s, a, Int(v)));
    LiteralValue(c, v, s);
  }

  /** `for (let x = v; x < v + 1; x++) a = x;` with a plain number for `v`: unrolled, `a` gets
      what is left of `v` in a double, so the program is unchanged exactly when that is `v`. */
  lemma CounterRoundsExactly(a: Name, x: Name, v: nat, c: Ctx, s: State)
    requires a != x && c.limit >= MAX_UNROLL_ITERATIONS
    ensures var out := Unrolled(x, v, v + 1, Copy(a, x), {x}, false);
            && out.Some?
            && (ExecStmt(c, CountUp(x, v, v + 1, Copy(a, x)), s) == Exec(c, out.value, s) <==> Representable(v))
  {
    CopyUnrolled(a, x, v, true);
    CopyUnrolled(a, x, v, false);
    CopyShape(a, x, Lit(0));
    CountUpExactly(x, v, v + 1, Copy(a, x), {x}, c, s);
    StoreRuns(a, v, c, s);
    StoreRuns(a, ToDouble(v), c, s);
    DoubleExactly(v);
    assert Put(s, a, Int(v)).vars[a] == Int(v) && Put(s, a, Int(ToDouble(v))).vars[a] == Int(ToDouble(v));
  }
}
