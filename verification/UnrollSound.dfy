/** Why an unrolled loop does what the loop did. */
module UnrollSound {
  import opened Arith
  import opened TsLang
  import opened TsConst
  import opened TsRewrite
  import opened TsRewriteStmts
  import opened TsFrame
  import opened Unroll

  /** The counter exists only in the loop; constants keep their values. */
  function Around(x: Name, facts: Consts): Know {
    Know(facts - {x}, {}, map[], {}, {x}, map[], map[], {})
  }

  /** In one iteration the counter has a known value too. */
  function During(x: Name, v: int, facts: Consts): Know {
    Around(x, facts).(known := facts[x := v])
  }

  // ----- a copy is a rewriting of the body -----

  ghost predicate Fixed(k: Know, x: Name, v: int, written: set<Name>) {
    k.known == k.known[x := v] && k == During(x, v, k.known) && written !! k.known.Keys
  }

  lemma {:induction false} PutRefines(k: Know, e: Expr, x: Name, v: int)
    requires Fixed(k, x, v, Writes(e))
    ensures Refines(k, e, PutExpr(e, x, Literal(v)))
  {
    match e
    case Var(y) =>
      if y == x {
        assert Constant(k, e) == Some(v);
        assert Folded(k, e, Literal(v));
      }
    case Un(_, a) => PutRefines(k, a, x, v);
    case Bin(_, l, r) => PutRefines(k, l, x, v); PutRefines(k, r, x, v);
    case Logic(_, l, r) => PutRefines(k, l, x, v); PutRefines(k, r, x, v);
    case Cond(b, t, f) => PutRefines(k, b, x, v); PutRefines(k, t, x, v); PutRefines(k, f, x, v);
    case Call(_, args) => PutAllRefines(k, args, x, v);
    case Index(b, i) => PutRefines(k, b, x, v); PutRefines(k, i, x, v);
    case NewArr(_, n) => PutRefines(k, n, x, v);
    case ArrayLit(es) => PutAllRefines(k, es, x, v);
    case Assign(_, _, r) => PutRefines(k, r, x, v);
    case SetAt(b, i, _, r) => PutRefines(k, b, x, v); PutRefines(k, i, x, v); PutRefines(k, r, x, v);
    case _ =>
  }

  lemma {:induction false} PutAllRefines(k: Know, es: seq<Expr>, x: Name, v: int)
    requires Fixed(k, x, v, WritesAll(es))
    ensures RefinesAll(k, es, PutAll(es, x, Literal(v)))
  {
    if es != [] {
      PutRefines(k, es[0], x, v);
      PutAllRefines(k, es[1..], x, v);
      assert PutAll(es, x, Literal(v))[1..] == PutAll(es[1..], x, Literal(v));
    }
  }

  lemma {:induction false} PutOptRefines(k: Know, e: Option<Expr>, x: Name, v: int)
    requires Fixed(k, x, v, OptWrites(e))
    ensures RefinesOpt(k, e, PutOpt(e, x, Literal(v)))
  {
    if e.Some? {
      PutRefines(k, e.value, x, v);
    }
  }

  lemma {:induction false} PutLetsRefines(k: Know, ds: seq<Declarator>, x: Name, v: int)
    requires Fixed(k, x, v, LetWrites(ds))
    ensures RefinesLets(k, ds, PutLets(ds, x, Literal(v)))
  {
    if ds != [] {
      PutOptRefines(k, ds[0].init, x, v);
      PutLetsRefines(k, ds[1..], x, v);
      assert PutLets(ds, x, Literal(v))[1..] == PutLets(ds[1..], x, Literal(v));
    }
  }

  lemma {:induction false} PutStmtRefines(k: Know, st: Stmt, x: Name, v: int)
    requires Fixed(k, x, v, StmtWrites(st))
    ensures RefinesStmt(k, st, PutStmt(st, x, Literal(v)))
    decreases st, 1
  {
    match st
    case Let(ds) => PutLetsRefines(k, ds, x, v);
    case Do(e) => PutRefines(k, e, x, v);
    case If(b, t, f) => PutRefines(k, b, x, v); PutListRefines(k, t, x, v); PutListRefines(k, f, x, v);
    case While(b, body) => PutRefines(k, b, x, v); PutListRefines(k, body, x, v);
    case For(init, test, step, body) =>
      PutListRefines(k, init, x, v);
      PutOptRefines(k, test, x, v);
      PutOptRefines(k, step, x, v);
      PutListRefines(k, body, x, v);
    case Return(e) => PutOptRefines(k, e, x, v);
    case Throw(e) => PutRefines(k, e, x, v);
    case _ =>
  }

  lemma {:induction false} PutListRefines(k: Know, ss: seq<Stmt>, x: Name, v: int)
    requires Fixed(k, x, v, WritesIn(ss))
    ensures RefinesList(k, ss, PutList(ss, x, Literal(v)))
    decreases ss, 0
  {
    if ss != [] {
      PutStmtRefines(k, ss[0], x, v);
      PutListRefines(k, ss[1..], x, v);
      assert PutList(ss, x, Literal(v))[1..] == PutList(ss[1..], x, Literal(v));
    }
  }

  // ----- no copy mentions the counter -----

  lemma LiteralNames(v: int)
    ensures Mentions(Literal(v)) == {} && Writes(Literal(v)) == {} && SitesOf(Literal(v)) == {}
  {
  }

  lemma {:induction false} PutNames(e: Expr, x: Name, v: int)
    requires x !in Writes(e)
    ensures x !in Mentions(PutExpr(e, x, Literal(v))) && Writes(PutExpr(e, x, Literal(v))) == Writes(e)
  {
    LiteralNames(v);
    match e
    case Un(_, a) => PutNames(a, x, v);
    case Bin(_, l, r) => PutNames(l, x, v); PutNames(r, x, v);
    case Logic(_, l, r) => PutNames(l, x, v); PutNames(r, x, v);
    case Cond(b, t, f) => PutNames(b, x, v); PutNames(t, x, v); PutNames(f, x, v);
    case Call(_, args) => PutAllNames(args, x, v);
    case Index(b, i) => PutNames(b, x, v); PutNames(i, x, v);
    case NewArr(_, n) => PutNames(n, x, v);
    case ArrayLit(es) => PutAllNames(es, x, v);
    case Assign(_, _, r) => PutNames(r, x, v);
    case SetAt(b, i, _, r) => PutNames(b, x, v); PutNames(i, x, v); PutNames(r, x, v);
    case _ =>
  }

  lemma {:induction false} PutAllNames(es: seq<Expr>, x: Name, v: int)
    requires x !in WritesAll(es)
    ensures x !in MentionsAll(PutAll(es, x, Literal(v))) && WritesAll(PutAll(es, x, Literal(v))) == WritesAll(es)
  {
    if es != [] {
      PutNames(es[0], x, v);
      PutAllNames(es[1..], x, v);
      assert PutAll(es, x, Literal(v))[1..] == PutAll(es[1..], x, Literal(v));
    }
  }

  lemma {:induction false} PutOptNames(e: Option<Expr>, x: Name, v: int)
    requires x !in OptWrites(e)
    ensures x !in OptMentions(PutOpt(e, x, Literal(v))) && OptWrites(PutOpt(e, x, Literal(v))) == OptWrites(e)
  {
    if e.Some? {
      PutNames(e.value, x, v);
    }
  }

  lemma {:induction false} PutLetsNames(ds: seq<Declarator>, x: Name, v: int)
    requires x !in LetWrites(ds)
    ensures x !in LetMentions(PutLets(ds, x, Literal(v))) && LetWrites(PutLets(ds, x, Literal(v))) == LetWrites(ds)
  {
    if ds != [] {
      PutOptNames(ds[0].init, x, v);
      PutLetsNames(ds[1..], x, v);
      assert PutLets(ds, x, Literal(v))[1..] == PutLets(ds[1..], x, Literal(v));
    }
  }

  lemma {:induction false} PutStmtNames(st: Stmt, x: Name, v: int)
    requires x !in StmtWrites(st)
    ensures x !in StmtNamesIn(PutStmt(st, x, Literal(v))) && StmtWrites(PutStmt(st, x, Literal(v))) == StmtWrites(st)
    decreases st, 1
  {
    match st
    case Let(ds) => PutLetsNames(ds, x, v);
    case Do(e) => PutNames(e, x, v);
    case If(b, t, f) => PutNames(b, x, v); PutListNames(t, x, v); PutListNames(f, x, v);
    case While(b, body) => PutNames(b, x, v); PutListNames(body, x, v);
    case For(init, test, step, body) =>
      PutListNames(init, x, v);
      PutOptNames(test, x, v);
      PutOptNames(step, x, v);
      PutListNames(body, x, v);
    case Return(e) => PutOptNames(e, x, v);
    case Throw(e) => PutNames(e, x, v);
    case _ =>
  }

  lemma {:induction false} PutListNames(ss: seq<Stmt>, x: Name, v: int)
    requires x !in WritesIn(ss)
    ensures x !in NamesIn(PutList(ss, x, Literal(v))) && WritesIn(PutList(ss, x, Literal(v))) == WritesIn(ss)
    decreases ss, 0
  {
    if ss != [] {
      PutStmtNames(ss[0], x, v);
      PutListNames(ss[1..], x, v);
      assert PutList(ss, x, Literal(v))[1..] == PutList(ss[1..], x, Literal(v));
    }
  }

  lemma {:induction false} NamesAppend(a: seq<Stmt>, b: seq<Stmt>)
    ensures NamesIn(a + b) == NamesIn(a) + NamesIn(b) && WritesIn(a + b) == WritesIn(a) + WritesIn(b)
  {
    if a == [] {
      assert a + b == b;
    } else {
      assert (a + b)[1..] == a[1..] + b;
      NamesAppend(a[1..], b);
    }
  }

  lemma {:induction false} CopiesNames(body: seq<Stmt>, x: Name, vs: seq<int>)
    requires x !in WritesIn(body)
    ensures x !in NamesIn(Copies(body, x, vs, true)) && WritesIn(Copies(body, x, vs, true)) <= WritesIn(body)
  {
    if vs != [] {
      var copy := PutList(body, x, Literal(vs[0]));
      PutListNames(body, x, vs[0]);
      CopiesNames(body, x, vs[1..]);
      NamesAppend(copy, Copies(body, x, vs[1..], true));
    }
  }

  /** Exact values need no detour: the copies are those of a bigint counter. */
  lemma {:induction false} CopiesExact(body: seq<Stmt>, x: Name, vs: seq<int>, big: bool)
    requires big || forall i | 0 <= i < |vs| :: ToDouble(vs[i]) == vs[i]
    ensures Copies(body, x, vs, big) == Copies(body, x, vs, true)
  {
    if vs != [] {
      CopiesExact(body, x, vs[1..], big);
    }
  }

  // ----- no jumps -----

  ghost predicate Straight(o: Out) {
    !o.Broke? && !o.Continued? && !o.Returned?
  }

  lemma {:induction false} LetsStraight(c: Ctx, ds: seq<Declarator>, s: State)
    ensures Straight(ExecLets(c, ds, s))
  {
    if ds != [] {
      match ds[0].init
      case None => LetsStraight(c, ds[1..], s.(vars := s.vars - {ds[0].x}));
      case Some(e) =>
        var w := Eval(c, e, s);
        if w.Val? {
          LetsStraight(c, ds[1..], Put(w.s, ds[0].x, w.v));
        }
    }
  }

  lemma {:induction false} NoJumps(c: Ctx, ss: seq<Stmt>, x: Name, s: State)
    requires !Blocks(ss, x)
    ensures Straight(Exec(c, ss, s))
    decreases ss, 0, 0
  {
    if ss != [] {
      StmtNoJumps(c, ss[0], x, s);
      var o := ExecStmt(c, ss[0], s);
      if o.Normal? {
        NoJumps(c, ss[1..], x, o.s);
      }
    }
  }

  lemma {:induction false} StmtNoJumps(c: Ctx, st: Stmt, x: Name, s: State)
    requires !StmtBlocks(st, x)
    ensures Straight(ExecStmt(c, st, s))
    decreases st, 1, 0
  {
    match st
    case Let(ds) => LetsStraight(c, ds, s);
    case If(b, t, f) =>
      var w := Eval(c, b, s);
      if w.Val? && w.v.Int? {
        NoJumps(c, if w.v.n != 0 then t else f, x, w.s);
      }
    case While(_, _) => LoopNoJumps(c, st, x, s, c.limit);
    case For(init, _, _, _) =>
      NoJumps(c, init, x, s);
      var o := Exec(c, init, s);
      if o.Normal? {
        LoopNoJumps(c, st, x, o.s, c.limit);
      }
    case _ =>
  }

  lemma {:induction false} LoopNoJumps(c: Ctx, st: Stmt, x: Name, s: State, n: nat)
    requires (st.While? || st.For?) && !Blocks(st.body, x)
    ensures Straight(Loop(c, st, s, n))
    decreases st, 0, n
  {
    var w := Test(c, TestOf(st), s);
    if w.Val? && w.v.Int? && w.v.n != 0 && n > 0 {
      NoJumps(c, st.body, x, w.s);
      var o := Exec(c, st.body, w.s);
      if o.Normal? {
        var w2 := Test(c, StepOf(st), o.s);
        if w2.Val? {
          LoopNoJumps(c, st, x, w2.s, n - 1);
        }
      }
    }
  }

  // ----- one iteration -----

  /** The loop that was read: its test and increment, and the constants they were read under. */
  datatype Reading = Reading(l: Counting, b: Expr, inc: Expr, consts: Consts, funcs: Funcs, shadowed: set<Name>)

  function Facts(r: Reading): Consts {
    r.consts - r.shadowed
  }

  /** What the unroller found, and what it does not check: the body leaves the counter and
      the file's constants alone. */
  ghost predicate Sound(r: Reading, c: Ctx) {
    && EvalConst(r.b, r.consts, r.funcs, r.shadowed) == Some(r.l.bound)
    && StepBy(r.inc, r.l.x, r.consts, r.funcs, r.shadowed) == Some(r.l.step)
    && Directed(r.l.cmp, r.l.step) && !Blocks(r.l.body, r.l.x)
    && r.l.x in r.shadowed
    && r.l.x !in WritesIn(r.l.body) && WritesIn(r.l.body) !! Facts(r).Keys
    && Uncaptured(c, r.consts, r.funcs, r.shadowed, Callees(r.b) + Callees(r.inc))
  }

  predicate Shape(st: Stmt, r: Reading) {
    var test := Bin(r.l.cmp, Var(r.l.x), r.b);
    || (st.For? && st.test == Some(test) && st.step == Some(r.inc) && st.body == r.l.body)
    || (st.While? && st.c == test && st.body == r.l.body + [Do(r.inc)])
  }

  lemma ConstAt(r: Reading, c: Ctx, e: Expr, v: int, s: State)
    requires Sound(r, c) && Knows(During(r.l.x, v, Facts(r)), c, s) && Callees(e) <= Callees(r.b) + Callees(r.inc)
    requires EvalConst(e, r.consts, r.funcs, r.shadowed).Some?
    ensures Eval(c, e, s) == Val(Int(EvalConst(e, r.consts, r.funcs, r.shadowed).value), s)
  {
    var k := During(r.l.x, v, Facts(r));
    assert forall y | y in r.consts && y !in r.shadowed :: y in k.known && k.known[y] == r.consts[y];
    ConstSound(c, e, r.consts, r.funcs, r.shadowed, s);
  }

  lemma TestAt(r: Reading, c: Ctx, v: int, s: State)
    requires Sound(r, c) && Knows(During(r.l.x, v, Facts(r)), c, s)
    ensures Eval(c, Bin(r.l.cmp, Var(r.l.x), r.b), s) == Val(Int(Bool(Continues(r.l.cmp, v, r.l.bound))), s)
  {
    ConstAt(r, c, r.b, v, s);
    assert Eval(c, Var(r.l.x), s) == Val(Int(v), s);
  }

  lemma StepAt(r: Reading, c: Ctx, v: int, s: State)
    requires Sound(r, c) && Knows(During(r.l.x, v, Facts(r)), c, s)
    ensures Eval(c, r.inc, s).Val? && Eval(c, r.inc, s).s == Put(s, r.l.x, Int(v + r.l.step))
  {
    var x := r.l.x;
    assert Lookup(c, s, x) == Some(Int(v));
    match r.inc
    case Update(_, _, _) =>
    case Assign(_, Some(op), e) =>
      assert StepBy(r.inc, x, r.consts, r.funcs, r.shadowed) == Signed(op, EvalConst(e, r.consts, r.funcs, r.shadowed));
      ConstAt(r, c, e, v, s);
      StepCompound(c, x, op, e, v, s);
    case Assign(_, None, Bin(op, Var(_), e)) =>
      assert StepBy(r.inc, x, r.consts, r.funcs, r.shadowed) == Signed(op, EvalConst(e, r.consts, r.funcs, r.shadowed));
      ConstAt(r, c, e, v, s);
      StepSpelledOut(c, x, op, e, v, s);
    case _ =>
  }

  /** `x += e` and `x -= e`. */
  lemma StepCompound(c: Ctx, x: Name, op: BinOp, e: Expr, v: int, s: State)
    requires (op.Add? || op.Sub?) && Lookup(c, s, x) == Some(Int(v))
    requires Eval(c, e, s).Val? && Eval(c, e, s).v.Int? && Eval(c, e, s).s == s
    ensures var n := Eval(c, e, s).v.n;
            var w := if op.Add? then v + n else v - n;
            Eval(c, Assign(x, Some(op), e), s) == Val(Int(w), Put(s, x, Int(w)))
  {
  }

  /** `x = x + e` and `x = x - e`. */
  lemma StepSpelledOut(c: Ctx, x: Name, op: BinOp, e: Expr, v: int, s: State)
    requires (op.Add? || op.Sub?) && Lookup(c, s, x) == Some(Int(v))
    requires Eval(c, e, s).Val? && Eval(c, e, s).v.Int? && Eval(c, e, s).s == s
    ensures var n := Eval(c, e, s).v.n;
            var w := if op.Add? then v + n else v - n;
            Eval(c, Assign(x, None, Bin(op, Var(x), e)), s) == Val(Int(w), Put(s, x, Int(w)))
  {
    assert Eval(c, Var(x), s) == Val(Int(v), s);
  }

  lemma NextKnown(x: Name, v: int, w: int, facts: Consts, c: Ctx, s: State)
    requires Knows(During(x, v, facts), c, s)
    ensures Knows(During(x, w, facts), c, Put(s, x, Int(w)))
    ensures Hide(Around(x, facts), Put(s, x, Int(w))) == Hide(Around(x, facts), s)
  {
    var k, k2, t := During(x, v, facts), During(x, w, facts), Put(s, x, Int(w));
    forall y | y in k2.known
      ensures Lookup(c, t, y) == Some(Int(k2.known[y]))
    {
      if y != x {
        assert y in k.known && Lookup(c, s, y) == Some(Int(k.known[y]));
      }
    }
    assert t.vars - {x} == s.vars - {x};
  }

  /** One turn of either kind of loop. */
  lemma LoopOnce(r: Reading, c: Ctx, st: Stmt, v: int, s: State, n: nat)
    requires Shape(st, r) && Sound(r, c) && Knows(During(r.l.x, v, Facts(r)), c, s)
    requires Continues(r.l.cmp, v, r.l.bound) && n > 0
    ensures var o := Exec(c, r.l.body, s);
            if o.Normal? && Eval(c, r.inc, o.s).Val? then Loop(c, st, s, n) == Loop(c, st, Eval(c, r.inc, o.s).s, n - 1)
            else !o.Normal? ==> Loop(c, st, s, n) == o
  {
    TestAt(r, c, v, s);
    NoJumps(c, r.l.body, r.l.x, s);
    var o := Exec(c, r.l.body, s);
    if st.While? {
      ExecAppend(c, r.l.body, [Do(r.inc)], s);
      if o.Normal? && Eval(c, r.inc, o.s).Val? {
        var t := Eval(c, r.inc, o.s).s;
        assert [Do(r.inc)][1..] == [];
        assert Exec(c, [], t) == Normal(t);
        assert Exec(c, [Do(r.inc)], o.s) == Normal(t);
        assert Again(c, st, t, n) == Loop(c, st, t, n - 1);
      }
    }
  }

  lemma KnowsLess(x: Name, v: int, facts: Consts, c: Ctx, o: Out, o2: Out)
    requires SameOut(During(x, v, facts), c, o, o2)
    ensures SameOut(Around(x, facts), c, o, o2)
  {
    var k, k2 := During(x, v, facts), Around(x, facts);
    assert forall y | y in k2.known :: y in k.known && k.known[y] == k2.known[y];
    if o.Normal? || o.Broke? || o.Continued? || o.Returned? {
      assert Hide(k, o.s) == Hide(k2, o.s);
    }
  }

  /** The rest of the loop, behind one turn of it. */
  lemma TurnSame(k: Know, c: Ctx, o: Out, o2: Out, l: Out, rest: seq<Stmt>)
    requires SameOut(k, c, o, o2)
    requires if o.Normal? then SameOut(k, c, l, Exec(c, rest, o2.s)) else l == o
    ensures SameOut(k, c, l, Then(c, o2, rest))
  {
  }

  function Count(l: Counting): nat
    requires Directed(l.cmp, l.step)
  {
    Trips(l.start, l.cmp, l.bound, l.step)
  }

  /** From `v` on the counter takes exactly these values. */
  predicate Chain(l: Counting, v: int, vs: seq<int>)
    decreases |vs|
  {
    if vs == [] then !Continues(l.cmp, v, l.bound)
    else vs[0] == v && Continues(l.cmp, v, l.bound) && Chain(l, v + l.step, vs[1..])
  }

  lemma {:induction false} ValuesChain(l: Counting, i: nat)
    requires Directed(l.cmp, l.step) && i <= Count(l)
    ensures Chain(l, Nth(l.start, l.step, i), Values(l.start, l.step, Count(l))[i..])
    decreases Count(l) - i
  {
    var vs := Values(l.start, l.step, Count(l));
    TripsExact(l.start, l.cmp, l.bound, l.step, i);
    if i < Count(l) {
      NthNext(l.start, l.step, i);
      ValuesChain(l, i + 1);
      assert vs[i..][0] == vs[i] && vs[i..][1..] == vs[i + 1..];
    }
  }

  /** For those values, the loop does what the copies do. */
  ghost predicate Covers(r: Reading, c: Ctx, st: Stmt, vs: seq<int>, s: State, n: nat)
    requires st.While? || st.For?
  {
    var k := Around(r.l.x, Facts(r));
    SameOut(k, c, Loop(c, st, s, n), Exec(c, Copies(r.l.body, r.l.x, vs, true), Hide(k, s)))
  }

  lemma NoMoreCopies(r: Reading, c: Ctx, st: Stmt, v: int, s: State, n: nat)
    requires Shape(st, r) && Sound(r, c) && Chain(r.l, v, [])
    requires Knows(During(r.l.x, v, Facts(r)), c, s)
    ensures Covers(r, c, st, [], s, n)
  {
    TestAt(r, c, v, s);
    assert Loop(c, st, s, n) == Normal(s);
    KnowsLess(r.l.x, v, Facts(r), c, Normal(s), Normal(Hide(Around(r.l.x, Facts(r)), s)));
  }

  function Next(r: Reading, v: int, s: State): State {
    Put(s, r.l.x, Int(v + r.l.step))
  }

  /** `o`, one run of the body, is what one copy does, and the loop goes on from there. */
  ghost predicate Turned(r: Reading, c: Ctx, st: Stmt, v: int, o: Out, s: State, n: nat)
    requires (st.While? || st.For?) && n > 0
  {
    var k := Around(r.l.x, Facts(r));
    var o2 := Exec(c, PutList(r.l.body, r.l.x, Literal(v)), Hide(k, s));
    && SameOut(k, c, o, o2)
    && Loop(c, st, s, n) == (if o.Normal? then Loop(c, st, Next(r, v, o.s), n - 1) else o)
    && (o.Normal? ==> Hide(k, Next(r, v, o.s)) == o2.s)
  }

  /** One turn of the loop against one copy. */
  lemma Turn(r: Reading, c: Ctx, st: Stmt, v: int, s: State, n: nat)
    requires Shape(st, r) && Sound(r, c) && Continues(r.l.cmp, v, r.l.bound) && n > 0
    requires Knows(During(r.l.x, v, Facts(r)), c, s)
    ensures Turned(r, c, st, v, Exec(c, r.l.body, s), s, n)
  {
    CopySame(r, c, v, s);
    LoopOnce(r, c, st, v, s, n);
    var o := Exec(c, r.l.body, s);
    if o.Normal? {
      AfterCopy(r, c, v, o.s);
    }
  }

  lemma TurnKnows(r: Reading, c: Ctx, v: int, s: State)
    requires Sound(r, c) && Knows(During(r.l.x, v, Facts(r)), c, s)
    ensures var o := Exec(c, r.l.body, s);
            o.Normal? ==> Knows(During(r.l.x, v + r.l.step, Facts(r)), c, Next(r, v, o.s))
  {
    CopySame(r, c, v, s);
    var o := Exec(c, r.l.body, s);
    if o.Normal? {
      AfterCopy(r, c, v, o.s);
    }
  }

  lemma AfterCopy(r: Reading, c: Ctx, v: int, s: State)
    requires Sound(r, c) && Knows(During(r.l.x, v, Facts(r)), c, s)
    ensures Eval(c, r.inc, s).Val? && Eval(c, r.inc, s).s == Next(r, v, s)
    ensures Knows(During(r.l.x, v + r.l.step, Facts(r)), c, Next(r, v, s))
    ensures Hide(Around(r.l.x, Facts(r)), Next(r, v, s)) == Hide(Around(r.l.x, Facts(r)), s)
  {
    StepAt(r, c, v, s);
    NextKnown(r.l.x, v, v + r.l.step, Facts(r), c, s);
  }

  lemma {:induction false} IterationsSame(r: Reading, c: Ctx, st: Stmt, v: int, vs: seq<int>, s: State, n: nat)
    requires Shape(st, r) && Sound(r, c) && Chain(r.l, v, vs) && |vs| <= n
    requires Knows(During(r.l.x, v, Facts(r)), c, s)
    ensures Covers(r, c, st, vs, s, n)
    decreases |vs|
  {
    if vs == [] {
      NoMoreCopies(r, c, st, v, s, n);
    } else {
      TurnKnows(r, c, v, s);
      var o := Exec(c, r.l.body, s);
      if o.Normal? {
        IterationsSame(r, c, st, v + r.l.step, vs[1..], Next(r, v, o.s), n - 1);
      }
      OneMoreCopy(r, c, st, v, vs[1..], s, n);
      assert [v] + vs[1..] == vs;
    }
  }

  lemma OneMoreCopy(r: Reading, c: Ctx, st: Stmt, v: int, rest: seq<int>, s: State, n: nat)
    requires Shape(st, r) && Sound(r, c) && Continues(r.l.cmp, v, r.l.bound) && n > 0
    requires Knows(During(r.l.x, v, Facts(r)), c, s)
    requires var o := Exec(c, r.l.body, s); o.Normal? ==> Covers(r, c, st, rest, Next(r, v, o.s), n - 1)
    ensures Covers(r, c, st, [v] + rest, s, n)
  {
    var o := Exec(c, r.l.body, s);
    Turn(r, c, st, v, s, n);
    CopyJoins(r, c, st, v, rest, o, s, n);
  }

  lemma CopyJoins(r: Reading, c: Ctx, st: Stmt, v: int, rest: seq<int>, o: Out, s: State, n: nat)
    requires (st.While? || st.For?) && n > 0 && Turned(r, c, st, v, o, s, n)
    requires o.Normal? ==> Covers(r, c, st, rest, Next(r, v, o.s), n - 1)
    ensures Covers(r, c, st, [v] + rest, s, n)
  {
    var k := Around(r.l.x, Facts(r));
    var copy, copies := PutList(r.l.body, r.l.x, Literal(v)), Copies(r.l.body, r.l.x, rest, true);
    ExecAppend(c, copy, copies, Hide(k, s));
    assert ([v] + rest)[1..] == rest;
    TurnSame(k, c, o, Exec(c, copy, Hide(k, s)), Loop(c, st, s, n), copies);
  }

  /** One copy does what the body does while the counter has that value. */
  lemma CopySame(r: Reading, c: Ctx, v: int, s: State)
    requires Sound(r, c) && Knows(During(r.l.x, v, Facts(r)), c, s)
    ensures var x := r.l.x;
            var o, o2 := Exec(c, r.l.body, s), Exec(c, PutList(r.l.body, x, Literal(v)), Hide(Around(x, Facts(r)), s));
            SameOut(During(x, v, Facts(r)), c, o, o2) && SameOut(Around(x, Facts(r)), c, o, o2)
  {
    var x, kv := r.l.x, During(r.l.x, v, Facts(r));
    assert kv.known == kv.known[x := v];
    PutListRefines(kv, r.l.body, x, v);
    ListSame(kv, c, r.l.body, PutList(r.l.body, x, Literal(v)), s);
    KnowsLess(x, v, Facts(r), c, Exec(c, r.l.body, s), Exec(c, PutList(r.l.body, x, Literal(v)), Hide(kv, s)));
  }

  lemma NthNext(start: int, step: int, i: nat)
    ensures Nth(start, step, i + 1) == Nth(start, step, i) + step
    ensures Nth(start, step, 0) == start
  {
  }

  // ----- whole loops -----

  /** The values survive being written as the counter was spelled. */
  predicate Exact(l: Counting, big: bool)
    requires Directed(l.cmp, l.step)
  {
    big || forall v | v in Values(l.start, l.step, Count(l)) :: ToDouble(v) == v
  }

  /** At the loop, the file's constants mean what they say. */
  ghost predicate AtLoop(r: Reading, c: Ctx, s: State) {
    && Sound(r, c)
    && (forall y | y in Facts(r) :: Lookup(c, s, y) == Some(Int(r.consts[y])))
    && c.limit >= MAX_UNROLL_ITERATIONS
  }

  /** The loop from its first value on, against all the copies. */
  lemma LoopSameAsCopies(r: Reading, c: Ctx, st: Stmt, big: bool, s: State)
    requires Shape(st, r) && AtLoop(r, c, s) && Exact(r.l, big)
    requires UnrollRead(Some(r.l), big, r.shadowed).Some?
    ensures var k := Around(r.l.x, Facts(r));
            && Knows(k, c, s)
            && SameOut(k, c, Loop(c, st, Put(s, r.l.x, Int(r.l.start)), c.limit),
                       Exec(c, UnrollRead(Some(r.l), big, r.shadowed).value, Hide(k, s)))
  {
    var x, k := r.l.x, Around(r.l.x, Facts(r));
    var vs := Values(r.l.start, r.l.step, Count(r.l));
    var s1 := Put(s, x, Int(r.l.start));
    CopiesExact(r.l.body, x, vs, big);
    NthNext(r.l.start, r.l.step, 0);
    ValuesChain(r.l, 0);
    assert vs[0..] == vs;
    EnterKnown(x, r.l.start, Facts(r), c, s);
    IterationsSame(r, c, st, r.l.start, vs, s1, c.limit);
  }

  lemma EnterKnown(x: Name, v: int, facts: Consts, c: Ctx, s: State)
    requires forall y | y in facts :: Lookup(c, s, y) == Some(Int(facts[y]))
    ensures Knows(During(x, v, facts), c, Put(s, x, Int(v))) && Knows(Around(x, facts), c, s)
    ensures Hide(Around(x, facts), Put(s, x, Int(v))) == Hide(Around(x, facts), s)
  {
    var k, t := During(x, v, facts), Put(s, x, Int(v));
    assert forall y | y in facts && y != x :: Lookup(c, t, y) == Lookup(c, s, y);
    assert t.vars - {x} == s.vars - {x};
  }

  lemma StartAt(r: Reading, c: Ctx, d: Stmt, e: Expr, s: State)
    requires AtLoop(r, c, s) && CounterOf([d]) == Some((r.l.x, e))
    requires EvalConst(e, r.consts, r.funcs, r.shadowed) == Some(r.l.start)
    requires Uncaptured(c, r.consts, r.funcs, r.shadowed, Callees(e))
    ensures ExecStmt(c, d, s) == Normal(Put(s, r.l.x, Int(r.l.start)))
  {
    ConstSound(c, e, r.consts, r.funcs, r.shadowed, s);
    assert d.ds[1..] == [];
    assert ExecLets(c, [], Put(s, r.l.x, Int(r.l.start))) == Normal(Put(s, r.l.x, Int(r.l.start)));
  }

  /** The copies do not care what the counter's name holds around them, and leave it alone. */
  lemma CopiesApart(r: Reading, c: Ctx, vs: seq<int>, s: State)
    requires Sound(r, c) && Knows(Around(r.l.x, Facts(r)), c, s)
    ensures var k, out := Around(r.l.x, Facts(r)), Copies(r.l.body, r.l.x, vs, true);
            SameOut(k, c, Exec(c, out, s), Exec(c, out, Hide(k, s))) && OutKept(s, Exec(c, out, s), r.l.x)
  {
    var k, out := Around(r.l.x, Facts(r)), Copies(r.l.body, r.l.x, vs, true);
    CopiesNames(r.l.body, r.l.x, vs);
    ListUnmentioned(k, out);
    ListSame(k, c, out, out, s);
    ListKeeps(c, out, s, r.l.x);
  }

  lemma AllKept(s: State, t: State)
    requires forall y :: Kept(s, t, y)
    ensures s.vars == t.vars
  {
    forall y
      ensures y in s.vars <==> y in t.vars
      ensures y in s.vars ==> s.vars[y] == t.vars[y]
    {
      assert Kept(s, t, y);
    }
    assert s.vars.Keys == t.vars.Keys;
  }

  lemma BackOutside(x: Name, own: set<Name>, facts: Consts, s: State, t: State, u: State)
    requires Hide(Around(x, facts), t) == Hide(Around(x, facts), u) && Kept(s, u, x) && x !in own
    ensures Outside({x} + own, s, t) == Outside(own, s, u)
  {
    var k := Around(x, facts);
    assert Hide(k, t).heap == t.heap && Hide(k, u).heap == u.heap;
    assert Hide(k, t).count == t.count && Hide(k, u).count == u.count;
    assert t == u.(vars := t.vars);
    var w, w2 := Outside({x} + own, s, t), Outside(own, s, u);
    forall y
      ensures Kept(w, w2, y)
    {
      if y != x {
        assert y in t.vars - {x} <==> y in u.vars - {x};
        assert y in t.vars - {x} ==> (t.vars - {x})[y] == (u.vars - {x})[y];
      }
    }
    AllKept(w, w2);
  }

  lemma {:induction false} BlocksDeclared(ss: seq<Stmt>, x: Name)
    requires !Blocks(ss, x)
    ensures x !in Declared(ss)
  {
    if ss != [] {
      BlocksDeclared(ss[1..], x);
      match ss[0]
      case If(_, t, f) => BlocksDeclared(t, x); BlocksDeclared(f, x);
      case While(_, body) => BlocksDeclared(body, x);
      case _ =>
    }
  }

  lemma OneDeclared(ss: seq<Stmt>, x: Name, e: Expr)
    requires CounterOf(ss) == Some((x, e))
    ensures Declared(ss) == {x}
  {
    assert ss[1..] == [] && ss[0].ds[1..] == [];
    assert DeclNames(ss[0].ds) == {x} + DeclNames([]);
    assert Declared(ss) == StmtDeclared(ss[0]) + Declared([]);
  }

  /** Unrolling a `for`: the copies end exactly as the loop does, in the same state but for
      the names its body declares, which the loop takes away with it. */
  lemma UnrollForSame(r: Reading, c: Ctx, st: Stmt, big: bool, s: State)
    requires st.For? && Some(r.l) == ReadLoop(st.init, st.test, st.step, st.body, r.consts, r.funcs, r.shadowed)
    requires UnrollFor(st, big, r.consts, r.funcs, r.shadowed).Some?
    requires st.test == Some(Bin(r.l.cmp, Var(r.l.x), r.b)) && st.step == Some(r.inc)
    requires AtLoop(r, c, s) && Exact(r.l, big)
    requires Uncaptured(c, r.consts, r.funcs, r.shadowed, Callees(CounterOf(st.init).value.1))
    ensures var o := Exec(c, UnrollFor(st, big, r.consts, r.funcs, r.shadowed).value, s);
            ExecStmt(c, st, s) == Close(Declared(st.body), s, o)
  {
    var x, e := r.l.x, CounterOf(st.init).value.1;
    var k, out := Around(x, Facts(r)), UnrollFor(st, big, r.consts, r.funcs, r.shadowed).value;
    LoopSameAsCopies(r, c, st, big, s);
    StartAt(r, c, st.init[0], e, s);
    var s1 := Put(s, x, Int(r.l.start));
    assert st.init == [st.init[0]] && st.init[1..] == [];
    assert Exec(c, st.init, s) == Normal(s1);
    OneDeclared(st.init, x, e);
    var vs := Values(r.l.start, r.l.step, Count(r.l));
    CopiesExact(r.l.body, x, vs, big);
    CopiesApart(r, c, vs, s);
    var l, o := Loop(c, st, s1, c.limit), Exec(c, out, s);
    LoopNoJumps(c, st, x, s1, c.limit);
    BlocksDeclared(st.body, x);
    if o.Normal? {
      BackOutside(x, Declared(st.body), Facts(r), s, l.s, o.s);
    }
  }

  /** Unrolling a `while`: the declaration, the loop and what follows end as the copies and
      what follows do, in the same state but for the counter, which is gone. */
  lemma UnrollWhileSame(r: Reading, c: Ctx, prev: Stmt, st: Stmt, rest: seq<Stmt>, big: bool, s: State)
    requires st.While? && UnrollWhile(prev, st, rest, big, r.consts, r.funcs, r.shadowed).Some?
    requires var n := |st.body| - 1;
             && Some(r.l) == ReadLoop([prev], Some(st.c), Some(st.body[n].e), st.body[..n], r.consts, r.funcs, r.shadowed)
             && st.c == Bin(r.l.cmp, Var(r.l.x), r.b) && st.body[n].e == r.inc
    requires AtLoop(r, c, s) && Exact(r.l, big)
    requires Uncaptured(c, r.consts, r.funcs, r.shadowed, Callees(CounterOf([prev]).value.1))
    ensures var k := Around(r.l.x, map[]);
            var out := UnrollWhile(prev, st, rest, big, r.consts, r.funcs, r.shadowed).value;
            SameOut(k, c, Exec(c, [prev] + ([st] + rest), s), Exec(c, out + rest, Hide(k, s)))
  {
    var x, e := r.l.x, CounterOf([prev]).value.1;
    var k, k1 := Around(x, map[]), Around(x, Facts(r));
    var out := UnrollWhile(prev, st, rest, big, r.consts, r.funcs, r.shadowed).value;
    var s1 := Put(s, x, Int(r.l.start));
    assert st.body == r.l.body + [Do(r.inc)];
    LoopSameAsCopies(r, c, st, big, s);
    StartAt(r, c, prev, e, s);
    assert ([prev] + ([st] + rest))[1..] == [st] + rest && ([st] + rest)[1..] == rest;
    var l := Loop(c, st, s1, c.limit);
    var o := Exec(c, out, Hide(k1, s));
    assert Exec(c, [prev] + ([st] + rest), s) == Exec(c, [st] + rest, s1);
    assert ExecStmt(c, st, s1) == l;
    assert Exec(c, [st] + rest, s1) == Then(c, l, rest);
    ExecAppend(c, out, rest, Hide(k1, s));
    Forgetting(x, Facts(r), c, l, o);
    if l.Normal? {
      ListWritesMentioned(rest);
      ListUnmentioned(k, rest);
      ListSame(k, c, rest, rest, l.s);
    }
  }

  lemma Forgetting(x: Name, facts: Consts, c: Ctx, o: Out, o2: Out)
    requires SameOut(Around(x, facts), c, o, o2)
    ensures SameOut(Around(x, map[]), c, o, o2)
  {
    var k, k2 := Around(x, facts), Around(x, map[]);
    if o.Normal? || o.Broke? || o.Continued? || o.Returned? {
      assert Hide(k, o.s) == Hide(k2, o.s);
    }
  }

  /** So the unrolled loop is the loop exactly when it leaves the names its body declares as
      they were; a body that declares none, even inside an `if`, always does. */
  lemma UnrollForExactly(r: Reading, c: Ctx, st: Stmt, big: bool, s: State)
    requires st.For? && Some(r.l) == ReadLoop(st.init, st.test, st.step, st.body, r.consts, r.funcs, r.shadowed)
    requires UnrollFor(st, big, r.consts, r.funcs, r.shadowed).Some?
    requires st.test == Some(Bin(r.l.cmp, Var(r.l.x), r.b)) && st.step == Some(r.inc)
    requires AtLoop(r, c, s) && Exact(r.l, big)
    requires Uncaptured(c, r.consts, r.funcs, r.shadowed, Callees(CounterOf(st.init).value.1))
    ensures var o := Exec(c, UnrollFor(st, big, r.consts, r.funcs, r.shadowed).value, s);
            && (ExecStmt(c, st, s) == o <==> (o.Normal? ==> forall y | y in Declared(st.body) :: Kept(s, o.s, y)))
            && (Declared(st.body) == {} ==> ExecStmt(c, st, s) == o)
  {
    UnrollForSame(r, c, st, big, s);
    var out := UnrollFor(st, big, r.consts, r.funcs, r.shadowed).value;
    var o := Exec(c, out, s);
    CopiesStraight(r, c, st, big, s);
    if o.Normal? {
      OutsideSameIff(Declared(st.body), s, o.s);
    }
  }

  lemma CopiesStraight(r: Reading, c: Ctx, st: Stmt, big: bool, s: State)
    requires st.For? && Some(r.l) == ReadLoop(st.init, st.test, st.step, st.body, r.consts, r.funcs, r.shadowed)
    requires UnrollFor(st, big, r.consts, r.funcs, r.shadowed).Some?
    requires st.test == Some(Bin(r.l.cmp, Var(r.l.x), r.b)) && st.step == Some(r.inc)
    requires AtLoop(r, c, s) && Exact(r.l, big)
    requires Uncaptured(c, r.consts, r.funcs, r.shadowed, Callees(CounterOf(st.init).value.1))
    ensures Straight(Exec(c, UnrollFor(st, big, r.consts, r.funcs, r.shadowed).value, s))
  {
    var x, vs := r.l.x, Values(r.l.start, r.l.step, Count(r.l));
    LoopSameAsCopies(r, c, st, big, s);
    CopiesExact(r.l.body, x, vs, big);
    CopiesApart(r, c, vs, s);
    LoopNoJumps(c, st, x, Put(s, x, Int(r.l.start)), c.limit);
  }

  lemma OutsideSameIff(own: set<Name>, s: State, t: State)
    ensures Outside(own, s, t) == t <==> forall y | y in own :: Kept(s, t, y)
  {
    var w := Outside(own, s, t);
    assert forall y | y in own :: Kept(s, w, y);
    assert forall y | y !in own :: Kept(t, w, y);
    if forall y | y in own :: Kept(s, t, y) {
      forall y
        ensures Kept(t, w, y)
      {
        assert y in own || y !in own;
      }
      AllKept(t, w);
    }
  }
}
