/** What it takes for one piece of code to stand in for another: names with known values may
    be replaced by them, and names or arrays that only the original has may be left out. */
module TsRewrite {
  import opened Arith
  import opened TsLang
  import opened TsConst

  /** What is known at a point of the original.
      known, shadowed: values of names, except shadowed ones, that the code does not change;
      funcs, called: functions whose calls may be folded, and the calls considered;
      hidden: names only the original has; arrays: those of them that hold an array;
      held: what each such array holds; sites: the `new Array`s only the original has. */
  datatype Know = Know(
    known: Consts, shadowed: set<Name>, funcs: Funcs, called: set<Name>,
    hidden: set<Name>, arrays: map<Name, Loc>, held: map<Loc, seq<int>>, sites: set<nat>)

  /** The arrays made elsewhere than at the given `new Array`s. */
  function Outlying(heap: map<Loc, seq<int>>, sites: set<nat>): map<Loc, seq<int>> {
    heap - set l | l in heap && l.site in sites
  }

  /** The state of the rewritten code, from the state of the original. */
  function Hide(k: Know, s: State): State {
    State(s.vars - k.hidden, Outlying(s.heap, k.sites), s.count - k.sites, s.shared, s.trace)
  }

  ghost predicate Visible(k: Know, v: Value) {
    v.Ref? ==> v.loc.site !in k.sites
  }

  /** No name but the hidden arrays' own leads to a hidden array. */
  ghost predicate Private(k: Know, vars: map<Name, Value>) {
    forall x | x in vars && x !in k.arrays :: Visible(k, vars[x])
  }

  ghost predicate Unshared(k: Know, shared: set<Loc>) {
    forall l | l in shared :: l.site !in k.sites
  }

  ghost predicate KnowsCode(k: Know, c: Ctx) {
    && Uncaptured(c, k.known, k.funcs, k.shadowed, k.called)
    && k.arrays.Keys <= k.hidden
    && (forall a | a in k.arrays :: k.arrays[a] in k.held)
    && (forall l | l in k.held :: l.site in k.sites)
  }

  ghost predicate Knows(k: Know, c: Ctx, s: State) {
    && KnowsCode(k, c)
    && (forall x | x in k.known && x !in k.shadowed :: Lookup(c, s, x) == Some(Int(k.known[x])))
    && (forall a | a in k.arrays :: a in s.vars && s.vars[a] == Ref(k.arrays[a]))
    && (forall l | l in k.held :: l in s.heap && s.heap[l] == k.held[l])
    && Private(k, s.vars)
    && Unshared(k, s.shared)
  }

  // ----- the rewriting rules -----

  function Constant(k: Know, e: Expr): Option<int> {
    if Callees(e) <= k.called then EvalConst(e, k.known, k.funcs, k.shadowed) else None
  }

  /** An element of a hidden array, at an index known to be inside it. */
  function Element(k: Know, e: Expr): Option<int> {
    if e.Index? && e.base.Var? && e.base.x in k.arrays && k.arrays[e.base.x] in k.held then
      var elems := k.held[k.arrays[e.base.x]];
      match Constant(k, e.idx)
      case Some(i) => if 0 <= i < |elems| then Some(elems[i]) else None
      case None => None
    else None
  }

  predicate Writable(k: Know, x: Name) {
    x !in k.hidden && (x !in k.known || x in k.shadowed)
  }

  /** The rewritten expression is the value itself. */
  predicate Folded(k: Know, e: Expr, e2: Expr) {
    || (Constant(k, e).Some? && e2 == Literal(Constant(k, e).value))
    || (Element(k, e).Some? && e2 == Literal(Element(k, e).value))
  }

  predicate Refines(k: Know, e: Expr, e2: Expr)
    decreases e
  {
    || Folded(k, e, e2)
    || match e
       case Lit(_) => e2 == e
       case Var(x) => e2 == e && x !in k.hidden
       case Un(op, a) => e2.Un? && e2.uop == op && Refines(k, a, e2.e)
       case Bin(op, l, r) => e2.Bin? && e2.bop == op && Refines(k, l, e2.l) && Refines(k, r, e2.r)
       case Logic(isAnd, l, r) =>
         e2.Logic? && e2.isAnd == isAnd && Refines(k, l, e2.l) && Refines(k, r, e2.r)
       case Cond(b, t, f) =>
         || (Constant(k, b).Some? && Refines(k, if Constant(k, b).value != 0 then t else f, e2))
         || (e2.Cond? && Refines(k, b, e2.c) && Refines(k, t, e2.thn) && Refines(k, f, e2.els))
       case Call(f, args) => e2.Call? && e2.f == f && RefinesAll(k, args, e2.args)
       case Index(b, i) => e2.Index? && Refines(k, b, e2.base) && Refines(k, i, e2.idx)
       case NewArr(site, n) => e2.NewArr? && e2.site == site && site !in k.sites && Refines(k, n, e2.size)
       case ArrayLit(es) => e2.ArrayLit? && RefinesAll(k, es, e2.es)
       case Assign(x, op, r) =>
         e2.Assign? && e2.x == x && e2.aop == op && Writable(k, x) && Refines(k, r, e2.rhs)
       case SetAt(b, i, op, r) =>
         && e2.SetAt? && e2.aop == op
         && Refines(k, b, e2.base) && Refines(k, i, e2.idx) && Refines(k, r, e2.rhs)
       case Update(x, _, _) => e2 == e && Writable(k, x)
  }

  predicate RefinesAll(k: Know, es: seq<Expr>, es2: seq<Expr>)
    decreases es
  {
    if es == [] then es2 == []
    else es2 != [] && Refines(k, es[0], es2[0]) && RefinesAll(k, es[1..], es2[1..])
  }

  // ----- expressions -----

  ghost predicate Same(k: Know, c: Ctx, r: Res, r2: Res) {
    match r
    case Fault => r2 == Fault
    case Val(v, s) => r2 == Val(v, Hide(k, s)) && Visible(k, v) && Knows(k, c, s)
  }

  ghost predicate SameAll(k: Know, c: Ctx, r: ArgsRes, r2: ArgsRes) {
    match r
    case ArgsFault => r2 == ArgsFault
    case Vals(vs, s) => r2 == Vals(vs, Hide(k, s)) && (forall v | v in vs :: Visible(k, v)) && Knows(k, c, s)
  }

  lemma LiteralValue(c: Ctx, v: int, s: State)
    ensures Eval(c, Literal(v), s) == Val(Int(v), s)
  {
    if v < 0 {
      assert Eval(c, Lit(-v), s) == Val(Int(-v), s);
    }
  }

  lemma ConstantSame(k: Know, c: Ctx, e: Expr, s: State)
    requires Knows(k, c, s) && Constant(k, e).Some?
    ensures Eval(c, e, s) == Val(Int(Constant(k, e).value), s)
  {
    ConstSound(c, e, k.known, k.funcs, k.shadowed, s);
  }

  lemma ElementSame(k: Know, c: Ctx, e: Expr, s: State)
    requires Knows(k, c, s) && Element(k, e).Some?
    ensures Eval(c, e, s) == Val(Int(Element(k, e).value), s)
  {
    ConstantSame(k, c, e.idx, s);
    assert Eval(c, e.base, s) == Val(s.vars[e.base.x], s);
  }

  lemma LookupSame(k: Know, c: Ctx, x: Name, s: State)
    requires Knows(k, c, s) && x !in k.hidden
    ensures Lookup(c, s, x) == Lookup(c, Hide(k, s), x)
    ensures Lookup(c, s, x).Some? ==> Visible(k, Lookup(c, s, x).value)
  {
  }

  lemma PutSame(k: Know, c: Ctx, s: State, x: Name, v: Value)
    requires Knows(k, c, s) && Writable(k, x) && Visible(k, v)
    ensures Hide(k, Put(s, x, v)) == Put(Hide(k, s), x, v)
    ensures Knows(k, c, Put(s, x, v))
  {
    var t := Put(s, x, v);
    assert t.vars - k.hidden == (s.vars - k.hidden)[x := v];
  }

  lemma HeapKept(k: Know, c: Ctx, s: State, t: State)
    requires Knows(k, c, s) && t.vars == s.vars && Unshared(k, t.shared)
    requires forall l | l in k.held :: l in t.heap && t.heap[l] == s.heap[l]
    ensures Knows(k, c, t)
  {
    assert forall x :: Lookup(c, t, x) == Lookup(c, s, x);
  }

  lemma NewSame(k: Know, c: Ctx, site: nat, r: Res, r2: Res)
    requires Same(k, c, r, r2) && site !in k.sites
    ensures Same(k, c, NewRes(c, site, r), NewRes(c, site, r2))
  {
    if r.Val? && r.v.Int? && r.v.n >= 0 {
      var t := NewRes(c, site, r).s;
      var l := NewRes(c, site, r).v.loc;
      HeapKept(k, c, r.s, t);
      assert Outlying(t.heap, k.sites) == Outlying(r.s.heap, k.sites)[l := t.heap[l]];
      assert t.count - k.sites == (r.s.count - k.sites)[site := t.count[site]];
    }
  }

  lemma ContentsSame(k: Know, c: Ctx, v: Value, s: State)
    requires Visible(k, v)
    ensures Contents(v, s.heap) == Contents(v, Hide(k, s).heap)
  {
  }

  lemma SetSame(k: Know, c: Ctx, vb: Value, vi: Value, op: Option<BinOp>, s: State, r: Res, r2: Res)
    requires Visible(k, vb) && Same(k, c, r, r2)
    ensures Same(k, c, SetRes(vb, vi, op, s, r), SetRes(vb, vi, op, Hide(k, s), r2))
  {
    ContentsSame(k, c, vb, s);
    var w := SetRes(vb, vi, op, s, r);
    if w.Val? {
      HeapKept(k, c, r.s, w.s);
      assert Outlying(w.s.heap, k.sites) == Outlying(r.s.heap, k.sites)[vb.loc := w.s.heap[vb.loc]];
    }
  }

  lemma TouchedOutlying(world: World, trace: seq<Event>, heap: map<Loc, seq<int>>, shared: set<Loc>, sites: set<nat>)
    requires forall l | l in shared :: l.site !in sites
    ensures Outlying(Touched(world, trace, heap, shared), sites) == Touched(world, trace, Outlying(heap, sites), shared)
    ensures Only(heap, shared) == Only(Outlying(heap, sites), shared)
  {
  }

  lemma AskSame(k: Know, c: Ctx, f: Name, vs: seq<Value>, s: State)
    requires Knows(k, c, s) && (forall v | v in vs :: Visible(k, v))
    ensures Same(k, c, Ask(c, f, vs, s), Ask(c, f, vs, Hide(k, s)))
  {
    var shared := s.shared + Refs(vs);
    assert Unshared(k, shared);
    var trace := s.trace + [Event(f, vs, Only(s.heap, shared))];
    TouchedOutlying(c.world, trace, s.heap, shared, k.sites);
    var heap := Touched(c.world, trace, s.heap, shared);
    HeapKept(k, c, s, s.(heap := heap, shared := shared, trace := trace));
  }

  lemma IndexSame(k: Know, c: Ctx, vb: Value, r: Res, r2: Res)
    requires Visible(k, vb) && Same(k, c, r, r2)
    ensures Same(k, c, IndexRes(vb, r), IndexRes(vb, r2))
  {
    if r.Val? {
      ContentsSame(k, c, vb, r.s);
    }
  }

  lemma AssignSame(k: Know, c: Ctx, x: Name, op: Option<BinOp>, v0: Value, r: Res, r2: Res)
    requires Same(k, c, r, r2) && Writable(k, x)
    ensures Same(k, c, AssignRes(x, op, v0, r), AssignRes(x, op, v0, r2))
  {
    var w := AssignRes(x, op, v0, r);
    if w.Val? {
      PutSame(k, c, r.s, x, w.v);
    }
  }

  lemma FoldedSame(k: Know, c: Ctx, e: Expr, e2: Expr, s: State)
    requires Knows(k, c, s) && Folded(k, e, e2)
    ensures Same(k, c, Eval(c, e, s), Eval(c, e2, Hide(k, s)))
  {
    if Constant(k, e).Some? && e2 == Literal(Constant(k, e).value) {
      ConstantSame(k, c, e, s);
      LiteralValue(c, Constant(k, e).value, Hide(k, s));
    } else {
      ElementSame(k, c, e, s);
      LiteralValue(c, Element(k, e).value, Hide(k, s));
    }
  }

  lemma {:induction false} Simulates(k: Know, c: Ctx, e: Expr, e2: Expr, s: State)
    requires Knows(k, c, s) && Refines(k, e, e2)
    ensures Same(k, c, Eval(c, e, s), Eval(c, e2, Hide(k, s)))
    decreases Rank(e), 2, e
  {
    if Folded(k, e, e2) {
      FoldedSame(k, c, e, e2, s);
    } else {
      match e
      case Lit(_) =>
      case Var(x) => LookupSame(k, c, x, s);
      case Un(_, a) => Simulates(k, c, a, e2.e, s);
      case Bin(_, _, _) => BinSame(k, c, e, e2, s);
      case Logic(_, _, _) => LogicSame(k, c, e, e2, s);
      case Cond(_, _, _) => CondSame(k, c, e, e2, s);
      case Call(_, _) => CallSame(k, c, e, e2, s);
      case Index(_, _) => IndexAtSame(k, c, e, e2, s);
      case NewArr(site, n) =>
        Simulates(k, c, n, e2.size, s);
        NewSame(k, c, site, Eval(c, n, s), Eval(c, e2.size, Hide(k, s)));
      case ArrayLit(es) => SimulatesAll(k, c, es, e2.es, s);
      case Assign(_, _, _) => AssignAtSame(k, c, e, e2, s);
      case SetAt(_, _, _, _) => SetAtSame(k, c, e, e2, s);
      case Update(_, _, _) => UpdateSame(k, c, e, s);
    }
  }

  lemma {:induction false} BinSame(k: Know, c: Ctx, e: Expr, e2: Expr, s: State)
    requires Knows(k, c, s) && Refines(k, e, e2) && e.Bin? && !Folded(k, e, e2)
    ensures Same(k, c, Eval(c, e, s), Eval(c, e2, Hide(k, s)))
    decreases Rank(e), 2, e, 0
  {
    Simulates(k, c, e.l, e2.l, s);
    var w := Eval(c, e.l, s);
    if w.Val? {
      Simulates(k, c, e.r, e2.r, w.s);
    }
  }

  lemma {:induction false} LogicSame(k: Know, c: Ctx, e: Expr, e2: Expr, s: State)
    requires Knows(k, c, s) && Refines(k, e, e2) && e.Logic? && !Folded(k, e, e2)
    ensures Same(k, c, Eval(c, e, s), Eval(c, e2, Hide(k, s)))
    decreases Rank(e), 2, e, 0
  {
    Simulates(k, c, e.l, e2.l, s);
    var w := Eval(c, e.l, s);
    if w.Val? && w.v.Int? && e.isAnd != (w.v.n == 0) {
      Simulates(k, c, e.r, e2.r, w.s);
      TruthSame(k, c, Eval(c, e.r, w.s), Eval(c, e2.r, Hide(k, w.s)));
    }
  }

  lemma TruthSame(k: Know, c: Ctx, r: Res, r2: Res)
    requires Same(k, c, r, r2)
    ensures Same(k, c, TruthRes(r), TruthRes(r2))
  {
  }

  lemma {:induction false} CallSame(k: Know, c: Ctx, e: Expr, e2: Expr, s: State)
    requires Knows(k, c, s) && Refines(k, e, e2) && e.Call? && !Folded(k, e, e2)
    ensures Same(k, c, Eval(c, e, s), Eval(c, e2, Hide(k, s)))
    decreases Rank(e), 2, e, 0
  {
    SimulatesAll(k, c, e.args, e2.args, s);
    var w := EvalAll(c, e.args, s);
    if w.Vals? {
      if e.f in c.funcs && Foldable(c.funcs[e.f]) {
        InvokeSame(k, c, c.funcs[e.f], w.vs, w.s);
      } else {
        AskSame(k, c, e.f, w.vs, w.s);
      }
    }
  }

  lemma {:induction false} IndexAtSame(k: Know, c: Ctx, e: Expr, e2: Expr, s: State)
    requires Knows(k, c, s) && Refines(k, e, e2) && e.Index? && !Folded(k, e, e2)
    ensures Same(k, c, Eval(c, e, s), Eval(c, e2, Hide(k, s)))
    decreases Rank(e), 2, e, 0
  {
    Simulates(k, c, e.base, e2.base, s);
    var w := Eval(c, e.base, s);
    if w.Val? {
      Simulates(k, c, e.idx, e2.idx, w.s);
      IndexSame(k, c, w.v, Eval(c, e.idx, w.s), Eval(c, e2.idx, Hide(k, w.s)));
    }
  }

  lemma {:induction false} AssignAtSame(k: Know, c: Ctx, e: Expr, e2: Expr, s: State)
    requires Knows(k, c, s) && Refines(k, e, e2) && e.Assign? && !Folded(k, e, e2)
    ensures Same(k, c, Eval(c, e, s), Eval(c, e2, Hide(k, s)))
    decreases Rank(e), 2, e, 0
  {
    LookupSame(k, c, e.x, s);
    Simulates(k, c, e.rhs, e2.rhs, s);
    var v0 := Current(c, e.x, e.aop, s);
    if v0.Some? {
      AssignSame(k, c, e.x, e.aop, v0.value, Eval(c, e.rhs, s), Eval(c, e2.rhs, Hide(k, s)));
    }
  }

  lemma UpdateSame(k: Know, c: Ctx, e: Expr, s: State)
    requires Knows(k, c, s) && e.Update? && Writable(k, e.x)
    ensures Same(k, c, Eval(c, e, s), Eval(c, e, Hide(k, s)))
  {
    LookupSame(k, c, e.x, s);
    var v := Lookup(c, s, e.x);
    if v.Some? && v.value.Int? {
      PutSame(k, c, s, e.x, Int(if e.inc then v.value.n + 1 else v.value.n - 1));
    }
  }

  lemma {:induction false} CondSame(k: Know, c: Ctx, e: Expr, e2: Expr, s: State)
    requires Knows(k, c, s) && Refines(k, e, e2) && e.Cond? && !Folded(k, e, e2)
    ensures Same(k, c, Eval(c, e, s), Eval(c, e2, Hide(k, s)))
    decreases Rank(e), 2, e, 1
  {
    if Constant(k, e.c).Some? && Refines(k, if Constant(k, e.c).value != 0 then e.thn else e.els, e2) {
      ConstantSame(k, c, e.c, s);
      Simulates(k, c, if Constant(k, e.c).value != 0 then e.thn else e.els, e2, s);
    } else {
      ArmsSame(k, c, e, e2, s);
    }
  }

  lemma {:induction false} ArmsSame(k: Know, c: Ctx, e: Expr, e2: Expr, s: State)
    requires Knows(k, c, s) && e.Cond? && e2.Cond?
    requires Refines(k, e.c, e2.c) && Refines(k, e.thn, e2.thn) && Refines(k, e.els, e2.els)
    ensures Same(k, c, Eval(c, e, s), Eval(c, e2, Hide(k, s)))
    decreases Rank(e), 2, e, 0
  {
    Simulates(k, c, e.c, e2.c, s);
    var w := Eval(c, e.c, s);
    if w.Val? && w.v.Int? {
      Simulates(k, c, if w.v.n != 0 then e.thn else e.els, if w.v.n != 0 then e2.thn else e2.els, w.s);
    }
  }

  lemma {:induction false} SetAtSame(k: Know, c: Ctx, e: Expr, e2: Expr, s: State)
    requires Knows(k, c, s) && Refines(k, e, e2) && e.SetAt? && !Folded(k, e, e2)
    ensures Same(k, c, Eval(c, e, s), Eval(c, e2, Hide(k, s)))
    decreases Rank(e), 2, e, 0
  {
    Simulates(k, c, e.base, e2.base, s);
    var wb := Eval(c, e.base, s);
    if wb.Val? {
      Simulates(k, c, e.idx, e2.idx, wb.s);
      var wi := Eval(c, e.idx, wb.s);
      if wi.Val? {
        Simulates(k, c, e.rhs, e2.rhs, wi.s);
        SetSame(k, c, wb.v, wi.v, e.aop, wi.s, Eval(c, e.rhs, wi.s), Eval(c, e2.rhs, Hide(k, wi.s)));
      }
    }
  }

  lemma {:induction false} SimulatesAll(k: Know, c: Ctx, es: seq<Expr>, es2: seq<Expr>, s: State)
    requires Knows(k, c, s) && RefinesAll(k, es, es2)
    ensures SameAll(k, c, EvalAll(c, es, s), EvalAll(c, es2, Hide(k, s)))
    decreases RankAll(es), 2, es
  {
    if es != [] {
      Simulates(k, c, es[0], es2[0], s);
      var w := Eval(c, es[0], s);
      if w.Val? {
        SimulatesAll(k, c, es[1..], es2[1..], w.s);
      }
    }
  }

  /** A called function sees none of its caller's names, hidden or not. */
  function Inside(k: Know): Know {
    Know(map[], {}, map[], {}, {}, map[], k.held, k.sites)
  }

  lemma {:induction false} InvokeSame(k: Know, c: Ctx, fn: Func, vs: seq<Value>, s: State)
    requires Knows(k, c, s) && Foldable(fn) && (forall v | v in vs :: Visible(k, v))
    ensures Same(k, c, Invoke(c, fn, vs, s), Invoke(c, fn, vs, Hide(k, s)))
    decreases 1, 1
  {
    var c1, k1, s0 := c.(locals := ParamNames(fn.params)), Inside(k), s.(vars := map[]);
    assert Hide(k, s).(vars := map[]) == Hide(k1, s0);
    BindSame(k1, c1, fn.params, vs, s0);
    var b := Bind(c1, fn.params, vs, s0);
    if b.Bound? {
      var e := fn.body[0].result.value;
      Unmentioned(k1, e);
      Simulates(k1, c1, e, e, b.s);
      var w := Eval(c1, e, b.s);
      if w.Val? {
        FrameBack(k, c, c1, s, w.s);
      }
    }
  }

  /** The caller's frame, put back after a callee that knew what may be known inside it. */
  lemma FrameBack(k: Know, c: Ctx, c1: Ctx, s: State, t: State)
    requires Knows(k, c, s) && Knows(Inside(k), c1, t)
    ensures Hide(k, t.(vars := s.vars)) == Hide(Inside(k), t).(vars := Hide(k, s).vars)
    ensures Knows(k, c, t.(vars := s.vars))
  {
    HeapKept(k, c, s, t.(vars := s.vars));
  }

  lemma {:induction false} BindSame(k: Know, c: Ctx, ps: seq<Param>, vs: seq<Value>, s: State)
    requires CallFree(ps) && Knows(k, c, s) && k == Inside(k) && (forall v | v in vs :: Visible(k, v))
    ensures var b, b2 := Bind(c, ps, vs, s), Bind(c, ps, vs, Hide(k, s));
            match b
            case Unbound => b2 == Unbound
            case Bound(t) => b2 == Bound(Hide(k, t)) && Knows(k, c, t)
    decreases 0, 3, ps
  {
    if ps != [] {
      if vs != [] {
        PutSame(k, c, s, ps[0].x, vs[0]);
        BindSame(k, c, ps[1..], vs[1..], Put(s, ps[0].x, vs[0]));
      } else if ps[0].default.Some? {
        assert ps decreases to ps[0];
        var d := ps[0].default.value;
        Unmentioned(k, d);
        Simulates(k, c, d, d, s);
        var w := Eval(c, d, s);
        if w.Val? {
          PutSame(k, c, w.s, ps[0].x, w.v);
          BindSame(k, c, ps[1..], [], Put(w.s, ps[0].x, w.v));
        }
      }
    }
  }

  // ----- code that touches nothing hidden -----

  function SitesOf(e: Expr): set<nat> {
    match e
    case Lit(_) => {}
    case Var(_) => {}
    case Un(_, a) => SitesOf(a)
    case Bin(_, l, r) => SitesOf(l) + SitesOf(r)
    case Logic(_, l, r) => SitesOf(l) + SitesOf(r)
    case Cond(b, t, f) => SitesOf(b) + SitesOf(t) + SitesOf(f)
    case Call(_, args) => SitesOfAll(args)
    case Index(b, i) => SitesOf(b) + SitesOf(i)
    case NewArr(site, n) => {site} + SitesOf(n)
    case ArrayLit(es) => SitesOfAll(es)
    case Assign(_, _, r) => SitesOf(r)
    case SetAt(b, i, _, r) => SitesOf(b) + SitesOf(i) + SitesOf(r)
    case Update(_, _, _) => {}
  }

  function SitesOfAll(es: seq<Expr>): set<nat> {
    if es == [] then {} else SitesOf(es[0]) + SitesOfAll(es[1..])
  }

  ghost predicate Clear(k: Know, names: set<Name>, written: set<Name>) {
    names !! k.hidden && (forall x | x in written :: Writable(k, x))
  }

  /** Such code may stay as it is. */
  lemma {:induction false} Unmentioned(k: Know, e: Expr)
    requires Clear(k, Mentions(e), Writes(e)) && (HasCall(e) ==> SitesOf(e) !! k.sites)
    ensures Refines(k, e, e)
  {
    match e
    case Un(_, a) => Unmentioned(k, a);
    case Bin(_, l, r) => Unmentioned(k, l); Unmentioned(k, r);
    case Logic(_, l, r) => Unmentioned(k, l); Unmentioned(k, r);
    case Cond(b, t, f) => Unmentioned(k, b); Unmentioned(k, t); Unmentioned(k, f);
    case Call(_, args) => UnmentionedAll(k, args);
    case Index(b, i) => Unmentioned(k, b); Unmentioned(k, i);
    case NewArr(_, n) => Unmentioned(k, n);
    case ArrayLit(es) => UnmentionedAll(k, es);
    case Assign(_, _, r) => Unmentioned(k, r);
    case SetAt(b, i, _, r) => Unmentioned(k, b); Unmentioned(k, i); Unmentioned(k, r);
    case _ =>
  }

  lemma {:induction false} UnmentionedAll(k: Know, es: seq<Expr>)
    requires Clear(k, MentionsAll(es), WritesAll(es)) && (AnyCall(es) ==> SitesOfAll(es) !! k.sites)
    ensures RefinesAll(k, es, es)
  {
    if es != [] {
      Unmentioned(k, es[0]);
      UnmentionedAll(k, es[1..]);
    }
  }
}
