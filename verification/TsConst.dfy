/** The constant evaluator: the value of an expression known from constants alone, with
    calls to single-return functions folded. */
module TsConst {
  import opened Arith
  import opened TsLang

  type Consts = map<Name, int>
  type Funcs = map<Name, Func>

  function EvalConst(e: Expr, consts: Consts, funcs: Funcs, shadowed: set<Name>): Option<int>
    decreases Rank(e), 2, e
  {
    match e
    case Lit(n) => Some(n)
    case Var(x) => if x !in shadowed && x in consts then Some(consts[x]) else None
    case Un(op, a) =>
      (match EvalConst(a, consts, funcs, shadowed)
       case Some(v) => Some(Unary(op, v))
       case None => None)
    case Bin(op, l, r) =>
      (match (EvalConst(l, consts, funcs, shadowed), EvalConst(r, consts, funcs, shadowed))
       case (Some(a), Some(b)) => Binary(op, a, b)
       case _ => None)
    case Logic(isAnd, l, r) =>
      var a := EvalConst(l, consts, funcs, shadowed);
      if a.Some? && isAnd == (a.value == 0) then Some(Bool(!isAnd))
      else
        (match (a, EvalConst(r, consts, funcs, shadowed))
         case (Some(x), Some(y)) =>
           Some(Bool(if isAnd then x != 0 && y != 0 else x != 0 || y != 0))
         case _ => None)
    case Call(f, args) => EvalCall(f, args, consts, funcs, shadowed)
    case _ => None
  }

  function EvalCall(f: Name, args: seq<Expr>, consts: Consts, funcs: Funcs, shadowed: set<Name>): Option<int>
    decreases 1, 2, args, 1
  {
    if f in shadowed || f !in funcs || !Foldable(funcs[f]) || |args| > |funcs[f].params| then None
    else
      var fn := funcs[f];
      match ArgConsts(args, consts, funcs, shadowed)
      case None => None
      case Some(vs) =>
        match Overlay(fn.params, vs, funcs, consts - ParamNames(fn.params))
        case None => None
        case Some(o) => EvalConst(fn.body[0].result.value, o, funcs, {})
  }

  /** Arguments are read where the call stands. */
  function ArgConsts(args: seq<Expr>, consts: Consts, funcs: Funcs, shadowed: set<Name>): (r: Option<seq<int>>)
    ensures r.Some? ==> |r.value| == |args|
    decreases RankAll(args), 2, args, 0
  {
    if args == [] then Some([])
    else
      match (EvalConst(args[0], consts, funcs, shadowed), ArgConsts(args[1..], consts, funcs, shadowed))
      case (Some(v), Some(vs)) => Some([v] + vs)
      case _ => None
  }

  /** The callee's view: a parameter is unknown until its turn comes, so a default sees
      only the parameters before it. */
  function Overlay(ps: seq<Param>, vs: seq<int>, funcs: Funcs, o: Consts): Option<Consts>
    requires CallFree(ps)
    decreases 0, 3, ps
  {
    if ps == [] then Some(o)
    else if vs != [] then Overlay(ps[1..], vs[1..], funcs, o[ps[0].x := vs[0]])
    else
      match ps[0].default
      case None => None
      case Some(d) =>
        assert ps decreases to ps[0];
        match EvalConst(d, o, funcs, {})
        case None => None
        case Some(v) => Overlay(ps[1..], [], funcs, o[ps[0].x := v])
  }

  /** The call case as it runs: arguments and defaults in one pass over the parameters. */
  method FoldCall(f: Name, args: seq<Expr>, consts: Consts, funcs: Funcs, shadowed: set<Name>) returns (r: Option<int>)
    ensures r == EvalCall(f, args, consts, funcs, shadowed)
  {
    if f in shadowed || f !in funcs || !Foldable(funcs[f]) || |args| > |funcs[f].params| {
      return None;
    }
    var fn := funcs[f];
    var ps := fn.params;
    ghost var all := ArgConsts(args, consts, funcs, shadowed);
    var overlay := consts - ParamNames(ps);
    ghost var want := if all.Some? then Overlay(ps, all.value, funcs, overlay) else None;
    var i := 0;
    assert ps[0..] == ps && args[0..] == args;
    ArgsKnown(args, consts, funcs, shadowed);
    while i < |ps|
      invariant 0 <= i <= |ps| && CallFree(ps[i..])
      invariant forall j | 0 <= j < i && j < |args| :: EvalConst(args[j], consts, funcs, shadowed).Some?
      invariant all.Some? ==>
                  want == Overlay(ps[i..], if i < |args| then all.value[i..] else [], funcs, overlay)
    {
      assert ps[i..][0] == ps[i] && ps[i..][1..] == ps[i + 1..];
      var v: Option<int> := None;
      if i < |args| {
        v := EvalConst(args[i], consts, funcs, shadowed);
        assert all.Some? ==> all.value[i..][1..] == all.value[i + 1..];
      } else if ps[i].default.Some? {
        v := EvalConst(ps[i].default.value, overlay, funcs, {});
      }
      if v == None {
        return None;
      }
      overlay := overlay[ps[i].x := v.value];
      i := i + 1;
    }
    return EvalConst(fn.body[0].result.value, overlay, funcs, {});
  }

  lemma {:induction false} ArgsKnown(args: seq<Expr>, consts: Consts, funcs: Funcs, shadowed: set<Name>)
    ensures var all := ArgConsts(args, consts, funcs, shadowed);
            && (all.Some? <==> forall j | 0 <= j < |args| :: EvalConst(args[j], consts, funcs, shadowed).Some?)
            && (all.Some? ==> forall j | 0 <= j < |args| :: EvalConst(args[j], consts, funcs, shadowed) == Some(all.value[j]))
  {
    if args != [] {
      ArgsKnown(args[1..], consts, funcs, shadowed);
      assert forall j | 1 <= j < |args| :: args[j] == args[1..][j - 1];
      assert forall j | 0 <= j < |args| - 1 :: args[1..][j] == args[j + 1];
    }
  }

  // ----- soundness -----

  /** Where these names are read, the constants tell the truth. */
  ghost predicate Grounded(c: Ctx, s: State, consts: Consts, shadowed: set<Name>, names: set<Name>) {
    forall x | x in names && x in consts && x !in shadowed :: Lookup(c, s, x) == Some(Int(consts[x]))
  }

  function FreeNames(fn: Func): set<Name>
    requires Foldable(fn)
  {
    Mentions(fn.body[0].result.value) + DefaultNames(fn.params) - ParamNames(fn.params)
  }

  function DefaultNames(ps: seq<Param>): set<Name> {
    if ps == [] then {}
    else (if ps[0].default.Some? then Mentions(ps[0].default.value) else {}) + DefaultNames(ps[1..])
  }

  /** A free name of a called function means the same constant here as it does there. */
  ghost predicate Uncaptured(c: Ctx, consts: Consts, funcs: Funcs, shadowed: set<Name>, called: set<Name>) {
    forall f | f in called && f in funcs && f !in shadowed && Foldable(funcs[f]) ::
      && f in c.funcs && c.funcs[f] == funcs[f]
      && forall x | x in FreeNames(funcs[f]) && x in consts :: x in c.consts && c.consts[x] == consts[x]
  }

  /** A value the evaluator returns is the value the expression has, and evaluating it
      changes nothing. */
  lemma {:induction false} ConstSound(c: Ctx, e: Expr, consts: Consts, funcs: Funcs, shadowed: set<Name>, s: State)
    requires EvalConst(e, consts, funcs, shadowed).Some?
    requires Grounded(c, s, consts, shadowed, Mentions(e))
    requires Uncaptured(c, consts, funcs, shadowed, Callees(e))
    ensures Eval(c, e, s) == Val(Int(EvalConst(e, consts, funcs, shadowed).value), s)
    decreases Rank(e), 2, e, 1
  {
    match e
    case Un(_, a) => ConstSound(c, a, consts, funcs, shadowed, s);
    case Bin(_, l, r) =>
      ConstSound(c, l, consts, funcs, shadowed, s);
      ConstSound(c, r, consts, funcs, shadowed, s);
    case Logic(isAnd, l, r) =>
      var a := EvalConst(l, consts, funcs, shadowed);
      ConstSound(c, l, consts, funcs, shadowed, s);
      if isAnd != (a.value == 0) {
        ConstSound(c, r, consts, funcs, shadowed, s);
      }
    case Call(_, _) => ConstCallSound(c, e, consts, funcs, shadowed, s);
    case _ =>
  }

  lemma {:induction false} ConstCallSound(c: Ctx, e: Expr, consts: Consts, funcs: Funcs, shadowed: set<Name>, s: State)
    requires e.Call? && EvalConst(e, consts, funcs, shadowed).Some?
    requires Grounded(c, s, consts, shadowed, Mentions(e))
    requires Uncaptured(c, consts, funcs, shadowed, Callees(e))
    ensures Eval(c, e, s) == Val(Int(EvalConst(e, consts, funcs, shadowed).value), s)
    decreases Rank(e), 2, e, 0
  {
    var fn := funcs[e.f];
    var vs := ArgConsts(e.args, consts, funcs, shadowed).value;
    ArgsSound(c, e.args, consts, funcs, shadowed, s);
    InvokeSound(c, fn, vs, consts, funcs, s);
  }

  function AsInts(vs: seq<int>): (r: seq<Value>)
    ensures |r| == |vs| && forall i | 0 <= i < |vs| :: r[i] == Int(vs[i])
  {
    if vs == [] then [] else [Int(vs[0])] + AsInts(vs[1..])
  }

  lemma {:induction false} ArgsSound(c: Ctx, args: seq<Expr>, consts: Consts, funcs: Funcs, shadowed: set<Name>, s: State)
    requires ArgConsts(args, consts, funcs, shadowed).Some?
    requires Grounded(c, s, consts, shadowed, MentionsAll(args))
    requires Uncaptured(c, consts, funcs, shadowed, CalleesAll(args))
    ensures EvalAll(c, args, s) == Vals(AsInts(ArgConsts(args, consts, funcs, shadowed).value), s)
    decreases RankAll(args), 2, args
  {
    if args != [] {
      ConstSound(c, args[0], consts, funcs, shadowed, s);
      ArgsSound(c, args[1..], consts, funcs, shadowed, s);
      assert ArgConsts(args, consts, funcs, shadowed).value[1..] == ArgConsts(args[1..], consts, funcs, shadowed).value;
    }
  }

  /** The overlay is the callee's frame, as far as it is known. */
  ghost predicate Frames(c: Ctx, o: Consts, s: State, free: set<Name>) {
    && s.vars.Keys <= c.locals
    && (forall x | x in o && x in c.locals :: x in s.vars && s.vars[x] == Int(o[x]))
    && (forall x | x in o && x in free && x !in c.locals :: x in c.consts && c.consts[x] == o[x])
  }

  lemma {:induction false} InvokeSound(c: Ctx, fn: Func, vs: seq<int>, consts: Consts, funcs: Funcs, s: State)
    requires Foldable(fn)
    requires var o := Overlay(fn.params, vs, funcs, consts - ParamNames(fn.params));
             o.Some? && EvalConst(fn.body[0].result.value, o.value, funcs, {}).Some?
    requires forall x | x in FreeNames(fn) && x in consts :: x in c.consts && c.consts[x] == consts[x]
    ensures var o := Overlay(fn.params, vs, funcs, consts - ParamNames(fn.params)).value;
            Invoke(c, fn, AsInts(vs), s) == Val(Int(EvalConst(fn.body[0].result.value, o, funcs, {}).value), s)
    decreases 1, 1
  {
    var c1 := c.(locals := ParamNames(fn.params));
    var e := fn.body[0].result.value;
    var s1 := s.(vars := map[]);
    BindSound(c1, fn.params, vs, funcs, consts - ParamNames(fn.params), s1, FreeNames(fn));
    var o := Overlay(fn.params, vs, funcs, consts - ParamNames(fn.params)).value;
    var s2 := Bind(c1, fn.params, AsInts(vs), s1).s;
    NoCallees(e);
    ConstSound(c1, e, o, funcs, {}, s2);
    assert s2.(vars := s.vars) == s;
  }

  lemma FrameGrows(c: Ctx, o: Consts, s: State, free: set<Name>, x: Name, v: int)
    requires Frames(c, o, s, free) && x in c.locals
    ensures Frames(c, o[x := v], Put(s, x, Int(v)), free)
  {
  }

  lemma {:induction false} BindSound(c: Ctx, ps: seq<Param>, vs: seq<int>, funcs: Funcs, o: Consts, s: State, free: set<Name>)
    requires CallFree(ps) && Overlay(ps, vs, funcs, o).Some?
    requires ParamNames(ps) <= c.locals && DefaultNames(ps) <= free + c.locals
    requires Frames(c, o, s, free)
    ensures Bind(c, ps, AsInts(vs), s).Bound?
    ensures var s1 := Bind(c, ps, AsInts(vs), s).s;
            s1 == s.(vars := s1.vars) && Frames(c, Overlay(ps, vs, funcs, o).value, s1, free)
    decreases 0, 3, ps
  {
    if ps != [] {
      if vs != [] {
        assert AsInts(vs)[1..] == AsInts(vs[1..]);
        FrameGrows(c, o, s, free, ps[0].x, vs[0]);
        BindSound(c, ps[1..], vs[1..], funcs, o[ps[0].x := vs[0]], Put(s, ps[0].x, Int(vs[0])), free);
      } else {
        assert ps decreases to ps[0];
        var d := ps[0].default.value;
        NoCallees(d);
        ConstSound(c, d, o, funcs, {}, s);
        var v := EvalConst(d, o, funcs, {}).value;
        FrameGrows(c, o, s, free, ps[0].x, v);
        BindSound(c, ps[1..], [], funcs, o[ps[0].x := v], Put(s, ps[0].x, Int(v)), free);
      }
    }
  }

  lemma {:induction false} NoCallees(e: Expr)
    requires !HasCall(e)
    ensures Callees(e) == {}
  {
    match e
    case Un(_, a) => NoCallees(a);
    case Bin(_, l, r) => NoCallees(l); NoCallees(r);
    case Logic(_, l, r) => NoCallees(l); NoCallees(r);
    case Cond(b, t, f) => NoCallees(b); NoCallees(t); NoCallees(f);
    case Index(b, i) => NoCallees(b); NoCallees(i);
    case ArrayLit(es) => NoneCalled(es);
    case Assign(_, _, r) => NoCallees(r);
    case SetAt(b, i, _, r) => NoCallees(b); NoCallees(i); NoCallees(r);
    case _ =>
  }

  lemma {:induction false} NoneCalled(es: seq<Expr>)
    requires !AnyCall(es)
    ensures CalleesAll(es) == {}
  {
    if es != [] {
      NoCallees(es[0]);
      NoneCalled(es[1..]);
    }
  }
}
