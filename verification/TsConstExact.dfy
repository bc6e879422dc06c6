/** The constant evaluator from both sides: it returns a value exactly where evaluating from the
    constants alone gives one, and its operators obey the laws of arithmetic. */
module TsConstExact {
  import opened Arith
  import opened ArithLaws
  import opened TsLang
  import opened TsConst

  // ----- operators -----

  lemma LiteralKnown(v: int, consts: Consts, funcs: Funcs, shadowed: set<Name>)
    ensures EvalConst(Literal(v), consts, funcs, shadowed) == Some(v)
  {
  }

  /** Folding two literals is lawful arithmetic, whatever the operator. */
  lemma FoldsLawfully(consts: Consts, funcs: Funcs, shadowed: set<Name>)
    ensures Lawful((op: BinOp, a: int, b: int) => EvalConst(Bin(op, Literal(a), Literal(b)), consts, funcs, shadowed))
  {
    var f := (op: BinOp, a: int, b: int) => EvalConst(Bin(op, Literal(a), Literal(b)), consts, funcs, shadowed);
    forall op: BinOp, a: int, b: int
      ensures f(op, a, b) == Binary(op, a, b)
    {
      LiteralKnown(a, consts, funcs, shadowed);
      LiteralKnown(b, consts, funcs, shadowed);
    }
    BinaryIsLawful();
    LawfulAlike(Binary, f);
  }

  lemma FoldsUnaryLawfully(consts: Consts, funcs: Funcs, shadowed: set<Name>)
    ensures forall op, a :: EvalConst(Un(op, Literal(a)), consts, funcs, shadowed).Some?
    ensures UnaryLawful((op: UnOp, a: int) => OrZero(EvalConst(Un(op, Literal(a)), consts, funcs, shadowed)))
  {
    var f := (op: UnOp, a: int) => OrZero(EvalConst(Un(op, Literal(a)), consts, funcs, shadowed));
    UnaryIsLawful();
    forall op: UnOp, a: int
      ensures EvalConst(Un(op, Literal(a)), consts, funcs, shadowed) == Some(Unary(op, a)) && f(op, a) == Unary(op, a)
    {
      LiteralKnown(a, consts, funcs, shadowed);
    }
  }

  function OrZero(v: Option<int>): int {
    match v case Some(n) => n case None => 0
  }

  // ----- where it returns a value -----

  /** Nothing but literals, names, operators and calls, down to the bodies called. */
  predicate Simple(e: Expr, funcs: Funcs)
    decreases Rank(e), 2, e
  {
    match e
    case Lit(_) => true
    case Var(_) => true
    case Un(_, a) => Simple(a, funcs)
    case Bin(_, l, r) => Simple(l, funcs) && Simple(r, funcs)
    case Logic(_, l, r) => Simple(l, funcs) && Simple(r, funcs)
    case Call(f, args) =>
      && SimpleAll(args, funcs)
      && (f in funcs && Foldable(funcs[f]) ==>
            |args| <= |funcs[f].params| && SimpleBody(funcs[f], funcs))
    case _ => false
  }

  predicate SimpleAll(es: seq<Expr>, funcs: Funcs)
    decreases RankAll(es), 2, es
  {
    es == [] || (Simple(es[0], funcs) && SimpleAll(es[1..], funcs))
  }

  predicate SimpleBody(fn: Func, funcs: Funcs)
    requires Foldable(fn)
    decreases 1, 1
  {
    Simple(fn.body[0].result.value, funcs) && SimpleDefaults(fn.params, funcs)
  }

  predicate SimpleDefaults(ps: seq<Param>, funcs: Funcs)
    requires CallFree(ps)
    decreases 0, 3, ps
  {
    ps == [] ||
    (assert ps decreases to ps[0];
     (ps[0].default.Some? ==> Simple(ps[0].default.value, funcs)) && SimpleDefaults(ps[1..], funcs))
  }

  /** Reading a name gives its constant, and nothing if it has none. */
  ghost predicate Mirrors(c: Ctx, s: State, consts: Consts) {
    forall x :: Lookup(c, s, x) == if x in consts then Some(Int(consts[x])) else None
  }

  /** The file's constants and visible functions are the given ones, and nobody answers outside. */
  ghost predicate Alone(c: Ctx, consts: Consts, funcs: Funcs, shadowed: set<Name>) {
    c.consts == consts && c.funcs == funcs - shadowed && forall t :: c.world.reply(t) == NoReply
  }

  function ValueAt(v: Option<int>, s: State): Res {
    match v case Some(n) => Val(Int(n), s) case None => Fault
  }

  /** It returns a value exactly where evaluation does, and then that value: not only is no
      answer wrong, none is missing. */
  lemma {:induction false} ConstExact(c: Ctx, e: Expr, consts: Consts, funcs: Funcs, shadowed: set<Name>, s: State)
    requires Simple(e, funcs) && Mirrors(c, s, consts) && consts.Keys !! shadowed
    requires HasCall(e) ==> Alone(c, consts, funcs, shadowed)
    ensures Eval(c, e, s) == ValueAt(EvalConst(e, consts, funcs, shadowed), s)
    decreases Rank(e), 2, e, 1
  {
    match e
    case Un(_, a) => ConstExact(c, a, consts, funcs, shadowed, s);
    case Bin(_, l, r) =>
      ConstExact(c, l, consts, funcs, shadowed, s);
      ConstExact(c, r, consts, funcs, shadowed, s);
    case Logic(_, l, r) =>
      ConstExact(c, l, consts, funcs, shadowed, s);
      ConstExact(c, r, consts, funcs, shadowed, s);
    case Call(_, _) => CallExact(c, e, consts, funcs, shadowed, s);
    case _ =>
  }

  lemma {:induction false} ArgsExact(c: Ctx, es: seq<Expr>, consts: Consts, funcs: Funcs, shadowed: set<Name>, s: State)
    requires SimpleAll(es, funcs) && Mirrors(c, s, consts) && consts.Keys !! shadowed
    requires AnyCall(es) ==> Alone(c, consts, funcs, shadowed)
    ensures EvalAll(c, es, s) ==
            match ArgConsts(es, consts, funcs, shadowed) case Some(vs) => Vals(AsInts(vs), s) case None => ArgsFault
    decreases RankAll(es), 2, es
  {
    if es != [] {
      ConstExact(c, es[0], consts, funcs, shadowed, s);
      ArgsExact(c, es[1..], consts, funcs, shadowed, s);
      var all, rest := ArgConsts(es, consts, funcs, shadowed), ArgConsts(es[1..], consts, funcs, shadowed);
      if all.Some? {
        assert all.value[1..] == rest.value;
      }
    }
  }

  lemma {:induction false} CallExact(c: Ctx, e: Expr, consts: Consts, funcs: Funcs, shadowed: set<Name>, s: State)
    requires e.Call? && Simple(e, funcs) && Mirrors(c, s, consts) && consts.Keys !! shadowed
    requires Alone(c, consts, funcs, shadowed)
    ensures Eval(c, e, s) == ValueAt(EvalConst(e, consts, funcs, shadowed), s)
    decreases Rank(e), 2, e, 0
  {
    ArgsExact(c, e.args, consts, funcs, shadowed, s);
    var vs := ArgConsts(e.args, consts, funcs, shadowed);
    if vs.Some? && e.f in funcs && e.f !in shadowed && Foldable(funcs[e.f]) {
      InvokeExact(c, funcs[e.f], vs.value, consts, funcs, s);
    }
  }

  lemma {:induction false} InvokeExact(c: Ctx, fn: Func, vs: seq<int>, consts: Consts, funcs: Funcs, s: State)
    requires Foldable(fn) && SimpleBody(fn, funcs) && |vs| <= |fn.params| && c.consts == consts
    ensures Invoke(c, fn, AsInts(vs), s) ==
            match Overlay(fn.params, vs, funcs, consts - ParamNames(fn.params))
            case None => Fault
            case Some(o) => ValueAt(EvalConst(fn.body[0].result.value, o, funcs, {}), s)
    decreases 1, 1
  {
    var c1, s0, e := c.(locals := ParamNames(fn.params)), s.(vars := map[]), fn.body[0].result.value;
    var o := Overlay(fn.params, vs, funcs, consts - ParamNames(fn.params));
    BindExact(c1, fn.params, vs, funcs, consts - ParamNames(fn.params), s0);
    if o.Some? {
      var s1 := Bind(c1, fn.params, AsInts(vs), s0).s;
      ConstExact(c1, e, o.value, funcs, {}, s1);
      assert s1.(vars := s.vars) == s;
    }
  }

  lemma MirrorGrows(c: Ctx, s: State, o: Consts, x: Name, v: int)
    requires Mirrors(c, s, o)
    ensures Mirrors(c, Put(s, x, Int(v)), o[x := v])
  {
  }

  lemma {:induction false} BindExact(c: Ctx, ps: seq<Param>, vs: seq<int>, funcs: Funcs, o: Consts, s: State)
    requires CallFree(ps) && SimpleDefaults(ps, funcs) && |vs| <= |ps| && Mirrors(c, s, o)
    ensures var r, b := Overlay(ps, vs, funcs, o), Bind(c, ps, AsInts(vs), s);
            if r.None? then b == Unbound
            else b.Bound? && b.s == s.(vars := b.s.vars) && Mirrors(c, b.s, r.value)
    decreases 0, 3, ps
  {
    if ps != [] {
      if vs != [] {
        assert AsInts(vs)[1..] == AsInts(vs[1..]);
        MirrorGrows(c, s, o, ps[0].x, vs[0]);
        BindExact(c, ps[1..], vs[1..], funcs, o[ps[0].x := vs[0]], Put(s, ps[0].x, Int(vs[0])));
      } else if ps[0].default.Some? {
        assert ps decreases to ps[0];
        var d := ps[0].default.value;
        ConstExact(c, d, o, funcs, {}, s);
        var v := EvalConst(d, o, funcs, {});
        if v.Some? {
          MirrorGrows(c, s, o, ps[0].x, v.value);
          BindExact(c, ps[1..], [], funcs, o[ps[0].x := v.value], Put(s, ps[0].x, Int(v.value)));
        }
      }
    }
  }
}
