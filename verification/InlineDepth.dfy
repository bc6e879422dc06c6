/** For an accepted program the depth budget of the semantics is no restriction: once it
    covers the finishing order, more of it changes nothing. */
module InlineDepth {
  import opened Sauce
  import opened SauceNames
  import opened Inline
  import opened InlineRecursion

  /** Validated functions in an order in which each calls only earlier ones. */
  ghost predicate Ordered(order: seq<Ident>, ctx: Ctx) {
    && NoRepeats(order)
    && (forall f | f in ctx.fns :: f in order && Inlineable(ctx.fns[f].body))
    && (forall f, g | f in ctx.fns && g in CalleesIn(ctx.fns[f].body) && g in ctx.fns :: Rank(order, g) < Rank(order, f))
  }

  /** What the recursion check establishes about the inline functions is such an order. */
  lemma AcceptedIsOrdered(order: seq<Ident>, bodies: Bodies, ctx: Ctx)
    requires Descends(order, bodies, ctx.fns.Keys) && NoRepeats(order) && (forall f | f in ctx.fns :: f in order)
    requires forall f | f in ctx.fns :: f in bodies && bodies[f] == ctx.fns[f].body && Inlineable(ctx.fns[f].body)
    ensures Ordered(order, ctx)
  {
    forall f, g | f in ctx.fns && g in CalleesIn(ctx.fns[f].body) && g in ctx.fns
      ensures Rank(order, g) < Rank(order, f)
    {
      assert g in Edges(bodies, f);
      RankFalls(order, bodies, ctx.fns.Keys, f, g);
    }
  }

  ghost predicate Ranked(callees: set<Ident>, r: nat, order: seq<Ident>, ctx: Ctx) {
    forall g | g in callees && g in ctx.fns :: g in order && Rank(order, g) < r
  }

  lemma {:induction false} EvalDeep(e: Expr, r: nat, order: seq<Ident>, vars: Vars, k: Vars, tr: Trace, ctx: Ctx,
                                    d1: nat, d2: nat)
    requires Ordered(order, ctx) && Ranked(Callees(e), r, order, ctx) && d1 >= r && d2 >= r
    ensures Eval(e, vars, k, tr, ctx, d1) == Eval(e, vars, k, tr, ctx, d2)
    decreases r, 1, e, 0
  {
    match e
    case Lit(_) =>
    case Var(_) =>
    case Un(_, e1) => EvalDeep(e1, r, order, vars, k, tr, ctx, d1, d2);
    case Bin(_, l, u) =>
      EvalDeep(l, r, order, vars, k, tr, ctx, d1, d2);
      var v := Eval(l, vars, k, tr, ctx, d1);
      if v.Val? { EvalDeep(u, r, order, vars, k, v.tr, ctx, d1, d2); }
    case Logic(_, l, u) =>
      EvalDeep(l, r, order, vars, k, tr, ctx, d1, d2);
      var v := Eval(l, vars, k, tr, ctx, d1);
      if v.Val? { EvalDeep(u, r, order, vars, k, v.tr, ctx, d1, d2); }
    case Cond(c, t, f) =>
      EvalDeep(c, r, order, vars, k, tr, ctx, d1, d2);
      var v := Eval(c, vars, k, tr, ctx, d1);
      if v.Val? { EvalDeep(if v.v != 0 then t else f, r, order, vars, k, v.tr, ctx, d1, d2); }
    case Call(f, args) =>
      EvalArgsDeep(args, r, order, vars, k, tr, ctx, d1, d2);
      var a := EvalArgs(args, vars, k, tr, ctx, d1);
      if a.Vals? && f in ctx.fns {
        assert f in Callees(e);
        InvokeDeep(f, a.vs, order, a.tr, ctx, d1, d2);
      }
  }

  lemma {:induction false} EvalArgsDeep(args: seq<Expr>, r: nat, order: seq<Ident>, vars: Vars, k: Vars, tr: Trace,
                                        ctx: Ctx, d1: nat, d2: nat)
    requires Ordered(order, ctx) && Ranked(ArgCallees(args), r, order, ctx) && d1 >= r && d2 >= r
    ensures EvalArgs(args, vars, k, tr, ctx, d1) == EvalArgs(args, vars, k, tr, ctx, d2)
    decreases r, 1, args, 0
  {
    if args != [] {
      EvalDeep(args[0], r, order, vars, k, tr, ctx, d1, d2);
      var v := Eval(args[0], vars, k, tr, ctx, d1);
      if v.Val? { EvalArgsDeep(args[1..], r, order, vars, k, v.tr, ctx, d1, d2); }
    }
  }

  lemma {:induction false} InvokeDeep(f: Ident, vs: seq<int>, order: seq<Ident>, tr: Trace, ctx: Ctx, d1: nat, d2: nat)
    requires Ordered(order, ctx) && f in ctx.fns && d1 > Rank(order, f) && d2 > Rank(order, f)
    ensures Invoke(f, vs, tr, ctx, d1) == Invoke(f, vs, tr, ctx, d2)
    decreases Rank(order, f), 2
  {
    var fn := ctx.fns[f];
    if |vs| == |fn.params| {
      assert Ranked(CalleesIn(fn.body), Rank(order, f), order, ctx);
      ExecDeep(fn.body, Rank(order, f), order, Bind(fn.params, vs), ctx.consts - Scope(fn), tr, ctx, d1 - 1, d2 - 1);
    }
  }

  lemma {:induction false} DeclsDeep(ds: seq<Declarator>, r: nat, order: seq<Ident>, vars: Vars, k: Vars, tr: Trace,
                                     ctx: Ctx, d1: nat, d2: nat)
    requires Ordered(order, ctx) && Ranked(DeclCallees(ds), r, order, ctx) && d1 >= r && d2 >= r
    ensures ExecDecls(ds, vars, k, tr, ctx, d1) == ExecDecls(ds, vars, k, tr, ctx, d2)
    decreases r, 1, ds, 0
  {
    if ds != [] {
      assert ds decreases to ds[0];
      EvalDeep(ds[0].init, r, order, vars, k, tr, ctx, d1, d2);
      var v := Eval(ds[0].init, vars, k, tr, ctx, d1);
      if v.Val? { DeclsDeep(ds[1..], r, order, vars[ds[0].x := v.v], k, v.tr, ctx, d1, d2); }
    }
  }

  lemma {:induction false} ExecDeep(ss: seq<Stmt>, r: nat, order: seq<Ident>, vars: Vars, k: Vars, tr: Trace, ctx: Ctx,
                                    d1: nat, d2: nat)
    requires Ordered(order, ctx) && Ranked(CalleesIn(ss), r, order, ctx) && d1 >= r && d2 >= r && Inlineable(ss)
    ensures Exec(ss, vars, k, tr, ctx, d1) == Exec(ss, vars, k, tr, ctx, d2)
    decreases r, 1, ss, 0
  {
    if ss != [] {
      StmtDeep(ss[0], r, order, vars, k, tr, ctx, d1, d2);
      var o := ExecStmt(ss[0], vars, k, tr, ctx, d1);
      if o.Normal? { ExecDeep(ss[1..], r, order, o.vars, k, o.tr, ctx, d1, d2); }
    }
  }

  lemma {:induction false} StmtDeep(s: Stmt, r: nat, order: seq<Ident>, vars: Vars, k: Vars, tr: Trace, ctx: Ctx,
                                    d1: nat, d2: nat)
    requires Ordered(order, ctx) && Ranked(StmtCallees(s), r, order, ctx) && d1 >= r && d2 >= r && InlineableStmt(s)
    ensures ExecStmt(s, vars, k, tr, ctx, d1) == ExecStmt(s, vars, k, tr, ctx, d2)
    decreases r, 1, s, 1
  {
    match s
    case Decl(ds) => DeclsDeep(ds, r, order, vars, k, tr, ctx, d1, d2);
    case Assign(_, e) => EvalDeep(e, r, order, vars, k, tr, ctx, d1, d2);
    case OpAssign(_, _, e) => EvalDeep(e, r, order, vars, k, tr, ctx, d1, d2);
    case Update(_, _) =>
    case Eff(e) => EvalDeep(e, r, order, vars, k, tr, ctx, d1, d2);
    case If(c, thn, els) =>
      EvalDeep(c, r, order, vars, k, tr, ctx, d1, d2);
      var v := Eval(c, vars, k, tr, ctx, d1);
      if v.Val? { ExecDeep(if v.v != 0 then thn else els, r, order, vars, k, v.tr, ctx, d1, d2); }
    case Return(None) =>
    case Return(Some(e)) => EvalDeep(e, r, order, vars, k, tr, ctx, d1, d2);
    case Throw(e) => EvalDeep(e, r, order, vars, k, tr, ctx, d1, d2);
  }

  /** Calling any inline function of an accepted program: every depth from the number of
      functions up gives the same result, so none is stuck for want of depth. */
  lemma DepthSuffices(f: Ident, vs: seq<int>, order: seq<Ident>, tr: Trace, ctx: Ctx, d: nat)
    requires Ordered(order, ctx) && f in ctx.fns && d >= |order|
    ensures Invoke(f, vs, tr, ctx, d) == Invoke(f, vs, tr, ctx, |order|)
  {
    InvokeDeep(f, vs, order, tr, ctx, d, |order|);
  }
}
