/** Expansion preserves meaning: a run of the expanded code is a run of the original,
    step for step, whenever the original run is not stuck. */
module InlineMeaning {
  import opened Arith
  import opened Sauce
  import opened SauceNames
  import opened Inline
  import opened InlineRename
  import opened InlineShape
  import opened InlinePure

  // ----- expressions -----

  lemma AgreeTrans(s: Vars, t: Vars, u: Vars, b: nat, c: nat)
    requires b <= c && Agree(s, t, b) && Agree(t, u, c)
    ensures Agree(s, u, b)
  {
    forall n | Below(n, b)
      ensures SameOn(s, u, n)
    {
      assert SameOn(s, t, n) && SameOn(t, u, n);
    }
  }

  /** Running the hoisted code and then what is left. */
  function PreEval(h: Hoisted<Expr>, t: Vars, k: Vars, tr: Trace, ctx: Ctx): EvalResult {
    match Exec(h.pre, t, k, tr, Bare(ctx), 0)
    case Normal(t1, tr1) => Eval(h.rest, t1, k, tr1, Bare(ctx), 0)
    case Thrown => EThrown
    case _ => EStuck
  }

  /** Hoisted code ends by throwing with the original, or touches only new names. */
  ghost predicate HoistedRun(r: EvalResult, h: Hoisted<Expr>, id: nat, t: Vars, k: Vars, tr: Trace, ctx: Ctx) {
    var o := Exec(h.pre, t, k, tr, Bare(ctx), 0);
    match r
    case EStuck => true
    case EThrown => o.Thrown?
    case Val(v, tr1) =>
      && tr1 == tr && o.Normal? && o.tr == tr && Agree(t, o.vars, id)
      && Eval(h.rest, o.vars, k, tr, Bare(ctx), 0) == Val(v, tr)
  }

  ghost predicate HoistedArgs(r: ArgsResult, h: Hoisted<seq<Expr>>, id: nat, t: Vars, k: Vars, tr: Trace, ctx: Ctx) {
    var o := Exec(h.pre, t, k, tr, Bare(ctx), 0);
    match r
    case AStuck => true
    case AThrown => o.Thrown?
    case Vals(vs, tr1) =>
      && tr1 == tr && o.Normal? && o.tr == tr && Agree(t, o.vars, id)
      && EvalArgs(h.rest, o.vars, k, tr, Bare(ctx), 0) == Vals(vs, tr)
  }

  lemma {:induction false} HoistRuns(e: Expr, b: nat, id: nat, s: Vars, t: Vars, k: Vars, tr: Trace, ctx: Ctx, d: nat)
    requires Ready(s, t, b, id, k, ctx)
    requires Callees(e) <= ctx.fns.Keys && AllBelow(Reads(e), b)
    requires HoistExpr(e, ctx.fns, id).Ok?
    ensures HoistedRun(Eval(e, s, k, tr, ctx, d), HoistExpr(e, ctx.fns, id).value, id, t, k, tr, ctx)
    ensures Eval(e, s, k, tr, ctx, d).Val? ==>
              Agree(s, Exec(HoistExpr(e, ctx.fns, id).value.pre, t, k, tr, Bare(ctx), 0).vars, b)
    decreases MAX_INLINE_EXPANSIONS - id, 1, e, 1
  {
    HoistRunsCases(e, b, id, s, t, k, tr, ctx, d);
    var o := Exec(HoistExpr(e, ctx.fns, id).value.pre, t, k, tr, Bare(ctx), 0);
    if Eval(e, s, k, tr, ctx, d).Val? {
      AgreeTrans(s, t, o.vars, b, id);
    }
  }

  lemma {:induction false} HoistRunsCases(e: Expr, b: nat, id: nat, s: Vars, t: Vars, k: Vars, tr: Trace, ctx: Ctx, d: nat)
    requires Ready(s, t, b, id, k, ctx)
    requires Callees(e) <= ctx.fns.Keys && AllBelow(Reads(e), b)
    requires HoistExpr(e, ctx.fns, id).Ok?
    ensures HoistedRun(Eval(e, s, k, tr, ctx, d), HoistExpr(e, ctx.fns, id).value, id, t, k, tr, ctx)
    decreases MAX_INLINE_EXPANSIONS - id, 1, e, 0, 1
  {
    match e
    case Lit(_) =>
    case Var(x) => assert SameOn(s, t, x);
    case Un(_, e1) => HoistRuns(e1, b, id, s, t, k, tr, ctx, d);
    case Bin(_, _, _) => HoistRunsBin(e, b, id, s, t, k, tr, ctx, d);
    case Logic(_, _, _) => HoistRunsLogic(e, b, id, s, t, k, tr, ctx, d);
    case Cond(_, _, _) => HoistRunsCond(e, b, id, s, t, k, tr, ctx, d);
    case Call(_, _) => HoistRunsCall(e, b, id, s, t, k, tr, ctx, d);
  }

  lemma {:induction false} HoistRunsBin(e: Expr, b: nat, id: nat, s: Vars, t: Vars, k: Vars, tr: Trace, ctx: Ctx, d: nat)
    requires Ready(s, t, b, id, k, ctx) && e.Bin?
    requires Callees(e) <= ctx.fns.Keys && AllBelow(Reads(e), b)
    requires HoistExpr(e, ctx.fns, id).Ok?
    ensures HoistedRun(Eval(e, s, k, tr, ctx, d), HoistExpr(e, ctx.fns, id).value, id, t, k, tr, ctx)
    decreases MAX_INLINE_EXPANSIONS - id, 1, e, 0, 0
  {
    var m := ctx.fns;
    var hl := HoistExpr(e.l, m, id).value;
    var hr := HoistExpr(e.r, m, hl.next).value;
    ExecAppend(hl.pre, hr.pre, t, k, tr, Bare(ctx), 0);
    HoistRuns(e.l, b, id, s, t, k, tr, ctx, d);
    var vl := Eval(e.l, s, k, tr, ctx, d);
    if vl.Val? {
      var t1 := Exec(hl.pre, t, k, tr, Bare(ctx), 0).vars;
      HoistRuns(e.r, b, hl.next, s, t1, k, tr, ctx, d);
      if Eval(e.r, s, k, tr, ctx, d).Val? {
        var t2 := Exec(hr.pre, t1, k, tr, Bare(ctx), 0).vars;
        HoistShape(e.l, m, id);
        EvalAgree(hl.rest, t1, t2, hl.next, k, tr, Bare(ctx), 0, 0);
        AgreeTrans(t, t1, t2, id, hl.next);
      }
    }
  }

  /** A subexpression the outside cannot see and that hoisting left in place. */
  lemma StillEval(e: Expr, s: Vars, t: Vars, b: nat, k: Vars, tr: Trace, ctx: Ctx, d: nat)
    requires Fit(ctx) && Agree(s, t, b) && AllBelow(Reads(e), b)
    requires Callees(e) <= ctx.fns.Keys && !HasCall(e, ctx.fns)
    ensures var r := Eval(e, s, k, tr, ctx, d);
            r == Eval(e, t, k, tr, Bare(ctx), 0) && !r.EThrown? && (r.Val? ==> r.tr == tr)
    decreases e
  {
    assert Callees(e) == {};
    EvalAgree(e, s, t, b, k, tr, ctx, d, 0);
    PureEval(e, s, k, tr, ctx, d);
    SilentEval(e, s, k, tr, ctx, d);
  }

  lemma {:induction false} SilentEval(e: Expr, s: Vars, k: Vars, tr: Trace, ctx: Ctx, d: nat)
    requires Callees(e) == {}
    ensures !Eval(e, s, k, tr, ctx, d).EThrown?
  {
    match e
    case Lit(_) =>
    case Var(_) =>
    case Un(_, e1) => SilentEval(e1, s, k, tr, ctx, d);
    case Bin(_, l, r) =>
      SilentEval(l, s, k, tr, ctx, d);
      var v := Eval(l, s, k, tr, ctx, d);
      if v.Val? { SilentEval(r, s, k, v.tr, ctx, d); }
    case Logic(_, l, r) =>
      SilentEval(l, s, k, tr, ctx, d);
      var v := Eval(l, s, k, tr, ctx, d);
      if v.Val? { SilentEval(r, s, k, v.tr, ctx, d); }
    case Cond(c, t, f) =>
      SilentEval(c, s, k, tr, ctx, d);
      var v := Eval(c, s, k, tr, ctx, d);
      if v.Val? { SilentEval(if v.v != 0 then t else f, s, k, v.tr, ctx, d); }
    case Call(_, _) =>
  }

  lemma {:induction false} HoistRunsLogic(e: Expr, b: nat, id: nat, s: Vars, t: Vars, k: Vars, tr: Trace, ctx: Ctx, d: nat)
    requires Ready(s, t, b, id, k, ctx) && e.Logic?
    requires Callees(e) <= ctx.fns.Keys && AllBelow(Reads(e), b)
    requires HoistExpr(e, ctx.fns, id).Ok?
    ensures HoistedRun(Eval(e, s, k, tr, ctx, d), HoistExpr(e, ctx.fns, id).value, id, t, k, tr, ctx)
    decreases MAX_INLINE_EXPANSIONS - id, 1, e, 0, 0
  {
    HoistRuns(e.l, b, id, s, t, k, tr, ctx, d);
    if Eval(e.l, s, k, tr, ctx, d).Val? {
      var t1 := Exec(HoistExpr(e.l, ctx.fns, id).value.pre, t, k, tr, Bare(ctx), 0).vars;
      StillEval(e.r, s, t1, b, k, tr, ctx, d);
    }
  }

  lemma {:induction false} HoistRunsCond(e: Expr, b: nat, id: nat, s: Vars, t: Vars, k: Vars, tr: Trace, ctx: Ctx, d: nat)
    requires Ready(s, t, b, id, k, ctx) && e.Cond?
    requires Callees(e) <= ctx.fns.Keys && AllBelow(Reads(e), b)
    requires HoistExpr(e, ctx.fns, id).Ok?
    ensures HoistedRun(Eval(e, s, k, tr, ctx, d), HoistExpr(e, ctx.fns, id).value, id, t, k, tr, ctx)
    decreases MAX_INLINE_EXPANSIONS - id, 1, e, 0, 0
  {
    HoistRuns(e.c, b, id, s, t, k, tr, ctx, d);
    if Eval(e.c, s, k, tr, ctx, d).Val? {
      var t1 := Exec(HoistExpr(e.c, ctx.fns, id).value.pre, t, k, tr, Bare(ctx), 0).vars;
      StillEval(e.t, s, t1, b, k, tr, ctx, d);
      StillEval(e.f, s, t1, b, k, tr, ctx, d);
    }
  }

  lemma {:induction false} HoistRunsCall(e: Expr, b: nat, id: nat, s: Vars, t: Vars, k: Vars, tr: Trace, ctx: Ctx, d: nat)
    requires Ready(s, t, b, id, k, ctx) && e.Call?
    requires Callees(e) <= ctx.fns.Keys && AllBelow(Reads(e), b)
    requires HoistExpr(e, ctx.fns, id).Ok?
    ensures HoistedRun(Eval(e, s, k, tr, ctx, d), HoistExpr(e, ctx.fns, id).value, id, t, k, tr, ctx)
    decreases MAX_INLINE_EXPANSIONS - id, 1, e, 0, 0
  {
    var m := ctx.fns;
    var f, args := e.callee, e.args;
    assert e == Call(f, args);
    assert f in Callees(e);
    var ha := HoistArgs(args, m, id).value;
    var x := ExpandCall(f, ha.rest, true, m, ha.next).value;
    assert HoistExpr(e, m, id).value == Hoisted(ha.pre + x.pre, Var(ResultOf(ha.next)), x.next);
    WholeCallRuns(f, args, true, b, id, s, t, k, tr, ctx, d);
  }

  lemma {:induction false} WholeCallRuns(f: Ident, args: seq<Expr>, used: bool, b: nat, id: nat,
                                         s: Vars, t: Vars, k: Vars, tr: Trace, ctx: Ctx, d: nat)
    requires Ready(s, t, b, id, k, ctx)
    requires Callees(Call(f, args)) <= ctx.fns.Keys && AllBelow(Reads(Call(f, args)), b)
    requires HoistArgs(args, ctx.fns, id).Ok?
    requires f in ctx.fns
    requires var ha := HoistArgs(args, ctx.fns, id).value;
             ExpandCall(f, ha.rest, used, ctx.fns, ha.next).Ok?
    ensures var ha := HoistArgs(args, ctx.fns, id).value;
            var x := ExpandCall(f, ha.rest, used, ctx.fns, ha.next).value;
            CalledRun(Eval(Call(f, args), s, k, tr, ctx, d),
                      Exec(ha.pre + x.pre, t, k, tr, Bare(ctx), 0), id, t, tr, ha.next)
    decreases MAX_INLINE_EXPANSIONS - id, 1, args, 1
  {
    assert ArgCallees(args) <= Callees(Call(f, args)) && Reads(Call(f, args)) == ArgReads(args);
    var ha := HoistArgs(args, ctx.fns, id).value;
    var x := ExpandCall(f, ha.rest, used, ctx.fns, ha.next).value;
    HoistArgsRun(args, b, id, s, t, k, tr, ctx, d);
    var a := EvalArgs(args, s, k, tr, ctx, d);
    ExecAppend(ha.pre, x.pre, t, k, tr, Bare(ctx), 0);
    if a.Vals? {
      CallAfterArgs(f, args, a.vs, used, b, id, s, t, k, tr, ctx, d);
    }
  }

  /** Hoisted arguments followed by the call they feed. */
  lemma {:induction false} CallAfterArgs(f: Ident, args: seq<Expr>, vs: seq<int>, used: bool, b: nat, id: nat,
                                         s: Vars, t: Vars, k: Vars, tr: Trace, ctx: Ctx, d: nat)
    requires Ready(s, t, b, id, k, ctx) && f in ctx.fns
    requires ArgCallees(args) <= ctx.fns.Keys && AllBelow(ArgReads(args), b)
    requires HoistArgs(args, ctx.fns, id).Ok?
    requires var ha := HoistArgs(args, ctx.fns, id).value;
             ExpandCall(f, ha.rest, used, ctx.fns, ha.next).Ok?
    requires EvalArgs(args, s, k, tr, ctx, d).Vals? && EvalArgs(args, s, k, tr, ctx, d).vs == vs
    requires HoistedArgs(EvalArgs(args, s, k, tr, ctx, d), HoistArgs(args, ctx.fns, id).value, id, t, k, tr, ctx)
    ensures var ha := HoistArgs(args, ctx.fns, id).value;
            var x := ExpandCall(f, ha.rest, used, ctx.fns, ha.next).value;
            var t1 := Exec(ha.pre, t, k, tr, Bare(ctx), 0).vars;
            var q := Exec(x.pre, t1, k, tr, Bare(ctx), 0);
            CalledRun(Invoke(f, vs, tr, ctx, d), q, id, t, tr, ha.next)
    decreases MAX_INLINE_EXPANSIONS - id, 0, 1, 0
  {
    var ha := HoistArgs(args, ctx.fns, id).value;
    var x := ExpandCall(f, ha.rest, used, ctx.fns, ha.next).value;
    HoistArgsShape(args, ctx.fns, id);
    var t1 := Exec(ha.pre, t, k, tr, Bare(ctx), 0).vars;
    AgreeTrans(s, t, t1, b, id);
    HygienicAgree(s, t1, b, k, ctx);
    CallRuns(f, ha.rest, vs, used, ha.next, t1, k, tr, ctx, d);
    if Invoke(f, vs, tr, ctx, d).Val? {
      AgreeTrans(t, t1, Exec(x.pre, t1, k, tr, Bare(ctx), 0).vars, id, ha.next);
    }
  }

  lemma {:induction false} HoistArgsRun(args: seq<Expr>, b: nat, id: nat, s: Vars, t: Vars, k: Vars, tr: Trace, ctx: Ctx, d: nat)
    requires Ready(s, t, b, id, k, ctx)
    requires ArgCallees(args) <= ctx.fns.Keys && AllBelow(ArgReads(args), b)
    requires HoistArgs(args, ctx.fns, id).Ok?
    ensures HoistedArgs(EvalArgs(args, s, k, tr, ctx, d), HoistArgs(args, ctx.fns, id).value, id, t, k, tr, ctx)
    ensures EvalArgs(args, s, k, tr, ctx, d).Vals? ==>
              Agree(s, Exec(HoistArgs(args, ctx.fns, id).value.pre, t, k, tr, Bare(ctx), 0).vars, b)
    decreases MAX_INLINE_EXPANSIONS - id, 1, args, 0
  {
    if args != [] {
      var m := ctx.fns;
      var h := HoistExpr(args[0], m, id).value;
      var hs := HoistArgs(args[1..], m, h.next).value;
      ExecAppend(h.pre, hs.pre, t, k, tr, Bare(ctx), 0);
      HoistRuns(args[0], b, id, s, t, k, tr, ctx, d);
      var v := Eval(args[0], s, k, tr, ctx, d);
      if v.Val? {
        var t1 := Exec(h.pre, t, k, tr, Bare(ctx), 0).vars;
        HoistArgsRun(args[1..], b, h.next, s, t1, k, tr, ctx, d);
        if EvalArgs(args[1..], s, k, tr, ctx, d).Vals? {
          var t2 := Exec(hs.pre, t1, k, tr, Bare(ctx), 0).vars;
          HoistShape(args[0], m, id);
          EvalAgree(h.rest, t1, t2, h.next, k, tr, Bare(ctx), 0, 0);
          assert ([h.rest] + hs.rest)[1..] == hs.rest;
          AgreeTrans(t, t1, t2, id, h.next);
          AgreeTrans(s, t, t2, b, id);
        }
      }
    }
  }

  /** Free names of source bodies are source names, on which the two runs agree. */
  lemma HygienicAgree(s: Vars, t: Vars, b: nat, k: Vars, ctx: Ctx)
    requires Fit(ctx) && Hygienic(s, k, ctx) && Agree(s, t, b)
    ensures Hygienic(t, k, ctx)
  {
    forall f, n | f in ctx.fns && n in Free(ctx.fns[f])
      ensures n !in t
    {
      assert CleanFn(ctx.fns[f], ctx.fns);
      assert Below(n, b) && SameOn(s, t, n);
    }
  }

  // ----- one call -----

  /** Arguments that evaluate from left to right evaluate one by one. */
  lemma {:induction false} ArgAt(args: seq<Expr>, vs: seq<int>, t: Vars, k: Vars, tr: Trace, ctx: Ctx, i: nat)
    requires Fit(ctx) && ArgCallees(args) == {}
    requires EvalArgs(args, t, k, tr, ctx, 0) == Vals(vs, tr)
    requires i < |args|
    ensures Eval(args[i], t, k, tr, ctx, 0) == Val(vs[i], tr)
    ensures Callees(args[i]) == {} && Reads(args[i]) <= ArgReads(args)
  {
    PureEval(args[0], t, k, tr, ctx, 0);
    if i > 0 {
      ArgAt(args[1..], vs[1..], t, k, tr, ctx, i - 1);
    }
  }

  /** The frame of a call after its parameters are bound under their new names. */
  function BindIn(params: seq<Ident>, vs: seq<int>, id: nat, t: Vars): Vars
    requires |params| == |vs|
  {
    if params == [] then t
    else BindIn(params[..|params| - 1], vs[..|vs| - 1], id, t)[ParamOf(id, params[|params| - 1]) := vs[|vs| - 1]]
  }

  lemma {:induction false} BindInFacts(params: seq<Ident>, vs: seq<int>, id: nat, t: Vars)
    requires |params| == |vs|
    ensures Bind(params, vs).Keys == UserNames(params)
    ensures forall p | p in params ::
              ParamOf(id, p) in BindIn(params, vs, id, t) &&
              BindIn(params, vs, id, t)[ParamOf(id, p)] == Bind(params, vs)[User(p)]
    ensures forall n: Name | !(n.ParamOf? && n.id == id) :: SameOn(t, BindIn(params, vs, id, t), n)
  {
    if params != [] {
      var n := |params| - 1;
      BindInFacts(params[..n], vs[..n], id, t);
      assert params == params[..n] + [params[n]];
    }
  }

  lemma OneDecl(x: Name, e: Expr, v: int, t: Vars, k: Vars, tr: Trace, ctx: Ctx)
    requires Eval(e, t, k, tr, ctx, 0) == Val(v, tr)
    ensures Exec([Decl([Declarator(x, e)])], t, k, tr, ctx, 0) == Normal(t[x := v], tr)
  {
    var ds := [Declarator(x, e)];
    assert ds[1..] == [];
    assert ExecDecls(ds, t, k, tr, ctx, 0) == ExecDecls(ds[1..], t[x := v], k, tr, ctx, 0);
  }

  lemma {:induction false} BindRuns(params: seq<Ident>, args: seq<Expr>, vs: seq<int>, id: nat, t: Vars, k: Vars,
                                    tr: Trace, ctx: Ctx)
    requires |params| == |args| == |vs|
    requires forall i | 0 <= i < |args| ::
               Eval(args[i], t, k, tr, ctx, 0) == Val(vs[i], tr) && Callees(args[i]) == {} && AllBelow(Reads(args[i]), id)
    requires ctx == Bare(ctx)
    ensures Exec(BindArgs(params, args, id), t, k, tr, ctx, 0) == Normal(BindIn(params, vs, id, t), tr)
  {
    if params != [] {
      var n := |params| - 1;
      var init := BindArgs(params[..n], args[..n], id);
      var last := [Decl([Declarator(ParamOf(id, params[n]), args[n])])];
      BindRuns(params[..n], args[..n], vs[..n], id, t, k, tr, ctx);
      ExecAppend(init, last, t, k, tr, ctx, 0);
      var t1 := BindIn(params[..n], vs[..n], id, t);
      BindInFacts(params[..n], vs[..n], id, t);
      EvalAgree(args[n], t, t1, id, k, tr, ctx, 0, 0);
      OneDecl(ParamOf(id, params[n]), args[n], vs[n], t1, k, tr, ctx);
    }
  }

  function Entry(fn: Fn, vs: seq<int>, id: nat, t: Vars): Vars
    requires |fn.params| == |vs|
  {
    BindIn(fn.params, vs, id, t)[ResultOf(id) := 0][DoneOf(id) := 0]
  }

  lemma RenameMapFacts(f: Ident, id: nat, ctx: Ctx)
    requires Fit(ctx) && f in ctx.fns
    ensures var fn := ctx.fns[f];
            var ren := RenameMap(fn, id);
            && ren.Keys == Scope(fn)
            && forall n | n in ren ::
                 n.User? && ren[n] == if n in UserNames(fn.params) then ParamOf(id, n.s) else LocalOf(id, n.s)
  {
    assert CleanFn(ctx.fns[f], ctx.fns);
    assert forall n | n in Scope(ctx.fns[f]) :: n.User?;
  }

  lemma EntryHolds(fn: Fn, vs: seq<int>, id: nat, t: Vars, n: Name)
    requires |fn.params| == |vs|
    ensures Bind(fn.params, vs).Keys == UserNames(fn.params)
    ensures n in UserNames(fn.params) ==>
              var e := Entry(fn, vs, id, t);
              ParamOf(id, n.s) in e && e[ParamOf(id, n.s)] == Bind(fn.params, vs)[n]
    ensures n.User? ==> SameOn(t, Entry(fn, vs, id, t), n)
  {
    BindInFacts(fn.params, vs, id, t);
    if n.User? {
      assert SameOn(t, BindIn(fn.params, vs, id, t), n);
    }
  }

  lemma MirrorEntry(f: Ident, vs: seq<int>, id: nat, t: Vars, k: Vars, ctx: Ctx)
    requires Fit(ctx) && Hygienic(t, k, ctx) && f in ctx.fns && |ctx.fns[f].params| == |vs|
    ensures var fn := ctx.fns[f];
            Mirror(Bind(fn.params, vs), Entry(fn, vs, id, t), RenameMap(fn, id), Mentions(fn.body),
                   ctx.consts - Scope(fn), k)
  {
    var fn := ctx.fns[f];
    var ren := RenameMap(fn, id);
    var e := Entry(fn, vs, id, t);
    assert CleanFn(fn, ctx.fns);
    RenameMapFacts(f, id, ctx);
    EntryHolds(fn, vs, id, t, DoneOf(id));
    forall n | n in Bind(fn.params, vs)
      ensures n in ren && ren[n] in e && e[ren[n]] == Bind(fn.params, vs)[n]
    {
      EntryHolds(fn, vs, id, t, n);
    }
    forall n | n in Mentions(fn.body) && n !in ren
      ensures n !in e
    {
      assert n in Free(fn);
      EntryHolds(fn, vs, id, t, n);
    }
  }

  /** What the renamed body of call `id` looks like. */
  lemma RenamedBody(f: Ident, id: nat, ctx: Ctx)
    requires Fit(ctx) && f in ctx.fns
    ensures var body := RenameStmts(ctx.fns[f].body, RenameMap(ctx.fns[f], id));
            && Inlineable(body) && SafeList(body, ctx.fns) && CalleesIn(body) <= ctx.fns.Keys
            && AllBelow(Mentions(body), id + 1)
            && ResultOf(id) !in Mentions(body) && DoneOf(id) !in Mentions(body)
            && (forall n | n in Writes(body) :: !n.User? && n.id == id)
  {
    var fn := ctx.fns[f];
    var ren := RenameMap(fn, id);
    assert CleanFn(fn, ctx.fns);
    RenameMapFacts(f, id, ctx);
    var img := set n | n in Mentions(fn.body) :: RenameName(n, ren);
    forall n | n in Mentions(fn.body)
      ensures Below(RenameName(n, ren), id + 1) && RenameName(n, ren) != ResultOf(id) && RenameName(n, ren) != DoneOf(id)
    {
      assert n.User?;
    }
    RenamedStmts(fn.body, ren, img);
    var written := set n | n in Writes(fn.body) :: RenameName(n, ren);
    assert forall y | y in written :: !y.User? && y.id == id;
    RenamedWrites(fn.body, ren, written);
    SafeRenamed(fn.body, ren, ctx.fns);
  }

  /** The expansion of call `slot` throws with the call, or leaves its value in the slot
      and disturbs nothing older than `id`. */
  ghost predicate CalledRun(r: EvalResult, o: Outcome, id: nat, t: Vars, tr: Trace, slot: nat) {
    match r
    case EStuck => true
    case EThrown => o.Thrown?
    case Val(v, tr1) =>
      && tr1 == tr && o.Normal? && o.tr == tr && Agree(t, o.vars, id)
      && ResultOf(slot) in o.vars && o.vars[ResultOf(slot)] == v
  }

  lemma {:induction false} CallRuns(f: Ident, args: seq<Expr>, vs: seq<int>, used: bool, id: nat, t: Vars, k: Vars,
                                    tr: Trace, ctx: Ctx, d: nat)
    requires Fit(ctx) && Hygienic(t, k, ctx) && f in ctx.fns && id <= MAX_INLINE_EXPANSIONS
    requires ArgCallees(args) == {} && AllBelow(ArgReads(args), id)
    requires EvalArgs(args, t, k, tr, Bare(ctx), 0) == Vals(vs, tr)
    requires ExpandCall(f, args, used, ctx.fns, id).Ok?
    ensures CalledRun(Invoke(f, vs, tr, ctx, d),
                      Exec(ExpandCall(f, args, used, ctx.fns, id).value.pre, t, k, tr, Bare(ctx), 0), id, t, tr, id)
    decreases MAX_INLINE_EXPANSIONS - id, 0, 0, 0
  {
    var fn := ctx.fns[f];
    var ren := RenameMap(fn, id);
    var body := RenameStmts(fn.body, ren);
    var bare := Bare(ctx);
    forall i | 0 <= i < |args|
      ensures Eval(args[i], t, k, tr, bare, 0) == Val(vs[i], tr) && Callees(args[i]) == {} && AllBelow(Reads(args[i]), id)
    {
      ArgAt(args, vs, t, k, tr, bare, i);
    }
    BindRuns(fn.params, args, vs, id, t, k, tr, bare);
    var binds := BindArgs(fn.params, args, id);
    var rest := Eliminate(body, ctx.fns, id, id + 1).value.pre;
    var t3 := Entry(fn, vs, id, t);
    ExecAppend(binds, InitFlags(id), t, k, tr, bare, 0);
    FlagsRun(id, BindIn(fn.params, vs, id, t), k, tr, bare);
    ExecAppend(binds + InitFlags(id), rest, t, k, tr, bare, 0);
    EntryAgree(fn, vs, id, t);
    if d > 0 {
      BodyRuns(f, vs, id, t, k, tr, ctx, d);
    }
  }

  lemma FlagsRun(id: nat, t: Vars, k: Vars, tr: Trace, ctx: Ctx)
    ensures Exec(InitFlags(id), t, k, tr, ctx, 0) == Normal(t[ResultOf(id) := 0][DoneOf(id) := 0], tr)
  {
    var a := [Decl([Declarator(ResultOf(id), Lit(0))])];
    var b := [Decl([Declarator(DoneOf(id), Lit(0))])];
    assert InitFlags(id) == a + b;
    ExecAppend(a, b, t, k, tr, ctx, 0);
    OneDecl(ResultOf(id), Lit(0), 0, t, k, tr, ctx);
    OneDecl(DoneOf(id), Lit(0), 0, t[ResultOf(id) := 0], k, tr, ctx);
  }

  lemma EntryAgree(fn: Fn, vs: seq<int>, id: nat, t: Vars)
    requires |fn.params| == |vs|
    ensures Agree(t, Entry(fn, vs, id, t), id)
  {
    BindInFacts(fn.params, vs, id, t);
    forall n | Below(n, id)
      ensures SameOn(t, Entry(fn, vs, id, t), n)
    {
      assert SameOn(t, BindIn(fn.params, vs, id, t), n);
    }
  }

  /** From the entry frame on, the eliminated body stands for the call. */
  lemma {:induction false} BodyRuns(f: Ident, vs: seq<int>, id: nat, t: Vars, k: Vars, tr: Trace, ctx: Ctx, d: nat)
    requires Fit(ctx) && Hygienic(t, k, ctx) && f in ctx.fns && id < MAX_INLINE_EXPANSIONS && d > 0
    requires |vs| == |ctx.fns[f].params|
    requires Eliminate(RenameStmts(ctx.fns[f].body, RenameMap(ctx.fns[f], id)), ctx.fns, id, id + 1).Ok?
    ensures var fn := ctx.fns[f];
            var rest := Eliminate(RenameStmts(fn.body, RenameMap(fn, id)), ctx.fns, id, id + 1).value.pre;
            CalledRun(Invoke(f, vs, tr, ctx, d), Exec(rest, Entry(fn, vs, id, t), k, tr, Bare(ctx), 0), id, t, tr, id)
    decreases MAX_INLINE_EXPANSIONS - id - 1, 3, 0, 0
  {
    var fn := ctx.fns[f];
    var body := RenameStmts(fn.body, RenameMap(fn, id));
    var t3 := Entry(fn, vs, id, t);
    RenamedRun(f, vs, id, t, k, tr, ctx, d - 1);
    BodyQuiet(f, vs, tr, ctx, d - 1);
    EntryAgree(fn, vs, id, t);
    BodyElim(f, vs, id, t, k, tr, ctx, d - 1);
    CombineCall(Exec(fn.body, Bind(fn.params, vs), ctx.consts - Scope(fn), tr, ctx, d - 1),
                Exec(body, t3, k, tr, ctx, d - 1),
                Exec(Eliminate(body, ctx.fns, id, id + 1).value.pre, t3, k, tr, Bare(ctx), 0), id, t, t3, tr);
  }

  lemma {:induction false} BodyElim(f: Ident, vs: seq<int>, id: nat, t: Vars, k: Vars, tr: Trace, ctx: Ctx, d: nat)
    requires Fit(ctx) && Hygienic(t, k, ctx) && f in ctx.fns && id < MAX_INLINE_EXPANSIONS
    requires |vs| == |ctx.fns[f].params|
    requires Eliminate(RenameStmts(ctx.fns[f].body, RenameMap(ctx.fns[f], id)), ctx.fns, id, id + 1).Ok?
    ensures var fn := ctx.fns[f];
            var body := RenameStmts(fn.body, RenameMap(fn, id));
            var t3 := Entry(fn, vs, id, t);
            var p := Exec(body, t3, k, tr, ctx, d);
            && Eliminated(p, Exec(Eliminate(body, ctx.fns, id, id + 1).value.pre, t3, k, tr, Bare(ctx), 0), id, id + 1)
            && ((p.Normal? || p.Returned?) ==> Agree(t3, p.vars, id))
    decreases MAX_INLINE_EXPANSIONS - id - 1, 2, 0, 0
  {
    var fn := ctx.fns[f];
    var body := RenameStmts(fn.body, RenameMap(fn, id));
    var t3 := Entry(fn, vs, id, t);
    RenamedReady(f, vs, id, t, k, ctx);
    ElimFramed(body, id, t3, k, tr, ctx, d);
  }

  lemma {:induction false} ElimFramed(body: seq<Stmt>, id: nat, t: Vars, k: Vars, tr: Trace, ctx: Ctx, d: nat)
    requires Fit(ctx) && Hygienic(t, k, ctx) && id < MAX_INLINE_EXPANSIONS && ElimReady(body, id, id + 1, t, ctx)
    requires forall n | n in Writes(body) :: !n.User? && n.id == id
    requires Eliminate(body, ctx.fns, id, id + 1).Ok?
    ensures var p := Exec(body, t, k, tr, ctx, d);
            && Eliminated(p, Exec(Eliminate(body, ctx.fns, id, id + 1).value.pre, t, k, tr, Bare(ctx), 0), id, id + 1)
            && ((p.Normal? || p.Returned?) ==> Agree(t, p.vars, id))
    decreases MAX_INLINE_EXPANSIONS - id - 1, 1, body, 2
  {
    ElimRuns(body, id, id + 1, id + 1, t, t, k, tr, ctx, d);
    BodyFrame(body, id, t, k, tr, ctx, d);
  }

  /** The body in its own frame and the renamed body in the caller's end alike. */
  lemma RenamedRun(f: Ident, vs: seq<int>, id: nat, t: Vars, k: Vars, tr: Trace, ctx: Ctx, d: nat)
    requires Fit(ctx) && Hygienic(t, k, ctx) && f in ctx.fns && |vs| == |ctx.fns[f].params|
    ensures var fn := ctx.fns[f];
            SameEnd(Exec(fn.body, Bind(fn.params, vs), ctx.consts - Scope(fn), tr, ctx, d),
                    Exec(RenameStmts(fn.body, RenameMap(fn, id)), Entry(fn, vs, id, t), k, tr, ctx, d))
  {
    var fn := ctx.fns[f];
    MirrorEntry(f, vs, id, t, k, ctx);
    RenameMapFacts(f, id, ctx);
    assert Inlineable(fn.body) by { assert CleanFn(fn, ctx.fns); }
    RenameEnds(fn.body, Bind(fn.params, vs), Entry(fn, vs, id, t), RenameMap(fn, id), ctx.consts - Scope(fn), k, tr,
               ctx, d);
  }

  lemma BodyQuiet(f: Ident, vs: seq<int>, tr: Trace, ctx: Ctx, d: nat)
    requires Fit(ctx) && f in ctx.fns && |vs| == |ctx.fns[f].params|
    ensures var fn := ctx.fns[f];
            Quiet(Exec(fn.body, Bind(fn.params, vs), ctx.consts - Scope(fn), tr, ctx, d), tr)
  {
    var fn := ctx.fns[f];
    assert CleanFn(fn, ctx.fns);
    PureExec(fn.body, Bind(fn.params, vs), ctx.consts - Scope(fn), tr, ctx, d);
  }

  lemma RenamedReady(f: Ident, vs: seq<int>, id: nat, t: Vars, k: Vars, ctx: Ctx)
    requires Fit(ctx) && Hygienic(t, k, ctx) && f in ctx.fns && |vs| == |ctx.fns[f].params|
    ensures var fn := ctx.fns[f];
            var body := RenameStmts(fn.body, RenameMap(fn, id));
            var t3 := Entry(fn, vs, id, t);
            && ElimReady(body, id, id + 1, t3, ctx)
            && Hygienic(t3, k, ctx)
            && (forall n | n in Writes(body) :: !n.User? && n.id == id)
  {
    var fn := ctx.fns[f];
    var body := RenameStmts(fn.body, RenameMap(fn, id));
    RenamedBody(f, id, ctx);
    EntryAgree(fn, vs, id, t);
    EntryFlags(fn, vs, id, t);
    HygienicAgree(t, Entry(fn, vs, id, t), id, k, ctx);
    forall g, n | g in ctx.fns && n in Free(ctx.fns[g])
      ensures n !in Writes(body)
    {
      assert CleanFn(ctx.fns[g], ctx.fns);
    }
  }

  lemma EntryFlags(fn: Fn, vs: seq<int>, id: nat, t: Vars)
    requires |fn.params| == |vs|
    ensures Flags(Entry(fn, vs, id, t), id, 0, 0)
  {
  }

  /** A body that writes only names of call `id` leaves older names alone. */
  lemma BodyFrame(body: seq<Stmt>, id: nat, t: Vars, k: Vars, tr: Trace, ctx: Ctx, d: nat)
    requires forall n | n in Writes(body) :: !n.User? && n.id == id
    ensures var p := Exec(body, t, k, tr, ctx, d); (p.Normal? || p.Returned?) ==> Agree(t, p.vars, id)
  {
    var p := Exec(body, t, k, tr, ctx, d);
    forall n | Below(n, id) && (p.Normal? || p.Returned?)
      ensures SameOn(t, p.vars, n)
    {
      Frame(body, t, k, tr, ctx, d, n);
    }
  }

  /** The run of a body, of its renaming and of its elimination, put together. */
  lemma CombineCall(o: Outcome, p: Outcome, q: Outcome, id: nat, t: Vars, t3: Vars, tr: Trace)
    requires Eliminated(p, q, id, id + 1) && Agree(t, t3, id)
    requires (p.Normal? || p.Returned?) ==> Agree(t3, p.vars, id)
    requires SameEnd(o, p) && Quiet(o, tr)
    ensures CalledRun(CallResult(o), q, id, t, tr, id)
  {
    if o.Normal? || o.Returned? {
      AgreeTrans(t, t3, p.vars, id, id);
      forall n | Below(n, id)
        ensures SameOn(t, q.vars, n)
      {
        assert SameOn(t, p.vars, n) && SameOn(p.vars, q.vars, n);
      }
    }
  }

  // ----- return elimination -----

  ghost predicate Flags(t: Vars, id: nat, done: int, result: int) {
    && DoneOf(id) in t && t[DoneOf(id)] == done
    && ResultOf(id) in t && t[ResultOf(id)] == result
  }

  /** Agreement except on the flags of call site `id`. */
  ghost predicate AgreeButFlags(s: Vars, t: Vars, b: nat, id: nat) {
    forall n | Below(n, b) && n != DoneOf(id) && n != ResultOf(id) :: SameOn(s, t, n)
  }

  /** Done stays 0 on falling through; on returning `v`, done is 1 and the result is `v`. */
  ghost predicate Eliminated(o: Outcome, q: Outcome, id: nat, b: nat) {
    match o
    case Stuck => true
    case Thrown => q.Thrown?
    case Normal(s, tr) => q.Normal? && q.tr == tr && Agree(s, q.vars, b) && Flags(q.vars, id, 0, 0)
    case Returned(v, s, tr) => q.Normal? && q.tr == tr && AgreeButFlags(s, q.vars, b, id) && Flags(q.vars, id, 1, v)
    case _ => false
  }

  ghost predicate ElimReady(ss: seq<Stmt>, id: nat, b: nat, t: Vars, ctx: Ctx) {
    && id < b && Inlineable(ss) && SafeList(ss, ctx.fns) && CalleesIn(ss) <= ctx.fns.Keys
    && AllBelow(Mentions(ss), b)
    && ResultOf(id) !in Mentions(ss) && DoneOf(id) !in Mentions(ss)
    && NoFreeWrites(Writes(ss), ctx)
    && Flags(t, id, 0, 0)
  }

  ghost predicate ElimReadyStmt(st: Stmt, id: nat, b: nat, t: Vars, ctx: Ctx) {
    && id < b && InlineableStmt(st) && SafeStmt(st, ctx.fns) && StmtCallees(st) <= ctx.fns.Keys
    && AllBelow(StmtMentions(st), b)
    && ResultOf(id) !in StmtMentions(st) && DoneOf(id) !in StmtMentions(st)
    && NoFreeWrites(StmtWrites(st), ctx)
    && Flags(t, id, 0, 0)
  }

  lemma {:induction false} ElimRuns(ss: seq<Stmt>, id: nat, b: nat, next: nat, s: Vars, t: Vars, k: Vars, tr: Trace,
                                    ctx: Ctx, d: nat)
    requires Ready(s, t, b, next, k, ctx) && ElimReady(ss, id, b, t, ctx)
    requires Eliminate(ss, ctx.fns, id, next).Ok?
    ensures Eliminated(Exec(ss, s, k, tr, ctx, d),
                       Exec(Eliminate(ss, ctx.fns, id, next).value.pre, t, k, tr, Bare(ctx), 0), id, b)
    decreases MAX_INLINE_EXPANSIONS - next, 1, ss, 1
  {
    if ss != [] {
      if ss[0].Return? {
        ElimReturnRuns(ss[0], id, b, next, s, t, k, tr, ctx, d);
      } else if BranchReturns(ss[0]) {
        ElimBranchRuns(ss, id, b, next, s, t, k, tr, ctx, d);
      } else {
        ElimPlainRuns(ss, id, b, next, s, t, k, tr, ctx, d);
      }
    }
  }

  /** After a guard clause the rest runs only while done is 0. */
  lemma {:induction false} ElimBranchRuns(ss: seq<Stmt>, id: nat, b: nat, next: nat, s: Vars, t: Vars, k: Vars, tr: Trace,
                                          ctx: Ctx, d: nat)
    requires Ready(s, t, b, next, k, ctx) && ElimReady(ss, id, b, t, ctx)
    requires ss != [] && !ss[0].Return? && BranchReturns(ss[0])
    requires Eliminate(ss, ctx.fns, id, next).Ok?
    ensures Eliminated(Exec(ss, s, k, tr, ctx, d),
                       Exec(Eliminate(ss, ctx.fns, id, next).value.pre, t, k, tr, Bare(ctx), 0), id, b)
    decreases MAX_INLINE_EXPANSIONS - next, 1, ss, 0
  {
    var h := EliminateIf(ss[0], ctx.fns, id, next).value;
    var hr := Eliminate(ss[1..], ctx.fns, id, h.next).value;
    ExecAppend(h.pre, Guard(id, hr.pre), t, k, tr, Bare(ctx), 0);
    ElimIfRuns(ss[0], id, b, next, s, t, k, tr, ctx, d);
    var o := ExecStmt(ss[0], s, k, tr, ctx, d);
    var q := Exec(h.pre, t, k, tr, Bare(ctx), 0);
    if o.Normal? {
      KeepHygienic(ss[0], s, k, tr, ctx, d);
      ElimRuns(ss[1..], id, b, h.next, o.vars, q.vars, k, o.tr, ctx, d);
      GuardRuns(hr.pre, id, 0, q.vars, k, q.tr, ctx);
    } else if o.Returned? {
      GuardRuns(hr.pre, id, 1, q.vars, k, q.tr, ctx);
    }
  }

  lemma {:induction false} ElimPlainRuns(ss: seq<Stmt>, id: nat, b: nat, next: nat, s: Vars, t: Vars, k: Vars, tr: Trace,
                                         ctx: Ctx, d: nat)
    requires Ready(s, t, b, next, k, ctx) && ElimReady(ss, id, b, t, ctx)
    requires ss != [] && !ss[0].Return? && !BranchReturns(ss[0])
    requires Eliminate(ss, ctx.fns, id, next).Ok?
    ensures Eliminated(Exec(ss, s, k, tr, ctx, d),
                       Exec(Eliminate(ss, ctx.fns, id, next).value.pre, t, k, tr, Bare(ctx), 0), id, b)
    decreases MAX_INLINE_EXPANSIONS - next, 1, ss, 0
  {
    var h := ExpandStmt(ss[0], ctx.fns, next).value;
    var hr := Eliminate(ss[1..], ctx.fns, id, h.next).value;
    ExecAppend(h.pre, hr.pre, t, k, tr, Bare(ctx), 0);
    ExpandStmtRuns(ss[0], b, next, s, t, k, tr, ctx, d);
    PlainStmt(ss[0], s, k, tr, ctx, d);
    var o := ExecStmt(ss[0], s, k, tr, ctx, d);
    var q := Exec(h.pre, t, k, tr, Bare(ctx), 0);
    if o.Normal? {
      KeepHygienic(ss[0], s, k, tr, ctx, d);
      KeepFlags(ss[0], id, b, s, t, q.vars, k, tr, ctx, d);
      ElimRuns(ss[1..], id, b, h.next, o.vars, q.vars, k, o.tr, ctx, d);
    }
  }

  lemma GuardRuns(ss: seq<Stmt>, id: nat, done: int, t: Vars, k: Vars, tr: Trace, ctx: Ctx)
    requires Fit(ctx) && DoneOf(id) in t && t[DoneOf(id)] == done && (done == 0 || done == 1)
    ensures Exec(Guard(id, ss), t, k, tr, Bare(ctx), 0) ==
            if done == 0 then Exec(ss, t, k, tr, Bare(ctx), 0) else Normal(t, tr)
  {
    if ss != [] {
      SingleRuns(Guard(id, ss)[0], t, k, tr, Bare(ctx));
      assert Guard(id, ss) == [Guard(id, ss)[0]];
      assert Eval(Bin(Eq, Var(DoneOf(id)), Lit(0)), t, k, tr, Bare(ctx), 0) == Val(ctx.bin(Eq, done, 0), tr);
    }
  }

  lemma SingleRuns(s: Stmt, t: Vars, k: Vars, tr: Trace, ctx: Ctx)
    ensures Exec([s], t, k, tr, ctx, 0) == ExecStmt(s, t, k, tr, ctx, 0)
  {
  }

  lemma KeepHygienic(st: Stmt, s: Vars, k: Vars, tr: Trace, ctx: Ctx, d: nat)
    requires Hygienic(s, k, ctx) && NoFreeWrites(StmtWrites(st), ctx)
    ensures var o := ExecStmt(st, s, k, tr, ctx, d);
            (o.Normal? || o.Broke? || o.Continued? || o.Returned?) ==> Hygienic(o.vars, k, ctx)
  {
    var o := ExecStmt(st, s, k, tr, ctx, d);
    forall f, n | f in ctx.fns && n in Free(ctx.fns[f])
      ensures (o.Normal? || o.Broke? || o.Continued? || o.Returned?) ==> n !in o.vars
    {
      StmtFrame(st, s, k, tr, ctx, d, n);
    }
  }

  lemma KeepFlags(st: Stmt, id: nat, b: nat, s: Vars, t: Vars, t1: Vars, k: Vars, tr: Trace, ctx: Ctx, d: nat)
    requires id < b && Agree(s, t, b) && Flags(t, id, 0, 0)
    requires ResultOf(id) !in StmtMentions(st) && DoneOf(id) !in StmtMentions(st)
    requires var o := ExecStmt(st, s, k, tr, ctx, d); o.Normal? && Agree(o.vars, t1, b)
    ensures Flags(t1, id, 0, 0)
  {
    StmtWritesMentioned(st);
    StmtFrame(st, s, k, tr, ctx, d, ResultOf(id));
    StmtFrame(st, s, k, tr, ctx, d, DoneOf(id));
    assert SameOn(s, t, ResultOf(id)) && SameOn(s, t, DoneOf(id));
    var o := ExecStmt(st, s, k, tr, ctx, d);
    assert SameOn(o.vars, t1, ResultOf(id)) && SameOn(o.vars, t1, DoneOf(id));
  }

  lemma {:induction false} ElimReturnRuns(st: Stmt, id: nat, b: nat, next: nat, s: Vars, t: Vars, k: Vars, tr: Trace,
                                          ctx: Ctx, d: nat)
    requires Ready(s, t, b, next, k, ctx) && st.Return? && ElimReadyStmt(st, id, b, t, ctx)
    requires EliminateReturn(st, ctx.fns, id, next).Ok?
    ensures Eliminated(ExecStmt(st, s, k, tr, ctx, d),
                       Exec(EliminateReturn(st, ctx.fns, id, next).value.pre, t, k, tr, Bare(ctx), 0), id, b)
    decreases MAX_INLINE_EXPANSIONS - next, 1, st, 2
  {
    match st.arg
    case None => SingleRuns(SetDone(id)[0], t, k, tr, Bare(ctx));
    case Some(e) =>
      assert st == Return(Some(e));
      ElimValueRuns(e, id, b, next, s, t, k, tr, ctx, d);
  }

  lemma {:induction false} ElimValueRuns(e: Expr, id: nat, b: nat, next: nat, s: Vars, t: Vars, k: Vars, tr: Trace,
                                         ctx: Ctx, d: nat)
    requires Ready(s, t, b, next, k, ctx) && ElimReadyStmt(Return(Some(e)), id, b, t, ctx)
    requires EliminateReturn(Return(Some(e)), ctx.fns, id, next).Ok?
    ensures Eliminated(ExecStmt(Return(Some(e)), s, k, tr, ctx, d),
                       Exec(EliminateReturn(Return(Some(e)), ctx.fns, id, next).value.pre, t, k, tr, Bare(ctx), 0), id, b)
    decreases MAX_INLINE_EXPANSIONS - next, 1, Return(Some(e)), 1
  {
    var bare, h := Bare(ctx), HoistExpr(e, ctx.fns, next).value;
    HoistRuns(e, b, next, s, t, k, tr, ctx, d);
    assert h.pre + SetResult(id, h.rest) + SetDone(id) == h.pre + (SetResult(id, h.rest) + SetDone(id));
    ExecAppend(h.pre, SetResult(id, h.rest) + SetDone(id), t, k, tr, bare, 0);
    var r, o := Eval(e, s, k, tr, ctx, d), Exec(h.pre, t, k, tr, bare, 0);
    if r.Val? {
      assert SameOn(t, o.vars, ResultOf(id)) && SameOn(t, o.vars, DoneOf(id));
      ResultSet(id, h.rest, o.vars, k, o.tr, bare);
      AgreeTrans(s, t, o.vars, b, next);
    }
  }

  /** Storing a value in the result and raising the flag. */
  lemma ResultSet(id: nat, e: Expr, t: Vars, k: Vars, tr: Trace, ctx: Ctx)
    requires Flags(t, id, 0, 0)
    ensures var r := Eval(e, t, k, tr, ctx, 0);
            r.Val? ==> Exec(SetResult(id, e) + SetDone(id), t, k, tr, ctx, 0) ==
                       Normal(t[ResultOf(id) := r.v][DoneOf(id) := 1], r.tr)
  {
    ExecAppend(SetResult(id, e), SetDone(id), t, k, tr, ctx, 0);
    SingleRuns(SetResult(id, e)[0], t, k, tr, ctx);
    var r := Eval(e, t, k, tr, ctx, 0);
    if r.Val? {
      SingleRuns(SetDone(id)[0], t[ResultOf(id) := r.v], k, r.tr, ctx);
    }
  }

  lemma {:induction false} ElimIfRuns(st: Stmt, id: nat, b: nat, next: nat, s: Vars, t: Vars, k: Vars, tr: Trace,
                                      ctx: Ctx, d: nat)
    requires Ready(s, t, b, next, k, ctx) && st.If? && ElimReadyStmt(st, id, b, t, ctx)
    requires EliminateIf(st, ctx.fns, id, next).Ok?
    ensures Eliminated(ExecStmt(st, s, k, tr, ctx, d),
                       Exec(EliminateIf(st, ctx.fns, id, next).value.pre, t, k, tr, Bare(ctx), 0), id, b)
    decreases MAX_INLINE_EXPANSIONS - next, 1, st, 2
  {
    var m := ctx.fns;
    var hc := HoistExpr(st.c, m, next).value;
    var ht := Eliminate(st.thn, m, id, hc.next).value;
    var he := Eliminate(st.els, m, id, ht.next).value;
    var branch := If(hc.rest, ht.pre, he.pre);
    HoistRuns(st.c, b, next, s, t, k, tr, ctx, d);
    ExecAppend(hc.pre, [branch], t, k, tr, Bare(ctx), 0);
    var r := Eval(st.c, s, k, tr, ctx, d);
    if r.Val? {
      var t1 := Exec(hc.pre, t, k, tr, Bare(ctx), 0).vars;
      AgreeTrans(s, t, t1, b, next);
      assert SameOn(t, t1, ResultOf(id)) && SameOn(t, t1, DoneOf(id));
      SingleRuns(branch, t1, k, tr, Bare(ctx));
      if r.v != 0 {
        ElimRuns(st.thn, id, b, hc.next, s, t1, k, tr, ctx, d);
      } else {
        ElimRuns(st.els, id, b, ht.next, s, t1, k, tr, ctx, d);
      }
    }
  }

  // ----- statements of a caller -----

  /** The original and expanded runs end alike, or the original was stuck. */
  ghost predicate OutAgree(o: Outcome, q: Outcome, b: nat) {
    match o
    case Stuck => true
    case Normal(s, tr) => q.Normal? && q.tr == tr && Agree(s, q.vars, b)
    case Broke(s, tr) => q.Broke? && q.tr == tr && Agree(s, q.vars, b)
    case Continued(s, tr) => q.Continued? && q.tr == tr && Agree(s, q.vars, b)
    case Returned(v, s, tr) => q.Returned? && q.v == v && q.tr == tr && Agree(s, q.vars, b)
    case Thrown => q.Thrown?
    case Diverged => q.Diverged?
  }

  /** Hoisted code and residue do what a safe expression does, and until the residue nothing
      outside has been called and no older name touched. */
  ghost predicate SafeRun(r: EvalResult, h: Hoisted<Expr>, b: nat, id: nat, s: Vars, t: Vars, k: Vars, tr: Trace, ctx: Ctx) {
    var o := Exec(h.pre, t, k, tr, Bare(ctx), 0);
    r.EStuck? || (PreEval(h, t, k, tr, ctx) == r && (o.Normal? ==> o.tr == tr && Agree(t, o.vars, id) && Agree(s, o.vars, b)))
  }

  /** The same of an argument list. */
  function PreArgs(h: Hoisted<seq<Expr>>, t: Vars, k: Vars, tr: Trace, ctx: Ctx): ArgsResult {
    match Exec(h.pre, t, k, tr, Bare(ctx), 0)
    case Normal(t1, tr1) => EvalArgs(h.rest, t1, k, tr1, Bare(ctx), 0)
    case Thrown => AThrown
    case _ => AStuck
  }

  ghost predicate SafeArgsRun(r: ArgsResult, h: Hoisted<seq<Expr>>, b: nat, id: nat, s: Vars, t: Vars, k: Vars, tr: Trace, ctx: Ctx) {
    var o := Exec(h.pre, t, k, tr, Bare(ctx), 0);
    r.AStuck? || (PreArgs(h, t, k, tr, ctx) == r && (o.Normal? ==> o.tr == tr && Agree(t, o.vars, id) && Agree(s, o.vars, b)))
  }

  lemma {:induction false} ExprRuns(e: Expr, b: nat, id: nat, s: Vars, t: Vars, k: Vars, tr: Trace, ctx: Ctx, d: nat)
    requires Ready(s, t, b, id, k, ctx)
    requires SafeExpr(e, ctx.fns) && AllBelow(Reads(e), b)
    requires HoistExpr(e, ctx.fns, id).Ok?
    ensures SafeRun(Eval(e, s, k, tr, ctx, d), HoistExpr(e, ctx.fns, id).value, b, id, s, t, k, tr, ctx)
    decreases MAX_INLINE_EXPANSIONS - id, 1, e, 3
  {
    if Callees(e) !! ctx.fns.Keys {
      HoistNoCall(e, ctx.fns, id);
      EvalAgree(e, s, t, b, k, tr, ctx, d, 0);
    } else if Callees(e) <= ctx.fns.Keys {
      HoistRuns(e, b, id, s, t, k, tr, ctx, d);
      AsSafeRun(Eval(e, s, k, tr, ctx, d), HoistExpr(e, ctx.fns, id).value, b, id, s, t, k, tr, ctx);
    } else {
      MixedRuns(e, b, id, s, t, k, tr, ctx, d);
    }
  }

  lemma AsSafeRun(r: EvalResult, h: Hoisted<Expr>, b: nat, id: nat, s: Vars, t: Vars, k: Vars, tr: Trace, ctx: Ctx)
    requires b <= id && Agree(s, t, b) && HoistedRun(r, h, id, t, k, tr, ctx)
    ensures SafeRun(r, h, b, id, s, t, k, tr, ctx)
  {
    if r.Val? {
      AgreeTrans(s, t, Exec(h.pre, t, k, tr, Bare(ctx), 0).vars, b, id);
    }
  }

  /** Inline calls and outside ones. */
  lemma {:induction false} MixedRuns(e: Expr, b: nat, id: nat, s: Vars, t: Vars, k: Vars, tr: Trace, ctx: Ctx, d: nat)
    requires Ready(s, t, b, id, k, ctx)
    requires SafeExpr(e, ctx.fns) && !(Callees(e) !! ctx.fns.Keys) && !(Callees(e) <= ctx.fns.Keys)
    requires AllBelow(Reads(e), b) && HoistExpr(e, ctx.fns, id).Ok?
    ensures SafeRun(Eval(e, s, k, tr, ctx, d), HoistExpr(e, ctx.fns, id).value, b, id, s, t, k, tr, ctx)
    decreases MAX_INLINE_EXPANSIONS - id, 1, e, 2
  {
    match e
    case Un(op, e1) => SafeUn(op, e1, b, id, s, t, k, tr, ctx, d);
    case Bin(op, l, r) =>
      if Callees(l) <= ctx.fns.Keys && SafeExpr(r, ctx.fns) {
        InlineThenSafe(op, l, r, b, id, s, t, k, tr, ctx, d);
      } else {
        SafeThenPlain(op, l, r, b, id, s, t, k, tr, ctx, d);
      }
    case Logic(isAnd, l, r) => SafeLogic(isAnd, l, r, b, id, s, t, k, tr, ctx, d);
    case Cond(c, thn, els) => SafeCond(c, thn, els, b, id, s, t, k, tr, ctx, d);
    case Call(f, args) => SafeCall(f, args, b, id, s, t, k, tr, ctx, d);
  }

  lemma {:induction false} SafeUn(op: UnOp, e: Expr, b: nat, id: nat, s: Vars, t: Vars, k: Vars, tr: Trace, ctx: Ctx, d: nat)
    requires Ready(s, t, b, id, k, ctx) && SafeExpr(e, ctx.fns)
    requires AllBelow(Reads(e), b) && HoistExpr(Un(op, e), ctx.fns, id).Ok?
    ensures SafeRun(Eval(Un(op, e), s, k, tr, ctx, d), HoistExpr(Un(op, e), ctx.fns, id).value, b, id, s, t, k, tr, ctx)
    decreases MAX_INLINE_EXPANSIONS - id, 1, Un(op, e), 1
  {
    ExprRuns(e, b, id, s, t, k, tr, ctx, d);
  }

  /** Left side inline calls only: its residue is the same wherever it is evaluated. */
  lemma {:induction false} InlineThenSafe(op: BinOp, l: Expr, r: Expr, b: nat, id: nat, s: Vars, t: Vars, k: Vars,
                                          tr: Trace, ctx: Ctx, d: nat)
    requires Ready(s, t, b, id, k, ctx) && Callees(l) <= ctx.fns.Keys && SafeExpr(r, ctx.fns)
    requires AllBelow(Reads(l), b) && AllBelow(Reads(r), b) && HoistExpr(Bin(op, l, r), ctx.fns, id).Ok?
    ensures SafeRun(Eval(Bin(op, l, r), s, k, tr, ctx, d), HoistExpr(Bin(op, l, r), ctx.fns, id).value,
                    b, id, s, t, k, tr, ctx)
    decreases MAX_INLINE_EXPANSIONS - id, 1, Bin(op, l, r), 1
  {
    var hl := HoistExpr(l, ctx.fns, id).value;
    var hr := HoistExpr(r, ctx.fns, hl.next).value;
    HoistRuns(l, b, id, s, t, k, tr, ctx, d);
    HoistShape(l, ctx.fns, id);
    if Eval(l, s, k, tr, ctx, d).Val? {
      ExprRuns(r, b, hl.next, s, Exec(hl.pre, t, k, tr, Bare(ctx), 0).vars, k, tr, ctx, d);
    }
    JoinBin(op, l, r, hl, hr, b, id, s, t, k, tr, ctx, d);
  }

  lemma JoinBin(op: BinOp, l: Expr, r: Expr, hl: Hoisted<Expr>, hr: Hoisted<Expr>, b: nat, id: nat, s: Vars, t: Vars,
                k: Vars, tr: Trace, ctx: Ctx, d: nat)
    requires id <= hl.next && AllBelow(Reads(hl.rest), hl.next)
    requires HoistedRun(Eval(l, s, k, tr, ctx, d), hl, id, t, k, tr, ctx)
    requires Eval(l, s, k, tr, ctx, d).Val? ==>
               SafeRun(Eval(r, s, k, tr, ctx, d), hr, b, hl.next, s, Exec(hl.pre, t, k, tr, Bare(ctx), 0).vars, k, tr, ctx)
    ensures SafeRun(Eval(Bin(op, l, r), s, k, tr, ctx, d), Hoisted(hl.pre + hr.pre, Bin(op, hl.rest, hr.rest), hr.next),
                    b, id, s, t, k, tr, ctx)
  {
    ExecAppend(hl.pre, hr.pre, t, k, tr, Bare(ctx), 0);
    if Eval(l, s, k, tr, ctx, d).Val? {
      var t1 := Exec(hl.pre, t, k, tr, Bare(ctx), 0).vars;
      var o := Exec(hr.pre, t1, k, tr, Bare(ctx), 0);
      if o.Normal? && !Eval(r, s, k, tr, ctx, d).EStuck? {
        EvalAgree(hl.rest, t1, o.vars, hl.next, k, tr, Bare(ctx), 0, 0);
        AgreeTrans(t, t1, o.vars, id, hl.next);
        BinAfter(op, l, hl.rest, r, hr.rest, s, o.vars, k, tr, o.tr, ctx, d);
      }
    }
  }

  lemma BinAfter(op: BinOp, l: Expr, l2: Expr, r: Expr, r2: Expr, s: Vars, t: Vars, k: Vars, tr: Trace, tr2: Trace,
                 ctx: Ctx, d: nat)
    requires Eval(l2, t, k, tr2, Bare(ctx), 0) == Eval(l, s, k, tr, ctx, d)
    requires var v := Eval(l, s, k, tr, ctx, d); v.Val? ==> Eval(r2, t, k, v.tr, Bare(ctx), 0) == Eval(r, s, k, v.tr, ctx, d)
    ensures Eval(Bin(op, l2, r2), t, k, tr2, Bare(ctx), 0) == Eval(Bin(op, l, r), s, k, tr, ctx, d)
  {
  }

  /** Right side without inline calls: it is left where it is. */
  lemma {:induction false} SafeThenPlain(op: BinOp, l: Expr, r: Expr, b: nat, id: nat, s: Vars, t: Vars, k: Vars,
                                         tr: Trace, ctx: Ctx, d: nat)
    requires Ready(s, t, b, id, k, ctx) && SafeExpr(l, ctx.fns) && Callees(r) !! ctx.fns.Keys
    requires AllBelow(Reads(l), b) && AllBelow(Reads(r), b) && HoistExpr(Bin(op, l, r), ctx.fns, id).Ok?
    ensures SafeRun(Eval(Bin(op, l, r), s, k, tr, ctx, d), HoistExpr(Bin(op, l, r), ctx.fns, id).value,
                    b, id, s, t, k, tr, ctx)
    decreases MAX_INLINE_EXPANSIONS - id, 1, Bin(op, l, r), 1
  {
    var h := HoistExpr(l, ctx.fns, id).value;
    HoistNoCall(r, ctx.fns, h.next);
    assert h.pre + [] == h.pre;
    ExprRuns(l, b, id, s, t, k, tr, ctx, d);
    var v, o := Eval(l, s, k, tr, ctx, d), Exec(h.pre, t, k, tr, Bare(ctx), 0);
    if o.Normal? && !v.EStuck? {
      if v.Val? {
        EvalAgree(r, s, o.vars, b, k, v.tr, ctx, d, 0);
      }
      BinAfter(op, l, h.rest, r, r, s, o.vars, k, tr, o.tr, ctx, d);
    }
  }

  lemma {:induction false} SafeLogic(isAnd: bool, l: Expr, r: Expr, b: nat, id: nat, s: Vars, t: Vars, k: Vars,
                                     tr: Trace, ctx: Ctx, d: nat)
    requires Ready(s, t, b, id, k, ctx) && SafeExpr(l, ctx.fns) && Callees(r) !! ctx.fns.Keys
    requires AllBelow(Reads(l), b) && AllBelow(Reads(r), b) && HoistExpr(Logic(isAnd, l, r), ctx.fns, id).Ok?
    ensures SafeRun(Eval(Logic(isAnd, l, r), s, k, tr, ctx, d), HoistExpr(Logic(isAnd, l, r), ctx.fns, id).value,
                    b, id, s, t, k, tr, ctx)
    decreases MAX_INLINE_EXPANSIONS - id, 1, Logic(isAnd, l, r), 1
  {
    var h := HoistExpr(l, ctx.fns, id).value;
    ExprRuns(l, b, id, s, t, k, tr, ctx, d);
    var v, o := Eval(l, s, k, tr, ctx, d), Exec(h.pre, t, k, tr, Bare(ctx), 0);
    if o.Normal? && !v.EStuck? {
      if v.Val? {
        EvalAgree(r, s, o.vars, b, k, v.tr, ctx, d, 0);
      }
      LogicAfter(isAnd, l, h.rest, r, s, o.vars, k, tr, o.tr, ctx, d);
    }
  }

  lemma LogicAfter(isAnd: bool, l: Expr, l2: Expr, r: Expr, s: Vars, t: Vars, k: Vars, tr: Trace, tr2: Trace, ctx: Ctx, d: nat)
    requires Eval(l2, t, k, tr2, Bare(ctx), 0) == Eval(l, s, k, tr, ctx, d)
    requires var v := Eval(l, s, k, tr, ctx, d); v.Val? ==> Eval(r, t, k, v.tr, Bare(ctx), 0) == Eval(r, s, k, v.tr, ctx, d)
    ensures Eval(Logic(isAnd, l2, r), t, k, tr2, Bare(ctx), 0) == Eval(Logic(isAnd, l, r), s, k, tr, ctx, d)
  {
  }

  lemma {:induction false} SafeCond(c: Expr, thn: Expr, els: Expr, b: nat, id: nat, s: Vars, t: Vars, k: Vars,
                                    tr: Trace, ctx: Ctx, d: nat)
    requires Ready(s, t, b, id, k, ctx)
    requires SafeExpr(c, ctx.fns) && Callees(thn) !! ctx.fns.Keys && Callees(els) !! ctx.fns.Keys
    requires AllBelow(Reads(c), b) && AllBelow(Reads(thn), b) && AllBelow(Reads(els), b)
    requires HoistExpr(Cond(c, thn, els), ctx.fns, id).Ok?
    ensures SafeRun(Eval(Cond(c, thn, els), s, k, tr, ctx, d), HoistExpr(Cond(c, thn, els), ctx.fns, id).value,
                    b, id, s, t, k, tr, ctx)
    decreases MAX_INLINE_EXPANSIONS - id, 1, Cond(c, thn, els), 1
  {
    var h := HoistExpr(c, ctx.fns, id).value;
    ExprRuns(c, b, id, s, t, k, tr, ctx, d);
    var v, o := Eval(c, s, k, tr, ctx, d), Exec(h.pre, t, k, tr, Bare(ctx), 0);
    if o.Normal? && !v.EStuck? {
      if v.Val? {
        EvalAgree(if v.v != 0 then thn else els, s, o.vars, b, k, v.tr, ctx, d, 0);
      }
      CondAfter(c, h.rest, thn, els, s, o.vars, k, tr, o.tr, ctx, d);
    }
  }

  lemma CondAfter(c: Expr, c2: Expr, thn: Expr, els: Expr, s: Vars, t: Vars, k: Vars, tr: Trace, tr2: Trace, ctx: Ctx, d: nat)
    requires Eval(c2, t, k, tr2, Bare(ctx), 0) == Eval(c, s, k, tr, ctx, d)
    requires var v := Eval(c, s, k, tr, ctx, d);
             v.Val? ==> var e := if v.v != 0 then thn else els;
                        Eval(e, t, k, v.tr, Bare(ctx), 0) == Eval(e, s, k, v.tr, ctx, d)
    ensures Eval(Cond(c2, thn, els), t, k, tr2, Bare(ctx), 0) == Eval(Cond(c, thn, els), s, k, tr, ctx, d)
  {
  }

  /** An outside call of hoisted arguments. */
  lemma {:induction false} SafeCall(f: Ident, args: seq<Expr>, b: nat, id: nat, s: Vars, t: Vars, k: Vars, tr: Trace, ctx: Ctx, d: nat)
    requires Ready(s, t, b, id, k, ctx) && f !in ctx.fns && SafeArgs(args, ctx.fns)
    requires AllBelow(ArgReads(args), b) && HoistExpr(Call(f, args), ctx.fns, id).Ok?
    ensures SafeRun(Eval(Call(f, args), s, k, tr, ctx, d), HoistExpr(Call(f, args), ctx.fns, id).value,
                    b, id, s, t, k, tr, ctx)
    decreases MAX_INLINE_EXPANSIONS - id, 1, Call(f, args), 1
  {
    SafeArgsRuns(args, b, id, s, t, k, tr, ctx, d);
    var ha := HoistArgs(args, ctx.fns, id).value;
    assert HoistExpr(Call(f, args), ctx.fns, id).value == Hoisted(ha.pre, Call(f, ha.rest), ha.next);
    var a := EvalArgs(args, s, k, tr, ctx, d);
    if a.Vals? {
      assert Invoke(f, a.vs, a.tr, Bare(ctx), 0) == Invoke(f, a.vs, a.tr, ctx, d);
    }
  }

  lemma {:induction false} SafeArgsRuns(args: seq<Expr>, b: nat, id: nat, s: Vars, t: Vars, k: Vars, tr: Trace, ctx: Ctx, d: nat)
    requires Ready(s, t, b, id, k, ctx) && SafeArgs(args, ctx.fns)
    requires AllBelow(ArgReads(args), b) && HoistArgs(args, ctx.fns, id).Ok?
    ensures SafeArgsRun(EvalArgs(args, s, k, tr, ctx, d), HoistArgs(args, ctx.fns, id).value, b, id, s, t, k, tr, ctx)
    decreases MAX_INLINE_EXPANSIONS - id, 1, args, 2
  {
    if args != [] {
      if Callees(args[0]) <= ctx.fns.Keys && SafeArgs(args[1..], ctx.fns) {
        InlineThenArgs(args, b, id, s, t, k, tr, ctx, d);
      } else {
        SafeThenArgs(args, b, id, s, t, k, tr, ctx, d);
      }
    }
  }

  lemma {:induction false} InlineThenArgs(args: seq<Expr>, b: nat, id: nat, s: Vars, t: Vars, k: Vars, tr: Trace, ctx: Ctx, d: nat)
    requires Ready(s, t, b, id, k, ctx) && args != [] && Callees(args[0]) <= ctx.fns.Keys && SafeArgs(args[1..], ctx.fns)
    requires AllBelow(ArgReads(args), b) && HoistArgs(args, ctx.fns, id).Ok?
    ensures SafeArgsRun(EvalArgs(args, s, k, tr, ctx, d), HoistArgs(args, ctx.fns, id).value, b, id, s, t, k, tr, ctx)
    decreases MAX_INLINE_EXPANSIONS - id, 1, args, 1
  {
    var h := HoistExpr(args[0], ctx.fns, id).value;
    var hs := HoistArgs(args[1..], ctx.fns, h.next).value;
    HoistRuns(args[0], b, id, s, t, k, tr, ctx, d);
    HoistShape(args[0], ctx.fns, id);
    if Eval(args[0], s, k, tr, ctx, d).Val? {
      SafeArgsRuns(args[1..], b, h.next, s, Exec(h.pre, t, k, tr, Bare(ctx), 0).vars, k, tr, ctx, d);
    }
    JoinArgs(args, h, hs, b, id, s, t, k, tr, ctx, d);
  }

  lemma JoinArgs(args: seq<Expr>, h: Hoisted<Expr>, hs: Hoisted<seq<Expr>>, b: nat, id: nat, s: Vars, t: Vars, k: Vars,
                 tr: Trace, ctx: Ctx, d: nat)
    requires args != [] && id <= h.next && AllBelow(Reads(h.rest), h.next)
    requires HoistedRun(Eval(args[0], s, k, tr, ctx, d), h, id, t, k, tr, ctx)
    requires Eval(args[0], s, k, tr, ctx, d).Val? ==>
               SafeArgsRun(EvalArgs(args[1..], s, k, tr, ctx, d), hs, b, h.next, s,
                           Exec(h.pre, t, k, tr, Bare(ctx), 0).vars, k, tr, ctx)
    ensures SafeArgsRun(EvalArgs(args, s, k, tr, ctx, d), Hoisted(h.pre + hs.pre, [h.rest] + hs.rest, hs.next),
                        b, id, s, t, k, tr, ctx)
  {
    ExecAppend(h.pre, hs.pre, t, k, tr, Bare(ctx), 0);
    if Eval(args[0], s, k, tr, ctx, d).Val? {
      var t1 := Exec(h.pre, t, k, tr, Bare(ctx), 0).vars;
      var o := Exec(hs.pre, t1, k, tr, Bare(ctx), 0);
      if o.Normal? && !EvalArgs(args[1..], s, k, tr, ctx, d).AStuck? {
        EvalAgree(h.rest, t1, o.vars, h.next, k, tr, Bare(ctx), 0, 0);
        AgreeTrans(t, t1, o.vars, id, h.next);
        ArgsAfter(args, h.rest, hs.rest, s, o.vars, k, tr, o.tr, ctx, d);
      }
    }
  }

  lemma ArgsAfter(args: seq<Expr>, a2: Expr, rest2: seq<Expr>, s: Vars, t: Vars, k: Vars, tr: Trace, tr2: Trace, ctx: Ctx, d: nat)
    requires args != [] && Eval(a2, t, k, tr2, Bare(ctx), 0) == Eval(args[0], s, k, tr, ctx, d)
    requires var v := Eval(args[0], s, k, tr, ctx, d);
             v.Val? ==> EvalArgs(rest2, t, k, v.tr, Bare(ctx), 0) == EvalArgs(args[1..], s, k, v.tr, ctx, d)
    ensures EvalArgs([a2] + rest2, t, k, tr2, Bare(ctx), 0) == EvalArgs(args, s, k, tr, ctx, d)
  {
    assert ([a2] + rest2)[1..] == rest2;
  }

  lemma {:induction false} SafeThenArgs(args: seq<Expr>, b: nat, id: nat, s: Vars, t: Vars, k: Vars, tr: Trace, ctx: Ctx, d: nat)
    requires Ready(s, t, b, id, k, ctx) && args != [] && SafeExpr(args[0], ctx.fns) && ArgCallees(args[1..]) !! ctx.fns.Keys
    requires AllBelow(ArgReads(args), b) && HoistArgs(args, ctx.fns, id).Ok?
    ensures SafeArgsRun(EvalArgs(args, s, k, tr, ctx, d), HoistArgs(args, ctx.fns, id).value, b, id, s, t, k, tr, ctx)
    decreases MAX_INLINE_EXPANSIONS - id, 1, args, 1
  {
    var h := HoistExpr(args[0], ctx.fns, id).value;
    HoistArgsNoCall(args[1..], ctx.fns, h.next);
    assert h.pre + [] == h.pre;
    ExprRuns(args[0], b, id, s, t, k, tr, ctx, d);
    var v, o := Eval(args[0], s, k, tr, ctx, d), Exec(h.pre, t, k, tr, Bare(ctx), 0);
    if o.Normal? && !v.EStuck? {
      if v.Val? {
        EvalArgsAgree(args[1..], s, o.vars, b, k, v.tr, ctx, d, 0);
      }
      ArgsAfter(args, h.rest, args[1..], s, o.vars, k, tr, o.tr, ctx, d);
    }
  }

  ghost predicate StmtReady(st: Stmt, b: nat, ctx: Ctx) {
    SafeStmt(st, ctx.fns) && AllBelow(StmtMentions(st), b) && NoFreeWrites(StmtWrites(st), ctx)
  }

  ghost predicate ListReady(ss: seq<Stmt>, b: nat, ctx: Ctx) {
    SafeList(ss, ctx.fns) && AllBelow(Mentions(ss), b) && NoFreeWrites(Writes(ss), ctx)
  }

  lemma {:induction false} ExpandListRuns(ss: seq<Stmt>, b: nat, id: nat, s: Vars, t: Vars, k: Vars, tr: Trace,
                                          ctx: Ctx, d: nat)
    requires Ready(s, t, b, id, k, ctx) && ListReady(ss, b, ctx)
    requires ExpandList(ss, ctx.fns, id).Ok?
    ensures OutAgree(Exec(ss, s, k, tr, ctx, d),
                     Exec(ExpandList(ss, ctx.fns, id).value.pre, t, k, tr, Bare(ctx), 0), b)
    decreases MAX_INLINE_EXPANSIONS - id, 1, ss, 0
  {
    if ss != [] {
      var m := ctx.fns;
      var h := ExpandStmt(ss[0], m, id).value;
      var hs := ExpandList(ss[1..], m, h.next).value;
      ExecAppend(h.pre, hs.pre, t, k, tr, Bare(ctx), 0);
      ExpandStmtRuns(ss[0], b, id, s, t, k, tr, ctx, d);
      var o := ExecStmt(ss[0], s, k, tr, ctx, d);
      if o.Normal? {
        KeepHygienic(ss[0], s, k, tr, ctx, d);
        var q := Exec(h.pre, t, k, tr, Bare(ctx), 0);
        ExpandListRuns(ss[1..], b, h.next, o.vars, q.vars, k, o.tr, ctx, d);
      }
    }
  }

  lemma {:induction false} ExpandStmtRuns(st: Stmt, b: nat, id: nat, s: Vars, t: Vars, k: Vars, tr: Trace,
                                          ctx: Ctx, d: nat)
    requires Ready(s, t, b, id, k, ctx) && StmtReady(st, b, ctx)
    requires ExpandStmt(st, ctx.fns, id).Ok?
    ensures OutAgree(ExecStmt(st, s, k, tr, ctx, d),
                     Exec(ExpandStmt(st, ctx.fns, id).value.pre, t, k, tr, Bare(ctx), 0), b)
    decreases MAX_INLINE_EXPANSIONS - id, 1, st, 5
  {
    if st.If? {
      IfRuns(st, b, id, s, t, k, tr, ctx, d);
    } else if st.While? {
      WhileRuns(st, b, id, s, t, k, tr, ctx, d);
    } else if st.For? {
      ForRuns(st, b, id, s, t, k, tr, ctx, d);
    } else if st.Decl? {
      DeclRuns(st, b, id, s, t, k, tr, ctx, d);
    } else if st.Eff? && st.e.Call? && st.e.callee in ctx.fns {
      DiscardedRuns(st, b, id, s, t, k, tr, ctx, d);
    } else if st.Assign? || st.OpAssign? || st.Eff? || st.Throw? || (st.Return? && st.arg.Some?) {
      OneExprRuns(st, b, id, s, t, k, tr, ctx, d);
    } else {
      assert ExpandStmt(st, ctx.fns, id).value.pre == [st];
      SingleRuns(st, t, k, tr, Bare(ctx));
      if st.Update? {
        assert SameOn(s, t, st.x);
      }
    }
  }

  function OwnExpr(st: Stmt): Expr
    requires st.Assign? || st.OpAssign? || st.Eff? || st.Throw? || (st.Return? && st.arg.Some?)
  {
    if st.Return? then st.arg.value else st.e
  }

  function WithExpr(st: Stmt, e: Expr): Stmt
    requires st.Assign? || st.OpAssign? || st.Eff? || st.Throw? || (st.Return? && st.arg.Some?)
  {
    if st.Return? then Return(Some(e)) else st.(e := e)
  }

  lemma {:induction false} OneExprRuns(st: Stmt, b: nat, id: nat, s: Vars, t: Vars, k: Vars, tr: Trace, ctx: Ctx, d: nat)
    requires Ready(s, t, b, id, k, ctx) && StmtReady(st, b, ctx)
    requires st.Assign? || st.OpAssign? || st.Eff? || st.Throw? || (st.Return? && st.arg.Some?)
    requires !(st.Eff? && st.e.Call? && st.e.callee in ctx.fns)
    requires ExpandStmt(st, ctx.fns, id).Ok?
    ensures OutAgree(ExecStmt(st, s, k, tr, ctx, d),
                     Exec(ExpandStmt(st, ctx.fns, id).value.pre, t, k, tr, Bare(ctx), 0), b)
    decreases MAX_INLINE_EXPANSIONS - id, 1, st, 4
  {
    var e := OwnExpr(st);
    assert WithExpr(st, e) == st;
    var h := HoistExpr(e, ctx.fns, id).value;
    assert ExpandStmt(st, ctx.fns, id).value.pre == h.pre + [WithExpr(st, h.rest)];
    HoistedRuns(st, b, id, s, t, k, tr, ctx, d);
  }

  lemma {:induction false} HoistedRuns(st: Stmt, b: nat, id: nat, s: Vars, t: Vars, k: Vars, tr: Trace, ctx: Ctx, d: nat)
    requires Ready(s, t, b, id, k, ctx) && StmtReady(st, b, ctx)
    requires st.Assign? || st.OpAssign? || st.Eff? || st.Throw? || (st.Return? && st.arg.Some?)
    requires HoistExpr(OwnExpr(st), ctx.fns, id).Ok?
    ensures var h := HoistExpr(OwnExpr(st), ctx.fns, id).value;
            OutAgree(ExecStmt(st, s, k, tr, ctx, d),
                     Exec(h.pre + [WithExpr(st, h.rest)], t, k, tr, Bare(ctx), 0), b)
    decreases MAX_INLINE_EXPANSIONS - id, 1, st, 3
  {
    var e := OwnExpr(st);
    ExprRuns(e, b, id, s, t, k, tr, ctx, d);
    SafeFinish(st, HoistExpr(e, ctx.fns, id).value, b, id, s, t, k, tr, ctx, d);
  }

  /** Hoisted code, then the statement with what is left of its expression. */
  lemma SafeFinish(st: Stmt, h: Hoisted<Expr>, b: nat, id: nat, s: Vars, t: Vars, k: Vars, tr: Trace, ctx: Ctx, d: nat)
    requires st.Assign? || st.OpAssign? || st.Eff? || st.Throw? || (st.Return? && st.arg.Some?)
    requires AllBelow(StmtMentions(st), b) && SafeRun(Eval(OwnExpr(st), s, k, tr, ctx, d), h, b, id, s, t, k, tr, ctx)
    ensures OutAgree(ExecStmt(st, s, k, tr, ctx, d), Exec(h.pre + [WithExpr(st, h.rest)], t, k, tr, Bare(ctx), 0), b)
  {
    assert WithExpr(st, OwnExpr(st)) == st;
    ExecAppend(h.pre, [WithExpr(st, h.rest)], t, k, tr, Bare(ctx), 0);
    var o := Exec(h.pre, t, k, tr, Bare(ctx), 0);
    if o.Normal? {
      SingleRuns(WithExpr(st, h.rest), o.vars, k, o.tr, Bare(ctx));
      FinishRuns(st, h.rest, b, s, o.vars, k, tr, o.tr, ctx, d);
    }
  }

  /** Two statements of one kind, whose expressions evaluate alike, end alike. */
  lemma FinishRuns(st: Stmt, e2: Expr, b: nat, s: Vars, t: Vars, k: Vars, tr: Trace, tr2: Trace, ctx: Ctx, d: nat)
    requires st.Assign? || st.OpAssign? || st.Eff? || st.Throw? || (st.Return? && st.arg.Some?)
    requires AllBelow(StmtMentions(st), b)
    requires var r := Eval(OwnExpr(st), s, k, tr, ctx, d);
             r.EStuck? || (Eval(e2, t, k, tr2, Bare(ctx), 0) == r && Agree(s, t, b))
    ensures OutAgree(ExecStmt(st, s, k, tr, ctx, d), ExecStmt(WithExpr(st, e2), t, k, tr2, Bare(ctx), 0), b)
  {
    if (st.Assign? || st.OpAssign?) && !Eval(OwnExpr(st), s, k, tr, ctx, d).EStuck? {
      assert SameOn(s, t, st.x);
    }
  }

  lemma {:induction false} DiscardedRuns(st: Stmt, b: nat, id: nat, s: Vars, t: Vars, k: Vars, tr: Trace, ctx: Ctx, d: nat)
    requires Ready(s, t, b, id, k, ctx) && StmtReady(st, b, ctx)
    requires st.Eff? && st.e.Call? && st.e.callee in ctx.fns
    requires ExpandStmt(st, ctx.fns, id).Ok?
    ensures OutAgree(ExecStmt(st, s, k, tr, ctx, d),
                     Exec(ExpandStmt(st, ctx.fns, id).value.pre, t, k, tr, Bare(ctx), 0), b)
    decreases MAX_INLINE_EXPANSIONS - id, 1, st, 4
  {
    var m := ctx.fns;
    var f, args := st.e.callee, st.e.args;
    assert st.e == Call(f, args);
    assert f in Callees(st.e);
    var ha := HoistArgs(args, m, id).value;
    var x := ExpandCall(f, ha.rest, false, m, ha.next).value;
    assert ExpandStmt(st, m, id).value.pre == ha.pre + x.pre;
    WholeCallRuns(f, args, false, b, id, s, t, k, tr, ctx, d);
    if Eval(st.e, s, k, tr, ctx, d).Val? {
      AgreeTrans(s, t, Exec(ha.pre + x.pre, t, k, tr, Bare(ctx), 0).vars, b, id);
    }
  }

  lemma {:induction false} DeclsAgree(ds: seq<Declarator>, b: nat, s: Vars, t: Vars, k: Vars, tr: Trace, ctx: Ctx, d: nat)
    requires DeclCallees(ds) !! ctx.fns.Keys && AllBelow(DeclReads(ds), b) && Agree(s, t, b)
    ensures OutAgree(ExecDecls(ds, s, k, tr, ctx, d), ExecDecls(ds, t, k, tr, Bare(ctx), 0), b)
  {
    if ds != [] {
      EvalAgree(ds[0].init, s, t, b, k, tr, ctx, d, 0);
      var r := Eval(ds[0].init, s, k, tr, ctx, d);
      if r.Val? {
        DeclsAgree(ds[1..], b, s[ds[0].x := r.v], t[ds[0].x := r.v], k, r.tr, ctx, d);
      }
    }
  }

  lemma {:induction false} DeclRuns(st: Stmt, b: nat, id: nat, s: Vars, t: Vars, k: Vars, tr: Trace, ctx: Ctx, d: nat)
    requires Ready(s, t, b, id, k, ctx) && StmtReady(st, b, ctx) && st.Decl?
    requires ExpandStmt(st, ctx.fns, id).Ok?
    ensures OutAgree(ExecStmt(st, s, k, tr, ctx, d),
                     Exec(ExpandStmt(st, ctx.fns, id).value.pre, t, k, tr, Bare(ctx), 0), b)
    decreases MAX_INLINE_EXPANSIONS - id, 1, st, 4
  {
    var ds := st.ds;
    assert st == Decl(ds);
    if ds == [] {
      assert HoistDecls(ds, ctx.fns, id) == Ok(Hoisted([], [], id));
      var none: seq<Stmt> := [];
      assert none + [st] == [st];
      SingleRuns(st, t, k, tr, Bare(ctx));
    } else {
      assert ds decreases to ds[0];
      assert HoistStmt(st, ctx.fns, id).Ok?;
      HoistDeclsFirst(ds, ctx.fns, id);
      var h := HoistExpr(ds[0].init, ctx.fns, id).value;
      assert ExpandStmt(st, ctx.fns, id).value.pre == h.pre + [Decl([Declarator(ds[0].x, h.rest)] + ds[1..])];
      assert ExecStmt(st, s, k, tr, ctx, d) == ExecDecls(ds, s, k, tr, ctx, d);
      SomeDeclsRun(ds, b, id, s, t, k, tr, ctx, d);
    }
  }

  lemma {:induction false} SomeDeclsRun(ds: seq<Declarator>, b: nat, id: nat, s: Vars, t: Vars, k: Vars, tr: Trace,
                                        ctx: Ctx, d: nat)
    requires Ready(s, t, b, id, k, ctx) && StmtReady(Decl(ds), b, ctx) && ds != []
    requires HoistExpr(ds[0].init, ctx.fns, id).Ok?
    ensures var h := HoistExpr(ds[0].init, ctx.fns, id).value;
            OutAgree(ExecDecls(ds, s, k, tr, ctx, d),
                     Exec(h.pre + [Decl([Declarator(ds[0].x, h.rest)] + ds[1..])], t, k, tr, Bare(ctx), 0), b)
    decreases MAX_INLINE_EXPANSIONS - id, 1, ds, 4
  {
    assert ds decreases to ds[0];
    var h := HoistExpr(ds[0].init, ctx.fns, id).value;
    var st2 := Decl([Declarator(ds[0].x, h.rest)] + ds[1..]);
    ExprRuns(ds[0].init, b, id, s, t, k, tr, ctx, d);
    ExecAppend(h.pre, [st2], t, k, tr, Bare(ctx), 0);
    var o := Exec(h.pre, t, k, tr, Bare(ctx), 0);
    if o.Normal? {
      SingleRuns(st2, o.vars, k, o.tr, Bare(ctx));
      assert ExecStmt(st2, o.vars, k, o.tr, Bare(ctx), 0) == ExecDecls(st2.ds, o.vars, k, o.tr, Bare(ctx), 0);
      FinishDecls(ds, h.rest, b, s, o.vars, k, tr, o.tr, ctx, d);
    }
  }

  lemma FinishDecls(ds: seq<Declarator>, e2: Expr, b: nat, s: Vars, t: Vars, k: Vars, tr: Trace, tr2: Trace, ctx: Ctx,
                    d: nat)
    requires ds != [] && DeclCallees(ds[1..]) !! ctx.fns.Keys && AllBelow(DeclReads(ds), b)
    requires var r := Eval(ds[0].init, s, k, tr, ctx, d);
             r.EStuck? || (Eval(e2, t, k, tr2, Bare(ctx), 0) == r && Agree(s, t, b))
    ensures OutAgree(ExecDecls(ds, s, k, tr, ctx, d),
                     ExecDecls([Declarator(ds[0].x, e2)] + ds[1..], t, k, tr2, Bare(ctx), 0), b)
  {
    var r := Eval(ds[0].init, s, k, tr, ctx, d);
    var ds2 := [Declarator(ds[0].x, e2)] + ds[1..];
    assert ds2[1..] == ds[1..];
    if r.Val? {
      var s1, t1 := s[ds[0].x := r.v], t[ds[0].x := r.v];
      DeclsAgree(ds[1..], b, s1, t1, k, r.tr, ctx, d);
    }
  }

  lemma {:induction false} IfRuns(st: Stmt, b: nat, id: nat, s: Vars, t: Vars, k: Vars, tr: Trace, ctx: Ctx, d: nat)
    requires Ready(s, t, b, id, k, ctx) && StmtReady(st, b, ctx) && st.If?
    requires ExpandStmt(st, ctx.fns, id).Ok?
    ensures OutAgree(ExecStmt(st, s, k, tr, ctx, d),
                     Exec(ExpandStmt(st, ctx.fns, id).value.pre, t, k, tr, Bare(ctx), 0), b)
    decreases MAX_INLINE_EXPANSIONS - id, 1, st, 4
  {
    var m := ctx.fns;
    var h := HoistExpr(st.c, m, id).value;
    var ht := ExpandList(st.thn, m, h.next).value;
    var he := ExpandList(st.els, m, ht.next).value;
    var branch := If(h.rest, ht.pre, he.pre);
    assert ExpandStmt(st, m, id).value.pre == h.pre + [branch];
    ExprRuns(st.c, b, id, s, t, k, tr, ctx, d);
    ExecAppend(h.pre, [branch], t, k, tr, Bare(ctx), 0);
    var r := Eval(st.c, s, k, tr, ctx, d);
    var o := Exec(h.pre, t, k, tr, Bare(ctx), 0);
    if o.Normal? && r.Val? {
      SingleRuns(branch, o.vars, k, o.tr, Bare(ctx));
      if r.v != 0 {
        ExpandListRuns(st.thn, b, h.next, s, o.vars, k, r.tr, ctx, d);
      } else {
        ExpandListRuns(st.els, b, ht.next, s, o.vars, k, r.tr, ctx, d);
      }
    } else if o.Normal? {
      SingleRuns(branch, o.vars, k, o.tr, Bare(ctx));
    }
  }

  lemma {:induction false} WhileRuns(st: Stmt, b: nat, id: nat, s: Vars, t: Vars, k: Vars, tr: Trace, ctx: Ctx, d: nat)
    requires Ready(s, t, b, id, k, ctx) && StmtReady(st, b, ctx) && st.While?
    requires ExpandStmt(st, ctx.fns, id).Ok?
    ensures OutAgree(ExecStmt(st, s, k, tr, ctx, d),
                     Exec(ExpandStmt(st, ctx.fns, id).value.pre, t, k, tr, Bare(ctx), 0), b)
    decreases MAX_INLINE_EXPANSIONS - id, 1, st, 4
  {
    var st2 := While(st.c, ExpandList(st.body, ctx.fns, id).value.pre);
    assert ExpandStmt(st, ctx.fns, id).value.pre == [st2];
    SingleRuns(st2, t, k, tr, Bare(ctx));
    LoopRuns(st, st2, b, id, s, t, k, tr, ctx, d, ctx.limit);
  }

  lemma CloseAgree(s: Vars, t: Vars, o: Outcome, q: Outcome, b: nat)
    requires Agree(s, t, b) && OutAgree(o, q, b)
    ensures OutAgree(CloseScope(s, o), CloseScope(t, q), b)
  {
    if !(o.Stuck? || o.Thrown? || o.Diverged?) {
      forall n | Below(n, b)
        ensures SameOn(Keep(o.vars, s.Keys), Keep(q.vars, t.Keys), n)
      {
        assert SameOn(s, t, n) && SameOn(o.vars, q.vars, n);
      }
    }
  }

  lemma {:induction false} ForRuns(st: Stmt, b: nat, id: nat, s: Vars, t: Vars, k: Vars, tr: Trace, ctx: Ctx, d: nat)
    requires Ready(s, t, b, id, k, ctx) && StmtReady(st, b, ctx) && st.For?
    requires ExpandStmt(st, ctx.fns, id).Ok?
    ensures OutAgree(ExecStmt(st, s, k, tr, ctx, d),
                     Exec(ExpandStmt(st, ctx.fns, id).value.pre, t, k, tr, Bare(ctx), 0), b)
    decreases MAX_INLINE_EXPANSIONS - id, 1, st, 4
  {
    var st2 := For(st.init, st.c, st.step, ExpandList(st.body, ctx.fns, id).value.pre);
    assert ExpandStmt(st, ctx.fns, id).value.pre == [st2];
    SingleRuns(st2, t, k, tr, Bare(ctx));
    ExpandNoCall(st.init, ctx.fns, id);
    ExpandListRuns(st.init, b, id, s, t, k, tr, ctx, d);
    var o := Exec(st.init, s, k, tr, ctx, d);
    var q := Exec(st.init, t, k, tr, Bare(ctx), 0);
    if o.Normal? {
      KeepHygienicList(st.init, s, k, tr, ctx, d);
      LoopRuns(st, st2, b, id, o.vars, q.vars, k, o.tr, ctx, d, ctx.limit);
      CloseAgree(s, t, ExecLoop(st, o.vars, k, o.tr, ctx, d, ctx.limit),
                 ExecLoop(st2, q.vars, k, o.tr, Bare(ctx), 0, ctx.limit), b);
    } else {
      CloseAgree(s, t, o, q, b);
    }
  }

  lemma KeepHygienicList(ss: seq<Stmt>, s: Vars, k: Vars, tr: Trace, ctx: Ctx, d: nat)
    requires Hygienic(s, k, ctx) && NoFreeWrites(Writes(ss), ctx)
    ensures var o := Exec(ss, s, k, tr, ctx, d);
            (o.Normal? || o.Broke? || o.Continued? || o.Returned?) ==> Hygienic(o.vars, k, ctx)
  {
    var o := Exec(ss, s, k, tr, ctx, d);
    forall f, n | f in ctx.fns && n in Free(ctx.fns[f])
      ensures (o.Normal? || o.Broke? || o.Continued? || o.Returned?) ==> n !in o.vars
    {
      Frame(ss, s, k, tr, ctx, d, n);
    }
  }

  /** `st2` is the loop `st` with its body expanded. */
  ghost predicate LoopPair(st: Stmt, st2: Stmt, b: nat, id: nat, ctx: Ctx)
    requires id <= MAX_INLINE_EXPANSIONS
  {
    && (st.While? || st.For?) && (st2.While? <==> st.While?) && (st2.For? <==> st.For?)
    && st2.c == st.c && StepOf(st2) == StepOf(st)
    && ExpandList(st.body, ctx.fns, id).Ok? && st2.body == ExpandList(st.body, ctx.fns, id).value.pre
    && Callees(st.c) !! ctx.fns.Keys && AllBelow(Reads(st.c), b)
    && CalleesIn(StepOf(st)) !! ctx.fns.Keys
    && ListReady(st.body, b, ctx) && ListReady(StepOf(st), b, ctx)
  }

  lemma {:induction false} LoopRuns(st: Stmt, st2: Stmt, b: nat, id: nat, s: Vars, t: Vars, k: Vars, tr: Trace,
                                    ctx: Ctx, d: nat, n: nat)
    requires Ready(s, t, b, id, k, ctx) && LoopPair(st, st2, b, id, ctx)
    ensures OutAgree(ExecLoop(st, s, k, tr, ctx, d, n), ExecLoop(st2, t, k, tr, Bare(ctx), 0, n), b)
    decreases MAX_INLINE_EXPANSIONS - id, 1, st, 3, n, 0
  {
    EvalAgree(st.c, s, t, b, k, tr, ctx, d, 0);
    var r := Eval(st.c, s, k, tr, ctx, d);
    if r.Val? && r.v != 0 && n > 0 {
      ExpandListRuns(st.body, b, id, s, t, k, r.tr, ctx, d);
      KeepHygienicList(st.body, s, k, r.tr, ctx, d);
      var o := Exec(st.body, s, k, r.tr, ctx, d);
      var q := Exec(st2.body, t, k, r.tr, Bare(ctx), 0);
      if o.Normal? || o.Continued? {
        NextRuns(st, st2, b, id, o.vars, q.vars, k, o.tr, ctx, d, n);
      }
    }
  }

  lemma {:induction false} NextRuns(st: Stmt, st2: Stmt, b: nat, id: nat, s: Vars, t: Vars, k: Vars, tr: Trace,
                                    ctx: Ctx, d: nat, n: nat)
    requires Ready(s, t, b, id, k, ctx) && LoopPair(st, st2, b, id, ctx) && n > 0
    ensures OutAgree(ExecNext(st, s, k, tr, ctx, d, n), ExecNext(st2, t, k, tr, Bare(ctx), 0, n), b)
    decreases MAX_INLINE_EXPANSIONS - id, 1, st, 3, n - 1, 1
  {
    if st.For? {
      ExpandNoCall(st.step, ctx.fns, id);
      ExpandListRuns(st.step, b, id, s, t, k, tr, ctx, d);
      KeepHygienicList(st.step, s, k, tr, ctx, d);
      var o := Exec(st.step, s, k, tr, ctx, d);
      var q := Exec(st.step, t, k, tr, Bare(ctx), 0);
      if o.Normal? {
        LoopRuns(st, st2, b, id, o.vars, q.vars, k, o.tr, ctx, d, n - 1);
      }
    } else {
      LoopRuns(st, st2, b, id, s, t, k, tr, ctx, d, n - 1);
    }
  }
}
