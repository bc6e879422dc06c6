/** The main results about inline expansion, and what goes wrong outside their conditions. */
module InlineTheorem {
  import opened Arith
  import opened Sauce
  import opened SauceNames
  import opened Inline
  import opened InlineClear
  import opened InlinePure
  import opened InlineMeaning

  /** A caller in source names whose variables hide no constant an inline body uses, and
      whose statements expansion may reorder. */
  ghost predicate ExpandableCaller(fn: Fn, ctx: Ctx) {
    && SafeList(fn.body, ctx.fns)
    && (forall n | n in Mentions(fn.body) :: n.User?)
    && (forall f, n | f in ctx.fns && n in Free(ctx.fns[f]) :: n !in Scope(fn) && n !in Writes(fn.body))
    && (forall n | n in ctx.consts :: n.User?)
  }

  function Run(fn: Fn, vs: seq<int>, tr: Trace, ctx: Ctx, depth: nat): Outcome
    requires |vs| == |fn.params|
  {
    Exec(fn.body, Bind(fn.params, vs), ctx.consts - Scope(fn), tr, ctx, depth)
  }

  function Expanded(fn: Fn, m: InlineMap, id: nat): Fn
    requires id <= MAX_INLINE_EXPANSIONS && ExpandList(fn.body, m, id).Ok?
  {
    Fn(fn.params, ExpandList(fn.body, m, id).value.pre)
  }

  /** Expansion preserves meaning. On every argument list, against every outside world and
      for every meaning of the operators, the expanded function, run with no inline
      functions at all, ends as the original does: same kind of ending, same value, same
      outside calls with the same answers, same source variables. */
  lemma ExpansionPreservesMeaning(fn: Fn, vs: seq<int>, tr: Trace, ctx: Ctx, depth: nat, id: nat)
    requires Fit(ctx) && ExpandableCaller(fn, ctx) && |vs| == |fn.params|
    requires id <= MAX_INLINE_EXPANSIONS && ExpandList(fn.body, ctx.fns, id).Ok?
    ensures OutAgree(Run(fn, vs, tr, ctx, depth), Run(Expanded(fn, ctx.fns, id), vs, tr, Bare(ctx), 0), 0)
  {
    var vars, k := Bind(fn.params, vs), ctx.consts - Scope(fn);
    BindInFacts(fn.params, vs, 0, map[]);
    ExpandListRuns(fn.body, 0, id, vars, vars, k, tr, ctx, depth);
    SameConstants(fn, ctx, id);
  }

  /** The expanded function hides exactly the constants the original hides. */
  lemma SameConstants(fn: Fn, ctx: Ctx, id: nat)
    requires Fit(ctx) && ExpandableCaller(fn, ctx)
    requires id <= MAX_INLINE_EXPANSIONS && ExpandList(fn.body, ctx.fns, id).Ok?
    ensures ctx.consts - Scope(Expanded(fn, ctx.fns, id)) == ctx.consts - Scope(fn)
  {
    SoundFns(ctx);
    ExpandClear(fn.body, ctx.fns, id);
    var out := Expanded(fn, ctx.fns, id);
    forall n | n in ctx.consts
      ensures n in Scope(out) <==> n in Scope(fn)
    {
      assert n in Lexical(out.body) <==> n in SourceNames(Lexical(out.body));
      assert n in Lexical(fn.body) <==> n in SourceNames(Lexical(fn.body));
    }
  }

  lemma SoundFns(ctx: Ctx)
    requires Fit(ctx)
    ensures Sound(ctx.fns)
  {
    forall f | f in ctx.fns
      ensures Inlineable(ctx.fns[f].body) && forall n | n in Lexical(ctx.fns[f].body) :: n.User?
    {
      assert CleanFn(ctx.fns[f], ctx.fns);
    }
  }

  /** No inline call survives, wherever it stood. */
  lemma ExpansionIsComplete(fn: Fn, m: InlineMap, id: nat)
    requires Sound(m) && id <= MAX_INLINE_EXPANSIONS && ExpandList(fn.body, m, id).Ok?
    ensures CalleesIn(Expanded(fn, m, id).body) !! m.Keys
  {
    ExpandClear(fn.body, m, id);
  }

  /** The done-flag rewrite of one body, seen on its own: entered with done and result at 0
      it ends with done 1 and the result `v` exactly when the body returns `v`, and with
      both still 0 exactly when the body falls through. */
  lemma DoneFlagRewrite(ss: seq<Stmt>, id: nat, vars: Vars, k: Vars, tr: Trace, ctx: Ctx, depth: nat)
    requires Fit(ctx) && Hygienic(vars, k, ctx) && id < MAX_INLINE_EXPANSIONS
    requires ElimReady(ss, id, id + 1, vars, ctx)
    requires Eliminate(ss, ctx.fns, id, id + 1).Ok?
    ensures var o := Exec(ss, vars, k, tr, ctx, depth);
            var q := Exec(Eliminate(ss, ctx.fns, id, id + 1).value.pre, vars, k, tr, Bare(ctx), 0);
            && (o.Returned? ==> q.Normal? && q.tr == o.tr && Flags(q.vars, id, 1, o.v))
            && (o.Normal? ==> q.Normal? && q.tr == o.tr && Flags(q.vars, id, 0, 0) && Agree(o.vars, q.vars, id + 1))
            && (o.Thrown? ==> q.Thrown?)
            && (!o.Stuck? && q.Normal? ==>
                  DoneOf(id) in q.vars &&
                  (o.Returned? <==> q.vars[DoneOf(id)] == 1) && (o.Normal? <==> q.vars[DoneOf(id)] == 0))
  {
    ElimRuns(ss, id, id + 1, id + 1, vars, vars, k, tr, ctx, depth);
  }

  // ----- outside the conditions -----

  const RATE := User("RATE")

  /** `const rate = () => RATE`. */
  const READ_RATE := Fn([], [Return(Some(Var(RATE)))])

  /** `function f(RATE) { return rate(); }`. */
  const CALLER := Fn(["RATE"], [Return(Some(Call("rate", [])))])

  function RateCtx(c: int, ctx: Ctx): Ctx {
    ctx.(fns := map["rate" := READ_RATE], consts := map[RATE := c])
  }

  /** Expansion does not rename the constants a body reads, so a caller's variable of the
      same name captures them: the program means what it meant exactly when the captured
      value happens to be the constant. `ExpandableCaller` rules the capture out. */
  lemma CaptureExactly(c: int, v: int, tr: Trace, ctx: Ctx, depth: nat)
    requires depth > 0
    ensures var rc := RateCtx(c, ctx);
            && ExpandList(CALLER.body, rc.fns, 0).Ok?
            && var o := Run(CALLER, [v], tr, rc, depth);
               var q := Run(Expanded(CALLER, rc.fns, 0), [v], tr, Bare(rc), 0);
               o.Returned? && q.Returned? && o.v == c && (o.v == q.v <==> v == c)
  {
    OriginalReadsConstant(c, v, tr, ctx, depth);
    ExpandedReadsVariable(c, v, tr, ctx);
  }

  lemma OriginalReadsConstant(c: int, v: int, tr: Trace, ctx: Ctx, depth: nat)
    requires depth > 0
    ensures Run(CALLER, [v], tr, RateCtx(c, ctx), depth) == Returned(c, map[RATE := v], tr)
  {
    var rc := RateCtx(c, ctx);
    var call, body, vars: Vars := Call("rate", []), READ_RATE.body, map[RATE := v];
    assert Bind(["RATE"], [v]) == vars;
    assert Lexical(body) == {} by { assert body[1..] == []; }
    assert rc.consts - Scope(READ_RATE) == map[RATE := c];
    assert Eval(Var(RATE), map[], map[RATE := c], tr, rc, depth - 1) == Val(c, tr);
    assert ExecStmt(body[0], map[], map[RATE := c], tr, rc, depth - 1) == Returned(c, map[], tr);
    assert Exec(body, map[], map[RATE := c], tr, rc, depth - 1) == Returned(c, map[], tr);
    var k := rc.consts - Scope(CALLER);
    assert Invoke("rate", [], tr, rc, depth) == Val(c, tr);
    assert Eval(call, vars, k, tr, rc, depth) == Val(c, tr);
    assert ExecStmt(CALLER.body[0], vars, k, tr, rc, depth) == Returned(c, vars, tr);
  }

  lemma SplicedRuns(vars: Vars, k: Vars, tr: Trace, ctx: Ctx)
    requires RATE in vars
    ensures Exec(InitFlags(0) + (SetResult(0, Var(RATE)) + SetDone(0)), vars, k, tr, ctx, 0) ==
            Normal(vars[ResultOf(0) := 0][DoneOf(0) := 0][ResultOf(0) := vars[RATE]][DoneOf(0) := 1], tr)
  {
    var set1 := vars[ResultOf(0) := 0][DoneOf(0) := 0];
    FlagsRun(0, vars, k, tr, ctx);
    ExecAppend(InitFlags(0), SetResult(0, Var(RATE)) + SetDone(0), vars, k, tr, ctx, 0);
    ExecAppend(SetResult(0, Var(RATE)), SetDone(0), set1, k, tr, ctx, 0);
    SingleRuns(SetResult(0, Var(RATE))[0], set1, k, tr, ctx);
    SingleRuns(SetDone(0)[0], set1[ResultOf(0) := vars[RATE]], k, tr, ctx);
  }

  lemma ExpandedReadsVariable(c: int, v: int, tr: Trace, ctx: Ctx)
    ensures var rc := RateCtx(c, ctx);
            && ExpandList(CALLER.body, rc.fns, 0).Ok?
            && var q := Run(Expanded(CALLER, rc.fns, 0), [v], tr, Bare(rc), 0);
               q.Returned? && q.v == v
  {
    var rc := RateCtx(c, ctx);
    var vars: Vars := map[RATE := v];
    assert Bind(["RATE"], [v]) == vars;
    RateExpansion(rc.fns);
    ReturnsResult(vars, rc.consts - Scope(Expanded(CALLER, rc.fns, 0)), tr, Bare(rc));
  }

  lemma ReturnsResult(vars: Vars, k: Vars, tr: Trace, ctx: Ctx)
    requires RATE in vars
    ensures var o := Exec(InitFlags(0) + (SetResult(0, Var(RATE)) + SetDone(0)) + [Return(Some(Var(ResultOf(0))))],
                          vars, k, tr, ctx, 0);
            o.Returned? && o.v == vars[RATE]
  {
    var spliced, end := InitFlags(0) + (SetResult(0, Var(RATE)) + SetDone(0)), Return(Some(Var(ResultOf(0))));
    SplicedRuns(vars, k, tr, ctx);
    ExecAppend(spliced, [end], vars, k, tr, ctx, 0);
    SingleRuns(end, Exec(spliced, vars, k, tr, ctx, 0).vars, k, tr, ctx);
  }

  lemma RateBody(ren: Renaming)
    requires RATE !in ren
    ensures RenameStmts(READ_RATE.body, ren) == READ_RATE.body
  {
    var ss := READ_RATE.body;
    assert ss[1..] == [] && RenameStmts([], ren) == [];
    assert RenameStmt(ss[0], ren) == ss[0];
    assert [ss[0]] + [] == ss;
  }

  lemma RateExpansion(m: InlineMap)
    requires m == map["rate" := READ_RATE]
    ensures ExpandList(CALLER.body, m, 0).Ok?
    ensures ExpandList(CALLER.body, m, 0).value.pre ==
            InitFlags(0) + (SetResult(0, Var(RATE)) + SetDone(0)) + [Return(Some(Var(ResultOf(0))))]
  {
    var call := Call("rate", []);
    var body := RenameStmts(READ_RATE.body, RenameMap(READ_RATE, 0));
    assert READ_RATE.body[1..] == [];
    assert Lexical(READ_RATE.body) == {};
    RateBody(RenameMap(READ_RATE, 0));
    assert HoistExpr(Var(RATE), m, 1) == Ok(Hoisted([], Var(RATE), 1));
    assert EliminateReturn(body[0], m, 0, 1) == Ok(Hoisted([] + SetResult(0, Var(RATE)) + SetDone(0), (), 1));
    assert Eliminate(body, m, 0, 1) == EliminateReturn(body[0], m, 0, 1);
    assert HoistArgs([], m, 0) == Ok(Hoisted([], [], 0));
    assert AlwaysTerminates(READ_RATE.body);
    var x := ExpandCall("rate", [], true, m, 0);
    var none: seq<Stmt> := [];
    assert none + InitFlags(0) == InitFlags(0);
    assert none + SetResult(0, Var(RATE)) == SetResult(0, Var(RATE));
    assert x == Ok(Hoisted(InitFlags(0) + (SetResult(0, Var(RATE)) + SetDone(0)), (), 1));
    assert HoistExpr(call, m, 0) == Ok(Hoisted(x.value.pre, Var(ResultOf(0)), 1)) by {
      assert none + x.value.pre == x.value.pre;
    }
    assert CALLER.body[1..] == [];
    assert ExpandStmt(CALLER.body[0], m, 0) == Ok(Hoisted(x.value.pre + [Return(Some(Var(ResultOf(0))))], (), 1));
    assert ExpandList([], m, 1) == Ok(Hoisted([], (), 1));
  }
}
