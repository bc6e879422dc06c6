/** When expansion is judged sound, and what evaluation then depends on. */
module InlinePure {
  import opened Arith
  import opened Sauce
  import opened SauceNames
  import opened Inline
  import opened InlineShape

  /** `s` and `t` cannot be told apart by names older than call site `b`. */
  ghost predicate Agree(s: Vars, t: Vars, b: nat) {
    forall n | Below(n, b) :: SameOn(s, t, n)
  }

  /** The same program run with no inline functions left. */
  function Bare(ctx: Ctx): Ctx {
    ctx.(fns := map[])
  }

  // ----- conditions on the program -----

  /** Evaluation reaches no call to the outside before an inline one: hoisting never moves an
      inline body across such a call. */
  predicate SafeExpr(e: Expr, m: InlineMap)
    decreases e, 0
  {
    || Callees(e) !! m.Keys
    || Callees(e) <= m.Keys
    || (match e
        case Un(_, e1) => SafeExpr(e1, m)
        case Bin(_, l, r) => (Callees(l) <= m.Keys && SafeExpr(r, m)) || (SafeExpr(l, m) && Callees(r) !! m.Keys)
        case Logic(_, l, r) => SafeExpr(l, m) && Callees(r) !! m.Keys
        case Cond(c, t, f) => SafeExpr(c, m) && Callees(t) !! m.Keys && Callees(f) !! m.Keys
        case Call(f, args) => f !in m && SafeArgs(args, m)
        case _ => true)
  }

  predicate SafeArgs(args: seq<Expr>, m: InlineMap)
    decreases args, 0
  {
    || args == []
    || (Callees(args[0]) <= m.Keys && SafeArgs(args[1..], m))
    || (SafeExpr(args[0], m) && ArgCallees(args[1..]) !! m.Keys)
  }

  /** Only the first declarator may call an inline function. */
  predicate SafeDecls(ds: seq<Declarator>, m: InlineMap) {
    ds == [] || (SafeExpr(ds[0].init, m) && DeclCallees(ds[1..]) !! m.Keys)
  }

  predicate SafeList(ss: seq<Stmt>, m: InlineMap)
    decreases ss, 0
  {
    ss == [] || (SafeStmt(ss[0], m) && SafeList(ss[1..], m))
  }

  predicate SafeStmt(s: Stmt, m: InlineMap)
    decreases s, 1
  {
    match s
    case Decl(ds) => SafeDecls(ds, m)
    case Assign(_, e) => SafeExpr(e, m)
    case OpAssign(_, _, e) => SafeExpr(e, m)
    case Update(_, _) => true
    case Eff(e) => SafeExpr(e, m)
    case If(c, thn, els) => SafeExpr(c, m) && SafeList(thn, m) && SafeList(els, m)
    case While(c, body) => SafeExpr(c, m) && SafeList(body, m)
    case For(init, c, step, body) => SafeList(init, m) && SafeExpr(c, m) && SafeList(step, m) && SafeList(body, m)
    case Return(None) => true
    case Return(Some(e)) => SafeExpr(e, m)
    case Throw(e) => SafeExpr(e, m)
    case Break => true
    case Continue => true
  }

  /** A validated body in source names that calls only inline functions and assigns only
      its own parameters and locals. */
  predicate CleanFn(fn: Fn, m: InlineMap) {
    && Inlineable(fn.body)
    && SafeList(fn.body, m)
    && CalleesIn(fn.body) <= m.Keys
    && Writes(fn.body) <= Scope(fn)
    && (forall n | n in Mentions(fn.body) + Lexical(fn.body) :: n.User?)
  }

  /** No variable hides a constant that some inline body uses. */
  ghost predicate Hygienic(vars: Vars, k: Vars, ctx: Ctx) {
    forall f, n | f in ctx.fns && n in Free(ctx.fns[f]) ::
      n !in vars && (n in ctx.consts ==> n in k && k[n] == ctx.consts[n])
  }

  ghost predicate NoFreeWrites(names: set<Name>, ctx: Ctx) {
    forall f, n | f in ctx.fns && n in Free(ctx.fns[f]) :: n !in names
  }

  /** The context in which expansion is judged. */
  ghost predicate Fit(ctx: Ctx) {
    && (forall f | f in ctx.fns :: CleanFn(ctx.fns[f], ctx.fns))
    && ctx.bin(Eq, 0, 0) != 0
    && ctx.bin(Eq, 1, 0) == 0
  }

  ghost predicate Ready(s: Vars, t: Vars, b: nat, id: nat, k: Vars, ctx: Ctx) {
    b <= id <= MAX_INLINE_EXPANSIONS && Agree(s, t, b) && Hygienic(s, k, ctx) && Fit(ctx)
  }

  // ----- evaluation looks at nothing but the names read -----

  lemma {:induction false} EvalAgree(e: Expr, s: Vars, t: Vars, b: nat, k: Vars, tr: Trace, ctx: Ctx, d: nat, d2: nat)
    requires Callees(e) !! ctx.fns.Keys && AllBelow(Reads(e), b) && Agree(s, t, b)
    ensures Eval(e, s, k, tr, ctx, d) == Eval(e, t, k, tr, Bare(ctx), d2)
    decreases e, 0
  {
    match e
    case Lit(_) =>
    case Var(x) => assert SameOn(s, t, x);
    case Un(_, e1) => EvalAgree(e1, s, t, b, k, tr, ctx, d, d2);
    case Bin(_, l, r) =>
      EvalAgree(l, s, t, b, k, tr, ctx, d, d2);
      var v := Eval(l, s, k, tr, ctx, d);
      if v.Val? { EvalAgree(r, s, t, b, k, v.tr, ctx, d, d2); }
    case Logic(_, l, r) =>
      EvalAgree(l, s, t, b, k, tr, ctx, d, d2);
      var v := Eval(l, s, k, tr, ctx, d);
      if v.Val? { EvalAgree(r, s, t, b, k, v.tr, ctx, d, d2); }
    case Cond(c, u, f) =>
      EvalAgree(c, s, t, b, k, tr, ctx, d, d2);
      var v := Eval(c, s, k, tr, ctx, d);
      if v.Val? { EvalAgree(if v.v != 0 then u else f, s, t, b, k, v.tr, ctx, d, d2); }
    case Call(_, args) => EvalArgsAgree(args, s, t, b, k, tr, ctx, d, d2);
  }

  lemma {:induction false} EvalArgsAgree(args: seq<Expr>, s: Vars, t: Vars, b: nat, k: Vars, tr: Trace, ctx: Ctx,
                                         d: nat, d2: nat)
    requires ArgCallees(args) !! ctx.fns.Keys && AllBelow(ArgReads(args), b) && Agree(s, t, b)
    ensures EvalArgs(args, s, k, tr, ctx, d) == EvalArgs(args, t, k, tr, Bare(ctx), d2)
    decreases args, 0
  {
    if args != [] {
      EvalAgree(args[0], s, t, b, k, tr, ctx, d, d2);
      var v := Eval(args[0], s, k, tr, ctx, d);
      if v.Val? { EvalArgsAgree(args[1..], s, t, b, k, v.tr, ctx, d, d2); }
    }
  }

  // ----- inline calls make no outside calls -----

  lemma {:induction false} PureEval(e: Expr, vars: Vars, k: Vars, tr: Trace, ctx: Ctx, d: nat)
    requires Fit(ctx) && Callees(e) <= ctx.fns.Keys
    ensures var r := Eval(e, vars, k, tr, ctx, d); r.Val? ==> r.tr == tr
    decreases d, 1, e, 0
  {
    match e
    case Lit(_) =>
    case Var(_) =>
    case Un(_, e1) => PureEval(e1, vars, k, tr, ctx, d);
    case Bin(_, l, r) => PureEval(l, vars, k, tr, ctx, d); PureEval(r, vars, k, tr, ctx, d);
    case Logic(_, l, r) => PureEval(l, vars, k, tr, ctx, d); PureEval(r, vars, k, tr, ctx, d);
    case Cond(c, t, f) =>
      PureEval(c, vars, k, tr, ctx, d);
      PureEval(t, vars, k, tr, ctx, d);
      PureEval(f, vars, k, tr, ctx, d);
    case Call(f, args) =>
      PureArgs(args, vars, k, tr, ctx, d);
      var a := EvalArgs(args, vars, k, tr, ctx, d);
      if a.Vals? { PureInvoke(f, a.vs, tr, ctx, d); }
  }

  lemma {:induction false} PureArgs(args: seq<Expr>, vars: Vars, k: Vars, tr: Trace, ctx: Ctx, d: nat)
    requires Fit(ctx) && ArgCallees(args) <= ctx.fns.Keys
    ensures var r := EvalArgs(args, vars, k, tr, ctx, d); r.Vals? ==> r.tr == tr
    decreases d, 1, args, 0
  {
    if args != [] {
      PureEval(args[0], vars, k, tr, ctx, d);
      PureArgs(args[1..], vars, k, tr, ctx, d);
    }
  }

  lemma {:induction false} PureInvoke(f: Ident, vs: seq<int>, tr: Trace, ctx: Ctx, d: nat)
    requires Fit(ctx) && f in ctx.fns
    ensures var r := Invoke(f, vs, tr, ctx, d); r.Val? ==> r.tr == tr
    decreases d, 0
  {
    var fn := ctx.fns[f];
    if d > 0 && |vs| == |fn.params| {
      assert CleanFn(fn, ctx.fns);
      PureExec(fn.body, Bind(fn.params, vs), ctx.consts - Scope(fn), tr, ctx, d - 1);
    }
  }

  ghost predicate Quiet(o: Outcome, tr: Trace) {
    (o.Normal? || o.Returned?) ==> o.tr == tr
  }

  lemma {:induction false} PureDecls(ds: seq<Declarator>, vars: Vars, k: Vars, tr: Trace, ctx: Ctx, d: nat)
    requires Fit(ctx) && DeclCallees(ds) <= ctx.fns.Keys
    ensures Quiet(ExecDecls(ds, vars, k, tr, ctx, d), tr)
    decreases d, 1, ds, 0
  {
    if ds != [] {
      assert ds decreases to ds[0];
      PureEval(ds[0].init, vars, k, tr, ctx, d);
      var r := Eval(ds[0].init, vars, k, tr, ctx, d);
      if r.Val? { PureDecls(ds[1..], vars[ds[0].x := r.v], k, tr, ctx, d); }
    }
  }

  lemma {:induction false} PureExec(ss: seq<Stmt>, vars: Vars, k: Vars, tr: Trace, ctx: Ctx, d: nat)
    requires Fit(ctx) && Inlineable(ss) && CalleesIn(ss) <= ctx.fns.Keys
    ensures Quiet(Exec(ss, vars, k, tr, ctx, d), tr)
    decreases d, 1, ss, 0
  {
    if ss != [] {
      PureStmt(ss[0], vars, k, tr, ctx, d);
      var o := ExecStmt(ss[0], vars, k, tr, ctx, d);
      if o.Normal? { PureExec(ss[1..], o.vars, k, tr, ctx, d); }
    }
  }

  lemma {:induction false} PureStmt(s: Stmt, vars: Vars, k: Vars, tr: Trace, ctx: Ctx, d: nat)
    requires Fit(ctx) && InlineableStmt(s) && StmtCallees(s) <= ctx.fns.Keys
    ensures Quiet(ExecStmt(s, vars, k, tr, ctx, d), tr)
    decreases d, 1, s, 1
  {
    match s
    case Decl(ds) => PureDecls(ds, vars, k, tr, ctx, d);
    case Assign(_, e) => PureEval(e, vars, k, tr, ctx, d);
    case OpAssign(_, _, e) => PureEval(e, vars, k, tr, ctx, d);
    case Update(_, _) =>
    case Eff(e) => PureEval(e, vars, k, tr, ctx, d);
    case If(c, thn, els) =>
      PureEval(c, vars, k, tr, ctx, d);
      var r := Eval(c, vars, k, tr, ctx, d);
      if r.Val? { PureExec(if r.v != 0 then thn else els, vars, k, tr, ctx, d); }
    case Return(None) =>
    case Return(Some(e)) => PureEval(e, vars, k, tr, ctx, d);
    case Throw(e) => PureEval(e, vars, k, tr, ctx, d);
  }

  // ----- outcomes of validated bodies -----

  lemma {:induction false} WritesMentioned(ss: seq<Stmt>)
    ensures Writes(ss) <= Mentions(ss)
    decreases ss, 0
  {
    if ss != [] {
      StmtWritesMentioned(ss[0]);
      WritesMentioned(ss[1..]);
    }
  }

  lemma {:induction false} StmtWritesMentioned(s: Stmt)
    ensures StmtWrites(s) <= StmtMentions(s)
    decreases s, 1
  {
    match s
    case If(_, thn, els) => WritesMentioned(thn); WritesMentioned(els);
    case While(_, body) => WritesMentioned(body);
    case For(init, _, step, body) => WritesMentioned(init); WritesMentioned(step); WritesMentioned(body);
    case Return(None) =>
    case Return(Some(_)) =>
    case _ =>
  }

  /** A validated list neither jumps nor diverges, and returns only where it says so. */
  ghost predicate Plain(o: Outcome, mayReturn: bool) {
    o.Normal? || o.Thrown? || o.Stuck? || (mayReturn && o.Returned?)
  }

  lemma {:induction false} PlainDecls(ds: seq<Declarator>, vars: Vars, k: Vars, tr: Trace, ctx: Ctx, d: nat)
    ensures Plain(ExecDecls(ds, vars, k, tr, ctx, d), false)
  {
    if ds != [] {
      var r := Eval(ds[0].init, vars, k, tr, ctx, d);
      if r.Val? { PlainDecls(ds[1..], vars[ds[0].x := r.v], k, r.tr, ctx, d); }
    }
  }

  lemma {:induction false} PlainExec(ss: seq<Stmt>, vars: Vars, k: Vars, tr: Trace, ctx: Ctx, d: nat)
    requires Inlineable(ss)
    ensures Plain(Exec(ss, vars, k, tr, ctx, d), ContainsReturn(ss))
    decreases ss, 0
  {
    if ss != [] {
      PlainStmt(ss[0], vars, k, tr, ctx, d);
      var o := ExecStmt(ss[0], vars, k, tr, ctx, d);
      if o.Normal? { PlainExec(ss[1..], o.vars, k, o.tr, ctx, d); }
    }
  }

  lemma {:induction false} PlainStmt(s: Stmt, vars: Vars, k: Vars, tr: Trace, ctx: Ctx, d: nat)
    requires InlineableStmt(s)
    ensures Plain(ExecStmt(s, vars, k, tr, ctx, d), StmtContainsReturn(s))
    decreases s, 1
  {
    match s
    case Decl(ds) => PlainDecls(ds, vars, k, tr, ctx, d);
    case If(c, thn, els) =>
      var r := Eval(c, vars, k, tr, ctx, d);
      if r.Val? { PlainExec(if r.v != 0 then thn else els, vars, k, r.tr, ctx, d); }
    case Return(None) =>
    case Return(Some(_)) =>
    case _ =>
  }

  /** The check made when a call's value is used: such a body never falls off its end. */
  lemma {:induction false} AlwaysTerminatesSound(ss: seq<Stmt>, vars: Vars, k: Vars, tr: Trace, ctx: Ctx, d: nat)
    requires AlwaysTerminates(ss)
    ensures !Exec(ss, vars, k, tr, ctx, d).Normal?
  {
    var s := ss[0];
    var o := ExecStmt(s, vars, k, tr, ctx, d);
    if s.If? && AlwaysTerminates(s.thn) && AlwaysTerminates(s.els) {
      var r := Eval(s.c, vars, k, tr, ctx, d);
      if r.Val? {
        AlwaysTerminatesSound(if r.v != 0 then s.thn else s.els, vars, k, r.tr, ctx, d);
      }
    } else if o.Normal? && !s.Return? && !s.Throw? {
      AlwaysTerminatesSound(ss[1..], o.vars, k, o.tr, ctx, d);
    }
  }

  // ----- renaming keeps the conditions -----

  lemma {:induction false} SafeRenamed(ss: seq<Stmt>, ren: Renaming, m: InlineMap)
    requires Inlineable(ss) && SafeList(ss, m)
    ensures SafeList(RenameStmts(ss, ren), m)
    decreases ss, 0
  {
    if ss != [] {
      SafeRenamedStmt(ss[0], ren, m);
      SafeRenamed(ss[1..], ren, m);
      assert RenameStmts(ss, ren)[1..] == RenameStmts(ss[1..], ren);
    }
  }

  lemma SameCallees(e: Expr, ren: Renaming)
    ensures Callees(RenameExpr(e, ren)) == Callees(e)
  {
    RenamedExpr(e, ren, set n | n in Reads(e) :: RenameName(n, ren));
  }

  lemma {:induction false} SafeRenamedExpr(e: Expr, ren: Renaming, m: InlineMap)
    requires SafeExpr(e, m)
    ensures SafeExpr(RenameExpr(e, ren), m)
    decreases e, 0
  {
    SameCallees(e, ren);
    match e
    case Un(_, e1) => if SafeExpr(e1, m) { SafeRenamedExpr(e1, ren, m); }
    case Bin(_, l, r) =>
      SameCallees(l, ren);
      SameCallees(r, ren);
      if SafeExpr(l, m) { SafeRenamedExpr(l, ren, m); }
      if SafeExpr(r, m) { SafeRenamedExpr(r, ren, m); }
    case Logic(_, l, r) =>
      SameCallees(r, ren);
      if SafeExpr(l, m) { SafeRenamedExpr(l, ren, m); }
    case Cond(c, t, f) =>
      SameCallees(t, ren);
      SameCallees(f, ren);
      if SafeExpr(c, m) { SafeRenamedExpr(c, ren, m); }
    case Call(_, args) => if SafeArgs(args, m) { SafeRenamedArgs(args, ren, m); }
    case _ =>
  }

  lemma SameArgCallees(args: seq<Expr>, ren: Renaming)
    ensures ArgCallees(RenameArgs(args, ren)) == ArgCallees(args)
  {
    RenamedArgs(args, ren, set n | n in ArgReads(args) :: RenameName(n, ren));
  }

  lemma {:induction false} SafeRenamedArgs(args: seq<Expr>, ren: Renaming, m: InlineMap)
    requires SafeArgs(args, m)
    ensures SafeArgs(RenameArgs(args, ren), m)
    decreases args, 0
  {
    if args != [] {
      assert RenameArgs(args, ren)[1..] == RenameArgs(args[1..], ren);
      SameCallees(args[0], ren);
      SameArgCallees(args[1..], ren);
      if SafeExpr(args[0], m) { SafeRenamedExpr(args[0], ren, m); }
      if SafeArgs(args[1..], m) { SafeRenamedArgs(args[1..], ren, m); }
    }
  }

  lemma {:induction false} SafeRenamedStmt(s: Stmt, ren: Renaming, m: InlineMap)
    requires InlineableStmt(s) && SafeStmt(s, m)
    ensures SafeStmt(RenameStmt(s, ren), m)
    decreases s, 1
  {
    match s
    case Decl(ds) =>
      if ds != [] {
        var rs := RenameDecls(ds, ren);
        assert rs[1..] == RenameDecls(ds[1..], ren);
        SafeRenamedExpr(ds[0].init, ren, m);
        RenamedDecls(ds[1..], ren, set n | n in DeclNames(ds[1..]) + DeclReads(ds[1..]) :: RenameName(n, ren));
      }
    case Assign(_, e) => SafeRenamedExpr(e, ren, m);
    case OpAssign(_, _, e) => SafeRenamedExpr(e, ren, m);
    case Update(_, _) =>
    case Eff(e) => SafeRenamedExpr(e, ren, m);
    case If(c, thn, els) =>
      SafeRenamedExpr(c, ren, m);
      SafeRenamed(thn, ren, m);
      SafeRenamed(els, ren, m);
    case Return(None) =>
    case Return(Some(e)) => SafeRenamedExpr(e, ren, m);
    case Throw(e) => SafeRenamedExpr(e, ren, m);
  }
}
