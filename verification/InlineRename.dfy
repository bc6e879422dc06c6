/** Running a renamed body in its caller's frame is running the body in its own frame. */
module InlineRename {
  import opened Arith
  import opened Sauce
  import opened SauceNames
  import opened Inline

  /** Frame `f` lives on inside `s` under `ren`; the other `names` of the body denote
      the same constants on both sides and are variables on neither. */
  ghost predicate Mirror(f: Vars, s: Vars, ren: Renaming, names: set<Name>, kf: Vars, k: Vars) {
    && f.Keys <= ren.Keys
    && (forall n | n in f :: ren[n] in s && s[ren[n]] == f[n])
    && (forall n, p | n in ren && p in ren && ren[n] == ren[p] :: n == p)
    && (forall n | n in ren :: n !in kf && ren[n] !in names)
    && (forall n | n in names && n !in ren :: n !in s && (n in kf ==> n in k && k[n] == kf[n]))
  }

  lemma MirrorStore(f: Vars, s: Vars, ren: Renaming, names: set<Name>, kf: Vars, k: Vars, x: Name, v: int)
    requires Mirror(f, s, ren, names, kf, k) && x in ren
    ensures Mirror(f[x := v], s[ren[x] := v], ren, names, kf, k)
  {
  }

  lemma {:induction false} RenameEval(e: Expr, f: Vars, s: Vars, ren: Renaming, names: set<Name>, kf: Vars, k: Vars,
                                      tr: Trace, ctx: Ctx, d: nat)
    requires Mirror(f, s, ren, names, kf, k) && Reads(e) <= names
    ensures var r := Eval(e, f, kf, tr, ctx, d);
            r.EStuck? || Eval(RenameExpr(e, ren), s, k, tr, ctx, d) == r
    decreases e, 1
  {
    match e
    case Lit(_) =>
    case Var(_) =>
    case Un(_, e1) => RenameEval(e1, f, s, ren, names, kf, k, tr, ctx, d);
    case Bin(_, _, _) => RenameEvalBin(e, f, s, ren, names, kf, k, tr, ctx, d);
    case Logic(_, _, _) => RenameEvalLogic(e, f, s, ren, names, kf, k, tr, ctx, d);
    case Cond(_, _, _) => RenameEvalCond(e, f, s, ren, names, kf, k, tr, ctx, d);
    case Call(_, args) => RenameEvalArgs(args, f, s, ren, names, kf, k, tr, ctx, d);
  }

  lemma {:induction false} RenameEvalBin(e: Expr, f: Vars, s: Vars, ren: Renaming, names: set<Name>, kf: Vars, k: Vars,
                                         tr: Trace, ctx: Ctx, d: nat)
    requires e.Bin? && Mirror(f, s, ren, names, kf, k) && Reads(e) <= names
    ensures var r := Eval(e, f, kf, tr, ctx, d);
            r.EStuck? || Eval(RenameExpr(e, ren), s, k, tr, ctx, d) == r
    decreases e, 0
  {
    RenameEval(e.l, f, s, ren, names, kf, k, tr, ctx, d);
    var rl := Eval(e.l, f, kf, tr, ctx, d);
    if rl.Val? { RenameEval(e.r, f, s, ren, names, kf, k, rl.tr, ctx, d); }
  }

  lemma {:induction false} RenameEvalLogic(e: Expr, f: Vars, s: Vars, ren: Renaming, names: set<Name>, kf: Vars,
                                           k: Vars, tr: Trace, ctx: Ctx, d: nat)
    requires e.Logic? && Mirror(f, s, ren, names, kf, k) && Reads(e) <= names
    ensures var r := Eval(e, f, kf, tr, ctx, d);
            r.EStuck? || Eval(RenameExpr(e, ren), s, k, tr, ctx, d) == r
    decreases e, 0
  {
    RenameEval(e.l, f, s, ren, names, kf, k, tr, ctx, d);
    var rl := Eval(e.l, f, kf, tr, ctx, d);
    if rl.Val? { RenameEval(e.r, f, s, ren, names, kf, k, rl.tr, ctx, d); }
  }

  lemma {:induction false} RenameEvalCond(e: Expr, f: Vars, s: Vars, ren: Renaming, names: set<Name>, kf: Vars,
                                          k: Vars, tr: Trace, ctx: Ctx, d: nat)
    requires e.Cond? && Mirror(f, s, ren, names, kf, k) && Reads(e) <= names
    ensures var r := Eval(e, f, kf, tr, ctx, d);
            r.EStuck? || Eval(RenameExpr(e, ren), s, k, tr, ctx, d) == r
    decreases e, 0
  {
    RenameEval(e.c, f, s, ren, names, kf, k, tr, ctx, d);
    var rc := Eval(e.c, f, kf, tr, ctx, d);
    if rc.Val? { RenameEval(if rc.v != 0 then e.t else e.f, f, s, ren, names, kf, k, rc.tr, ctx, d); }
  }

  lemma {:induction false} RenameEvalArgs(args: seq<Expr>, f: Vars, s: Vars, ren: Renaming, names: set<Name>,
                                          kf: Vars, k: Vars, tr: Trace, ctx: Ctx, d: nat)
    requires Mirror(f, s, ren, names, kf, k) && ArgReads(args) <= names
    ensures var r := EvalArgs(args, f, kf, tr, ctx, d);
            r.AStuck? || EvalArgs(RenameArgs(args, ren), s, k, tr, ctx, d) == r
    decreases args, 0
  {
    if args != [] {
      RenameEval(args[0], f, s, ren, names, kf, k, tr, ctx, d);
      var r := Eval(args[0], f, kf, tr, ctx, d);
      assert RenameArgs(args, ren)[1..] == RenameArgs(args[1..], ren);
      if r.Val? { RenameEvalArgs(args[1..], f, s, ren, names, kf, k, r.tr, ctx, d); }
    }
  }

  /** The two runs end alike, still mirroring each other. */
  ghost predicate EndsAlike(o: Outcome, p: Outcome, ren: Renaming, names: set<Name>, kf: Vars, k: Vars) {
    match o
    case Stuck => true
    case Normal(f, tr) => p.Normal? && p.tr == tr && Mirror(f, p.vars, ren, names, kf, k)
    case Returned(v, f, tr) => p.Returned? && p.v == v && p.tr == tr && Mirror(f, p.vars, ren, names, kf, k)
    case Thrown => p.Thrown?
    case _ => false
  }

  lemma {:induction false} RenameExecDecls(ds: seq<Declarator>, f: Vars, s: Vars, ren: Renaming, names: set<Name>,
                                           kf: Vars, k: Vars, tr: Trace, ctx: Ctx, d: nat)
    requires Mirror(f, s, ren, names, kf, k)
    requires DeclReads(ds) <= names && DeclNames(ds) <= ren.Keys
    ensures EndsAlike(ExecDecls(ds, f, kf, tr, ctx, d), ExecDecls(RenameDecls(ds, ren), s, k, tr, ctx, d),
                      ren, names, kf, k)
  {
    if ds != [] {
      var x := ds[0].x;
      assert x in DeclNames(ds);
      RenameEval(ds[0].init, f, s, ren, names, kf, k, tr, ctx, d);
      var r := Eval(ds[0].init, f, kf, tr, ctx, d);
      assert RenameDecls(ds, ren)[1..] == RenameDecls(ds[1..], ren);
      if r.Val? {
        MirrorStore(f, s, ren, names, kf, k, x, r.v);
        RenameExecDecls(ds[1..], f[x := r.v], s[ren[x] := r.v], ren, names, kf, k, r.tr, ctx, d);
      }
    }
  }

  lemma {:induction false} RenameExec(ss: seq<Stmt>, f: Vars, s: Vars, ren: Renaming, names: set<Name>,
                                      kf: Vars, k: Vars, tr: Trace, ctx: Ctx, d: nat)
    requires Mirror(f, s, ren, names, kf, k) && Inlineable(ss)
    requires Mentions(ss) <= names && Lexical(ss) <= ren.Keys
    ensures EndsAlike(Exec(ss, f, kf, tr, ctx, d), Exec(RenameStmts(ss, ren), s, k, tr, ctx, d), ren, names, kf, k)
    decreases ss, 0
  {
    if ss != [] {
      RenameExecStmt(ss[0], f, s, ren, names, kf, k, tr, ctx, d);
      var o := ExecStmt(ss[0], f, kf, tr, ctx, d);
      var p := ExecStmt(RenameStmt(ss[0], ren), s, k, tr, ctx, d);
      assert RenameStmts(ss, ren)[1..] == RenameStmts(ss[1..], ren);
      if o.Normal? {
        RenameExec(ss[1..], o.vars, p.vars, ren, names, kf, k, o.tr, ctx, d);
      }
    }
  }

  lemma DeclaredNames(ds: seq<Declarator>)
    ensures DeclaredBy(ds) == DeclNames(ds)
  {
    if ds != [] {
      DeclaredNames(ds[1..]);
      assert ds == [ds[0]] + ds[1..];
    }
  }

  lemma {:induction false} RenameExecIf(st: Stmt, f: Vars, s: Vars, ren: Renaming, names: set<Name>,
                                        kf: Vars, k: Vars, tr: Trace, ctx: Ctx, d: nat)
    requires Mirror(f, s, ren, names, kf, k) && st.If? && InlineableStmt(st)
    requires StmtMentions(st) <= names && StmtLexical(st) <= ren.Keys
    ensures EndsAlike(ExecStmt(st, f, kf, tr, ctx, d), ExecStmt(RenameStmt(st, ren), s, k, tr, ctx, d),
                      ren, names, kf, k)
    decreases st, 1
  {
    RenameEval(st.c, f, s, ren, names, kf, k, tr, ctx, d);
    var r := Eval(st.c, f, kf, tr, ctx, d);
    if r.Val? {
      RenameExec(if r.v != 0 then st.thn else st.els, f, s, ren, names, kf, k, r.tr, ctx, d);
    }
  }

  lemma RenameExecSet(st: Stmt, f: Vars, s: Vars, ren: Renaming, names: set<Name>,
                      kf: Vars, k: Vars, tr: Trace, ctx: Ctx, d: nat)
    requires Mirror(f, s, ren, names, kf, k) && (st.Assign? || st.OpAssign? || st.Update?)
    requires StmtMentions(st) <= names
    ensures EndsAlike(ExecStmt(st, f, kf, tr, ctx, d), ExecStmt(RenameStmt(st, ren), s, k, tr, ctx, d),
                      ren, names, kf, k)
  {
    var o := ExecStmt(st, f, kf, tr, ctx, d);
    if !st.Update? {
      RenameEval(st.e, f, s, ren, names, kf, k, tr, ctx, d);
    }
    if o.Normal? {
      MirrorStore(f, s, ren, names, kf, k, st.x, o.vars[st.x]);
    }
  }

  lemma {:induction false} RenameExecStmt(st: Stmt, f: Vars, s: Vars, ren: Renaming, names: set<Name>,
                                          kf: Vars, k: Vars, tr: Trace, ctx: Ctx, d: nat)
    requires Mirror(f, s, ren, names, kf, k) && InlineableStmt(st)
    requires StmtMentions(st) <= names && StmtLexical(st) <= ren.Keys
    ensures EndsAlike(ExecStmt(st, f, kf, tr, ctx, d), ExecStmt(RenameStmt(st, ren), s, k, tr, ctx, d),
                      ren, names, kf, k)
    decreases st, 2
  {
    match st
    case Decl(ds) =>
      DeclaredNames(ds);
      RenameExecDecls(ds, f, s, ren, names, kf, k, tr, ctx, d);
    case Assign(_, _) => RenameExecSet(st, f, s, ren, names, kf, k, tr, ctx, d);
    case OpAssign(_, _, _) => RenameExecSet(st, f, s, ren, names, kf, k, tr, ctx, d);
    case Update(_, _) => RenameExecSet(st, f, s, ren, names, kf, k, tr, ctx, d);
    case If(_, _, _) => RenameExecIf(st, f, s, ren, names, kf, k, tr, ctx, d);
    case _ => RenameExecRead(st, f, s, ren, names, kf, k, tr, ctx, d);
  }

  lemma {:induction false} RenameExecRead(st: Stmt, f: Vars, s: Vars, ren: Renaming, names: set<Name>,
                                          kf: Vars, k: Vars, tr: Trace, ctx: Ctx, d: nat)
    requires Mirror(f, s, ren, names, kf, k) && (st.Eff? || st.Return? || st.Throw?)
    requires StmtMentions(st) <= names
    ensures EndsAlike(ExecStmt(st, f, kf, tr, ctx, d), ExecStmt(RenameStmt(st, ren), s, k, tr, ctx, d),
                      ren, names, kf, k)
  {
    match st
    case Eff(e) => RenameEval(e, f, s, ren, names, kf, k, tr, ctx, d);
    case Return(None) =>
    case Return(Some(e)) => RenameReturn(e, f, s, ren, names, kf, k, tr, ctx, d);
    case Throw(e) => RenameEval(e, f, s, ren, names, kf, k, tr, ctx, d);
  }

  lemma {:induction false} RenameReturn(e: Expr, f: Vars, s: Vars, ren: Renaming, names: set<Name>,
                                        kf: Vars, k: Vars, tr: Trace, ctx: Ctx, d: nat)
    requires Mirror(f, s, ren, names, kf, k) && Reads(e) <= names
    ensures EndsAlike(ExecStmt(Return(Some(e)), f, kf, tr, ctx, d),
                      ExecStmt(Return(Some(RenameExpr(e, ren))), s, k, tr, ctx, d), ren, names, kf, k)
  {
    RenameEval(e, f, s, ren, names, kf, k, tr, ctx, d);
  }

  /** The part of the simulation that does not mention the frames. */
  ghost predicate SameEnd(o: Outcome, p: Outcome) {
    && (o.Normal? ==> p.Normal? && p.tr == o.tr)
    && (o.Returned? ==> p.Returned? && p.v == o.v && p.tr == o.tr)
    && (o.Thrown? ==> p.Thrown?)
  }

  lemma RenameEnds(body: seq<Stmt>, f: Vars, s: Vars, ren: Renaming, kf: Vars, k: Vars, tr: Trace, ctx: Ctx, d: nat)
    requires Mirror(f, s, ren, Mentions(body), kf, k) && Inlineable(body) && Lexical(body) <= ren.Keys
    ensures SameEnd(Exec(body, f, kf, tr, ctx, d), Exec(RenameStmts(body, ren), s, k, tr, ctx, d))
  {
    RenameExec(body, f, s, ren, Mentions(body), kf, k, tr, ctx, d);
  }
}
