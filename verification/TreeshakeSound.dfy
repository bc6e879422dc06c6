/** What is emitted for a body, and why a program runs the same on the declarations kept. */
module TreeshakeSound {
  import opened Arith
  import opened Sauce
  import opened SauceNames
  import opened Treeshake

  // ----- emission -----

  /** Ternaries are refused everywhere but directly in a declaration or an assignment. */
  predicate NoTernary(e: Expr)
    decreases e, 0
  {
    match e
    case Un(_, a) => NoTernary(a)
    case Bin(_, l, r) => NoTernary(l) && NoTernary(r)
    case Logic(_, l, r) => NoTernary(l) && NoTernary(r)
    case Cond(_, _, _) => false
    case Call(_, args) => NoTernaries(args)
    case _ => true
  }

  predicate NoTernaries(args: seq<Expr>)
    decreases args, 0
  {
    args == [] || (NoTernary(args[0]) && NoTernaries(args[1..]))
  }

  function Plain(e: Expr): Option<Expr> {
    if NoTernary(e) then Some(e) else None
  }

  /** A stored ternary with a known test stores only the side it takes. */
  function EmitStore(e: Expr, env: Vars, fold: bool): Option<Expr> {
    match e
    case Cond(c, t, f) =>
      (match Known(c, env, fold)
       case Some(b) => EmitStore(if b then t else f, env, fold)
       case None => if NoTernary(c) && NoTernary(t) && NoTernary(f) then Some(e) else None)
    case _ => Plain(e)
  }

  function EmitDecls(ds: seq<Declarator>, env: Vars, fold: bool): Option<seq<Declarator>> {
    if ds == [] then Some([])
    else
      match (EmitStore(ds[0].init, env, fold), EmitDecls(ds[1..], env, fold))
      case (Some(e), Some(rest)) => Some([Declarator(ds[0].x, e)] + rest)
      case _ => None
  }

  function EmitList(ss: seq<Stmt>, env: Vars, fold: bool): Option<seq<Stmt>>
    decreases ss, 0
  {
    if ss == [] then Some([])
    else
      match (EmitStmt(ss[0], env, fold), EmitList(ss[1..], env, fold))
      case (Some(t), Some(rest)) => Some(t + rest)
      case _ => None
  }

  /** An `if` with a known test becomes the statements of the side it takes. */
  function EmitStmt(s: Stmt, env: Vars, fold: bool): Option<seq<Stmt>>
    decreases s, 1
  {
    match s
    case Decl(ds) =>
      (match EmitDecls(ds, env, fold)
       case Some(d) => Some([Decl(d)])
       case None => None)
    case Assign(x, e) =>
      (match EmitStore(e, env, fold)
       case Some(v) => Some([Assign(x, v)])
       case None => None)
    case OpAssign(_, _, e) => if NoTernary(e) then Some([s]) else None
    case Eff(e) => if NoTernary(e) then Some([s]) else None
    case If(c, thn, els) =>
      (match Known(c, env, fold)
       case Some(b) => EmitList(if b then thn else els, env, fold)
       case None =>
         (match (EmitList(thn, env, fold), EmitList(els, env, fold))
          case (Some(t), Some(f)) => if NoTernary(c) then Some([If(c, t, f)]) else None
          case _ => None))
    case While(c, body) =>
      (match EmitList(body, env, fold)
       case Some(b) => if NoTernary(c) then Some([While(c, b)]) else None
       case None => None)
    case For(init, c, step, body) =>
      (match (EmitList(init, env, fold), EmitList(step, env, fold), EmitList(body, env, fold))
       case (Some(i), Some(st), Some(b)) => if NoTernary(c) then Some([For(i, c, st, b)]) else None
       case _ => None)
    case Return(Some(e)) => if NoTernary(e) then Some([s]) else None
    case Throw(e) => if NoTernary(e) then Some([s]) else None
    case _ => Some([s])
  }

  // ----- the calls emitted are the calls walked -----

  lemma {:induction false} PlainCalls(e: Expr, env: Vars, fold: bool, declared: set<Ident>)
    requires NoTernary(e)
    ensures Calls(e, env, fold, declared) == SauceNames.Callees(e) * declared
    decreases e, 0
  {
    match e
    case Un(_, a) => PlainCalls(a, env, fold, declared);
    case Bin(_, l, r) => PlainCalls(l, env, fold, declared); PlainCalls(r, env, fold, declared);
    case Logic(_, l, r) => PlainCalls(l, env, fold, declared); PlainCalls(r, env, fold, declared);
    case Call(_, args) => PlainArgCalls(args, env, fold, declared);
    case _ =>
  }

  lemma {:induction false} PlainArgCalls(args: seq<Expr>, env: Vars, fold: bool, declared: set<Ident>)
    requires NoTernaries(args)
    ensures ArgCalls(args, env, fold, declared) == ArgCallees(args) * declared
    decreases args, 0
  {
    if args != [] {
      PlainCalls(args[0], env, fold, declared);
      PlainArgCalls(args[1..], env, fold, declared);
    }
  }

  lemma {:induction false} StoreCalls(e: Expr, env: Vars, fold: bool, declared: set<Ident>)
    requires EmitStore(e, env, fold).Some?
    ensures Calls(e, env, fold, declared) == SauceNames.Callees(EmitStore(e, env, fold).value) * declared
  {
    match e
    case Cond(c, t, f) =>
      var b := Known(c, env, fold);
      if b.Some? {
        StoreCalls(if b.value then t else f, env, fold, declared);
      } else {
        PlainCalls(c, env, fold, declared);
        PlainCalls(t, env, fold, declared);
        PlainCalls(f, env, fold, declared);
      }
    case _ => PlainCalls(e, env, fold, declared);
  }

  lemma {:induction false} DeclCallsEmitted(ds: seq<Declarator>, env: Vars, fold: bool, declared: set<Ident>)
    requires EmitDecls(ds, env, fold).Some?
    ensures Treeshake.DeclCalls(ds, env, fold, declared) == DeclCallees(EmitDecls(ds, env, fold).value) * declared
  {
    if ds != [] {
      StoreCalls(ds[0].init, env, fold, declared);
      DeclCallsEmitted(ds[1..], env, fold, declared);
      var rest := EmitDecls(ds[1..], env, fold).value;
      var one := [Declarator(ds[0].x, EmitStore(ds[0].init, env, fold).value)];
      assert (one + rest)[1..] == rest;
    }
  }

  lemma {:induction false} CalleesConcat(a: seq<Stmt>, b: seq<Stmt>)
    ensures CalleesIn(a + b) == CalleesIn(a) + CalleesIn(b)
  {
    if a == [] {
      assert a + b == b;
    } else {
      assert (a + b)[1..] == a[1..] + b;
      CalleesConcat(a[1..], b);
    }
  }

  /** The declared functions an emitted body calls are exactly those the walk collects. */
  lemma {:induction false} CallsAreEmitted(ss: seq<Stmt>, env: Vars, fold: bool, declared: set<Ident>)
    requires EmitList(ss, env, fold).Some?
    ensures CallsIn(ss, env, fold, declared) == CalleesIn(EmitList(ss, env, fold).value) * declared
    decreases ss, 0
  {
    if ss != [] {
      StmtCallsEmitted(ss[0], env, fold, declared);
      CallsAreEmitted(ss[1..], env, fold, declared);
      CalleesConcat(EmitStmt(ss[0], env, fold).value, EmitList(ss[1..], env, fold).value);
    }
  }

  lemma {:induction false} StmtCallsEmitted(s: Stmt, env: Vars, fold: bool, declared: set<Ident>)
    requires EmitStmt(s, env, fold).Some?
    ensures StmtCalls(s, env, fold, declared) == CalleesIn(EmitStmt(s, env, fold).value) * declared
    decreases s, 1
  {
    if s.If? && Known(s.c, env, fold).Some? {
      CallsAreEmitted(if Known(s.c, env, fold).value then s.thn else s.els, env, fold, declared);
    } else {
      OneStmtCalls(s, env, fold, declared);
      var t := EmitStmt(s, env, fold).value;
      assert t == [t[0]] && CalleesIn(t) == StmtCallees(t[0]) + CalleesIn([]);
    }
  }

  lemma {:induction false} OneStmtCalls(s: Stmt, env: Vars, fold: bool, declared: set<Ident>)
    requires EmitStmt(s, env, fold).Some? && !(s.If? && Known(s.c, env, fold).Some?)
    ensures var t := EmitStmt(s, env, fold).value;
            |t| == 1 && StmtCalls(s, env, fold, declared) == StmtCallees(t[0]) * declared
    decreases s, 0
  {
    match s
    case Decl(ds) => DeclCallsEmitted(ds, env, fold, declared);
    case Assign(_, e) => StoreCalls(e, env, fold, declared);
    case OpAssign(_, _, e) => PlainCalls(e, env, fold, declared);
    case Eff(e) => PlainCalls(e, env, fold, declared);
    case If(c, thn, els) =>
      PlainCalls(c, env, fold, declared);
      CallsAreEmitted(thn, env, fold, declared);
      CallsAreEmitted(els, env, fold, declared);
    case While(c, body) =>
      PlainCalls(c, env, fold, declared);
      CallsAreEmitted(body, env, fold, declared);
    case For(init, c, step, body) =>
      CallsAreEmitted(init, env, fold, declared);
      PlainCalls(c, env, fold, declared);
      CallsAreEmitted(step, env, fold, declared);
      CallsAreEmitted(body, env, fold, declared);
    case Return(Some(e)) => PlainCalls(e, env, fold, declared);
    case Throw(e) => PlainCalls(e, env, fold, declared);
    case _ =>
  }

  /** Every call left in a kept function's emitted code is to a kept function or to no
      declared function at all. */
  lemma NoDanglingCall(fns: Table, k: set<Ident>, env: Vars, fold: bool, f: Ident, g: Ident)
    requires Closed(k, fns, env, fold) && f in k && f in fns
    requires var body := EmitList(fns[f].body, env, fold); body.Some? && g in CalleesIn(body.value)
    ensures g in fns ==> g in k
  {
    CallsAreEmitted(fns[f].body, env, fold, fns.Keys);
    assert g in fns ==> g in Treeshake.Callees(f, fns, env, fold);
  }

  // ----- runs over fewer declarations -----

  /** A set of functions that call, among the declared, only each other. */
  ghost predicate Self(k: set<Ident>, fns: Table) {
    forall f, g | f in k && f in fns && g in CalleesIn(fns[f].body) && g in fns :: g in k
  }

  function Fewer(ctx: Ctx, k: set<Ident>): Ctx {
    ctx.(fns := Only(ctx.fns, k))
  }

  ghost predicate Within(names: set<Ident>, k: set<Ident>, fns: Table) {
    names * fns.Keys <= k
  }

  lemma {:induction false} FewerEval(e: Expr, vars: Vars, c: Vars, tr: Trace, ctx: Ctx, depth: nat, k: set<Ident>)
    requires Self(k, ctx.fns) && Within(SauceNames.Callees(e), k, ctx.fns)
    ensures Eval(e, vars, c, tr, Fewer(ctx, k), depth) == Eval(e, vars, c, tr, ctx, depth)
    decreases depth, 1, e, 0, 0, 0
  {
    match e
    case Lit(_) =>
    case Var(_) =>
    case Un(_, a) => FewerEval(a, vars, c, tr, ctx, depth, k);
    case Bin(_, l, r) =>
      FewerEval(l, vars, c, tr, ctx, depth, k);
      var o := Eval(l, vars, c, tr, ctx, depth);
      if o.Val? {
        FewerEval(r, vars, c, o.tr, ctx, depth, k);
      }
    case Logic(_, l, r) =>
      FewerEval(l, vars, c, tr, ctx, depth, k);
      var o := Eval(l, vars, c, tr, ctx, depth);
      if o.Val? {
        FewerEval(r, vars, c, o.tr, ctx, depth, k);
      }
    case Cond(b, t, f) =>
      FewerEval(b, vars, c, tr, ctx, depth, k);
      var o := Eval(b, vars, c, tr, ctx, depth);
      if o.Val? {
        FewerEval(if o.v != 0 then t else f, vars, c, o.tr, ctx, depth, k);
      }
    case Call(callee, args) =>
      FewerArgs(args, vars, c, tr, ctx, depth, k);
      var o := EvalArgs(args, vars, c, tr, ctx, depth);
      if o.Vals? {
        FewerInvoke(callee, o.vs, o.tr, ctx, depth, k);
      }
  }

  lemma {:induction false} FewerArgs(args: seq<Expr>, vars: Vars, c: Vars, tr: Trace, ctx: Ctx, depth: nat, k: set<Ident>)
    requires Self(k, ctx.fns) && Within(ArgCallees(args), k, ctx.fns)
    ensures EvalArgs(args, vars, c, tr, Fewer(ctx, k), depth) == EvalArgs(args, vars, c, tr, ctx, depth)
    decreases depth, 1, args, 0, 0, 0
  {
    if args != [] {
      FewerEval(args[0], vars, c, tr, ctx, depth, k);
      var o := Eval(args[0], vars, c, tr, ctx, depth);
      if o.Val? {
        FewerArgs(args[1..], vars, c, o.tr, ctx, depth, k);
      }
    }
  }

  /** The functions outside a self-contained set make no difference to a run inside it. */
  lemma {:induction false} FewerInvoke(f: Ident, vs: seq<int>, tr: Trace, ctx: Ctx, depth: nat, k: set<Ident>)
    requires Self(k, ctx.fns) && (f in ctx.fns ==> f in k)
    ensures Invoke(f, vs, tr, Fewer(ctx, k), depth) == Invoke(f, vs, tr, ctx, depth)
    decreases depth, 0
  {
    if f in ctx.fns && depth > 0 && |vs| == |ctx.fns[f].params| {
      var fn := ctx.fns[f];
      FewerExec(fn.body, Bind(fn.params, vs), ctx.consts - Scope(fn), tr, ctx, depth - 1, k);
    }
  }

  lemma {:induction false} FewerDecls(ds: seq<Declarator>, vars: Vars, c: Vars, tr: Trace, ctx: Ctx, depth: nat, k: set<Ident>)
    requires Self(k, ctx.fns) && Within(DeclCallees(ds), k, ctx.fns)
    ensures ExecDecls(ds, vars, c, tr, Fewer(ctx, k), depth) == ExecDecls(ds, vars, c, tr, ctx, depth)
    decreases depth, 1, ds, 0, 0, 0
  {
    if ds != [] {
      assert ds decreases to ds[0];
      FewerEval(ds[0].init, vars, c, tr, ctx, depth, k);
      var o := Eval(ds[0].init, vars, c, tr, ctx, depth);
      if o.Val? {
        FewerDecls(ds[1..], vars[ds[0].x := o.v], c, o.tr, ctx, depth, k);
      }
    }
  }

  lemma {:induction false} FewerExec(ss: seq<Stmt>, vars: Vars, c: Vars, tr: Trace, ctx: Ctx, depth: nat, k: set<Ident>)
    requires Self(k, ctx.fns) && Within(CalleesIn(ss), k, ctx.fns)
    ensures Exec(ss, vars, c, tr, Fewer(ctx, k), depth) == Exec(ss, vars, c, tr, ctx, depth)
    decreases depth, 1, ss, 0, 0, 0
  {
    if ss != [] {
      FewerStmt(ss[0], vars, c, tr, ctx, depth, k);
      var o := ExecStmt(ss[0], vars, c, tr, ctx, depth);
      if o.Normal? {
        FewerExec(ss[1..], o.vars, c, o.tr, ctx, depth, k);
      }
    }
  }

  lemma {:induction false} FewerStmt(s: Stmt, vars: Vars, c: Vars, tr: Trace, ctx: Ctx, depth: nat, k: set<Ident>)
    requires Self(k, ctx.fns) && Within(StmtCallees(s), k, ctx.fns)
    ensures ExecStmt(s, vars, c, tr, Fewer(ctx, k), depth) == ExecStmt(s, vars, c, tr, ctx, depth)
    decreases depth, 1, s, 1, 0, 0
  {
    match s
    case Decl(ds) => FewerDecls(ds, vars, c, tr, ctx, depth, k);
    case Assign(_, e) => FewerEval(e, vars, c, tr, ctx, depth, k);
    case OpAssign(_, _, e) => FewerEval(e, vars, c, tr, ctx, depth, k);
    case Eff(e) => FewerEval(e, vars, c, tr, ctx, depth, k);
    case If(b, thn, els) =>
      FewerEval(b, vars, c, tr, ctx, depth, k);
      var o := Eval(b, vars, c, tr, ctx, depth);
      if o.Val? {
        FewerExec(if o.v != 0 then thn else els, vars, c, o.tr, ctx, depth, k);
      }
    case While(_, _) => FewerLoop(s, vars, c, tr, ctx, depth, ctx.limit, k);
    case For(init, _, _, _) =>
      FewerExec(init, vars, c, tr, ctx, depth, k);
      var o := Exec(init, vars, c, tr, ctx, depth);
      if o.Normal? {
        FewerLoop(s, o.vars, c, o.tr, ctx, depth, ctx.limit, k);
      }
    case Return(Some(e)) => FewerEval(e, vars, c, tr, ctx, depth, k);
    case Throw(e) => FewerEval(e, vars, c, tr, ctx, depth, k);
    case _ =>
  }

  lemma {:induction false} FewerLoop(s: Stmt, vars: Vars, c: Vars, tr: Trace, ctx: Ctx, depth: nat, n: nat, k: set<Ident>)
    requires s.While? || s.For?
    requires Self(k, ctx.fns) && Within(StmtCallees(s), k, ctx.fns)
    ensures ExecLoop(s, vars, c, tr, Fewer(ctx, k), depth, n) == ExecLoop(s, vars, c, tr, ctx, depth, n)
    decreases depth, 1, s, 0, n, 0
  {
    FewerEval(s.c, vars, c, tr, ctx, depth, k);
    var r := Eval(s.c, vars, c, tr, ctx, depth);
    if r.Val? && r.v != 0 && n > 0 {
      FewerExec(s.body, vars, c, r.tr, ctx, depth, k);
      var o := Exec(s.body, vars, c, r.tr, ctx, depth);
      if o.Normal? || o.Continued? {
        if s.For? {
          FewerExec(s.step, o.vars, c, o.tr, ctx, depth, k);
          var o3 := Exec(s.step, o.vars, c, o.tr, ctx, depth);
          if o3.Normal? {
            FewerLoop(s, o3.vars, c, o3.tr, ctx, depth, n - 1, k);
          }
        } else {
          FewerLoop(s, o.vars, c, o.tr, ctx, depth, n - 1, k);
        }
      }
    }
  }
}
