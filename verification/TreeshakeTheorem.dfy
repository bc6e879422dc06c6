/** Running the emitted code of the declarations kept: the same as emitting all of them,
    and the same as running the source where no local takes a constant's name. */
module TreeshakeTheorem {
  import opened Arith
  import opened Sauce
  import opened SauceNames
  import opened Treeshake
  import opened TreeshakeSound

  predicate Emits(fn: Fn, env: Vars, fold: bool) {
    EmitList(fn.body, env, fold).Some?
  }

  ghost predicate AllEmit(fns: Table, env: Vars, fold: bool) {
    forall f | f in fns :: Emits(fns[f], env, fold)
  }

  function EmitFn(fn: Fn, env: Vars, fold: bool): Fn
    requires Emits(fn, env, fold)
  {
    Fn(fn.params, EmitList(fn.body, env, fold).value)
  }

  function EmitTable(fns: Table, env: Vars, fold: bool): Table
    requires AllEmit(fns, env, fold)
  {
    map f | f in fns :: EmitFn(fns[f], env, fold)
  }

  /** Emitting what is kept runs `main` as emitting everything does, whatever the operators
      mean and whatever the locals are called. */
  lemma KeptRunsSame(fns: Table, k: set<Ident>, env: Vars, fold: bool, vs: seq<int>, tr: Trace, ctx: Ctx, depth: nat)
    requires Closed(k, fns, env, fold) && AllEmit(fns, env, fold)
    ensures Invoke("main", vs, tr, ctx.(fns := EmitTable(Only(fns, k), env, fold)), depth) ==
            Invoke("main", vs, tr, ctx.(fns := EmitTable(fns, env, fold)), depth)
  {
    var all := EmitTable(fns, env, fold);
    assert Self(k, all) by {
      forall f, g | f in k && f in all && g in CalleesIn(all[f].body) && g in all
        ensures g in k
      {
        NoDanglingCall(fns, k, env, fold, f, g);
      }
    }
    assert Only(all, k) == EmitTable(Only(fns, k), env, fold);
    FewerInvoke("main", vs, tr, ctx.(fns := all), depth, k);
  }

  // ----- against the source -----

  /** Folding computes what the machine would, where folding has an answer. */
  ghost predicate Agrees(ctx: Ctx) {
    && (forall op, v :: ctx.un(op, v) == Unary(op, v))
    && (forall op, a, b | Binary(op, a, b).Some? :: ctx.bin(op, a, b) == Binary(op, a, b).value)
  }

  /** No parameter or written name of a function is a constant's. */
  predicate FnUnshadowed(fn: Fn, env: Vars) {
    UserNames(fn.params) + Writes(fn.body) !! env.Keys
  }

  ghost predicate Unshadowed(fns: Table, env: Vars) {
    forall f | f in fns :: FnUnshadowed(fns[f], env)
  }

  /** `p` runs every source body; `q` the emitted bodies of the functions kept. */
  ghost predicate Setup(p: Ctx, q: Ctx, k: set<Ident>, fold: bool) {
    && Agrees(p) && Closed(k, p.fns, p.consts, fold)
    && Unshadowed(Only(p.fns, k), p.consts) && AllEmit(Only(p.fns, k), p.consts, fold)
    && q == p.(fns := EmitTable(Only(p.fns, k), p.consts, fold))
  }

  lemma {:induction false} ConstSound(e: Expr, vars: Vars, tr: Trace, ctx: Ctx, depth: nat)
    requires Agrees(ctx) && vars.Keys !! ctx.consts.Keys && EvalConst(e, ctx.consts).Some?
    ensures Eval(e, vars, ctx.consts, tr, ctx, depth) == Val(EvalConst(e, ctx.consts).value, tr)
  {
    match e
    case Un(_, a) => ConstSound(a, vars, tr, ctx, depth);
    case Bin(_, l, r) =>
      ConstSound(l, vars, tr, ctx, depth);
      ConstSound(r, vars, tr, ctx, depth);
    case Logic(_, l, r) =>
      ConstSound(l, vars, tr, ctx, depth);
      if EvalConst(r, ctx.consts).Some? {
        ConstSound(r, vars, tr, ctx, depth);
      }
    case _ =>
  }

  lemma {:induction false} PlainSame(e: Expr, vars: Vars, tr: Trace, p: Ctx, q: Ctx, depth: nat, k: set<Ident>, fold: bool)
    requires Setup(p, q, k, fold) && NoTernary(e) && Calls(e, p.consts, fold, p.fns.Keys) <= k
    ensures Eval(e, vars, p.consts, tr, p, depth) == Eval(e, vars, p.consts, tr, q, depth)
    decreases depth, 1, e, 0, 0, 0
  {
    match e
    case Un(_, a) => PlainSame(a, vars, tr, p, q, depth, k, fold);
    case Bin(_, l, r) =>
      PlainSame(l, vars, tr, p, q, depth, k, fold);
      var o := Eval(l, vars, p.consts, tr, p, depth);
      if o.Val? {
        PlainSame(r, vars, o.tr, p, q, depth, k, fold);
      }
    case Logic(_, l, r) =>
      PlainSame(l, vars, tr, p, q, depth, k, fold);
      var o := Eval(l, vars, p.consts, tr, p, depth);
      if o.Val? {
        PlainSame(r, vars, o.tr, p, q, depth, k, fold);
      }
    case Call(callee, args) =>
      ArgsSame(args, vars, tr, p, q, depth, k, fold);
      var o := EvalArgs(args, vars, p.consts, tr, p, depth);
      if o.Vals? {
        InvokeSame(callee, o.vs, o.tr, p, q, depth, k, fold);
      }
    case _ =>
  }

  lemma {:induction false} ArgsSame(args: seq<Expr>, vars: Vars, tr: Trace, p: Ctx, q: Ctx, depth: nat, k: set<Ident>, fold: bool)
    requires Setup(p, q, k, fold) && NoTernaries(args) && ArgCalls(args, p.consts, fold, p.fns.Keys) <= k
    ensures EvalArgs(args, vars, p.consts, tr, p, depth) == EvalArgs(args, vars, p.consts, tr, q, depth)
    decreases depth, 1, args, 0, 0, 0
  {
    if args != [] {
      PlainSame(args[0], vars, tr, p, q, depth, k, fold);
      var o := Eval(args[0], vars, p.consts, tr, p, depth);
      if o.Val? {
        ArgsSame(args[1..], vars, o.tr, p, q, depth, k, fold);
      }
    }
  }

  lemma {:induction false} LexicalWritten(ss: seq<Stmt>)
    ensures Lexical(ss) <= Writes(ss)
    decreases ss, 0
  {
    if ss != [] {
      StmtLexicalWritten(ss[0]);
      LexicalWritten(ss[1..]);
    }
  }

  lemma {:induction false} DeclaredNames(ds: seq<Declarator>)
    ensures DeclaredBy(ds) == DeclNames(ds)
  {
    if ds != [] {
      DeclaredNames(ds[1..]);
      assert ds == [ds[0]] + ds[1..];
    }
  }

  lemma {:induction false} StmtLexicalWritten(s: Stmt)
    ensures StmtLexical(s) <= StmtWrites(s)
    decreases s, 1
  {
    match s
    case Decl(ds) => DeclaredNames(ds);
    case If(_, thn, els) => LexicalWritten(thn); LexicalWritten(els);
    case While(_, body) => LexicalWritten(body);
    case For(init, _, step, body) => LexicalWritten(init); LexicalWritten(step); LexicalWritten(body);
    case _ =>
  }

  lemma {:induction false} WritesConcat(a: seq<Stmt>, b: seq<Stmt>)
    ensures Writes(a + b) == Writes(a) + Writes(b)
  {
    if a == [] {
      assert a + b == b;
    } else {
      assert (a + b)[1..] == a[1..] + b;
      WritesConcat(a[1..], b);
    }
  }

  lemma {:induction false} EmittedDecls(ds: seq<Declarator>, env: Vars, fold: bool)
    requires EmitDecls(ds, env, fold).Some?
    ensures DeclNames(EmitDecls(ds, env, fold).value) == DeclNames(ds)
  {
    if ds != [] {
      EmittedDecls(ds[1..], env, fold);
    }
  }

  /** Emission writes nothing the source did not. */
  lemma {:induction false} EmittedWrites(ss: seq<Stmt>, env: Vars, fold: bool)
    requires EmitList(ss, env, fold).Some?
    ensures Writes(EmitList(ss, env, fold).value) <= Writes(ss)
    decreases ss, 0
  {
    if ss != [] {
      StmtEmittedWrites(ss[0], env, fold);
      EmittedWrites(ss[1..], env, fold);
      WritesConcat(EmitStmt(ss[0], env, fold).value, EmitList(ss[1..], env, fold).value);
    }
  }

  lemma {:induction false} StmtEmittedWrites(s: Stmt, env: Vars, fold: bool)
    requires EmitStmt(s, env, fold).Some?
    ensures Writes(EmitStmt(s, env, fold).value) <= StmtWrites(s)
    decreases s, 1
  {
    var t := EmitStmt(s, env, fold).value;
    match s
    case Decl(ds) => EmittedDecls(ds, env, fold); assert Writes(t) == StmtWrites(t[0]) + Writes([]);
    case If(c, thn, els) =>
      if Known(c, env, fold).Some? {
        EmittedWrites(if Known(c, env, fold).value then thn else els, env, fold);
      } else {
        EmittedWrites(thn, env, fold);
        EmittedWrites(els, env, fold);
        assert Writes(t) == StmtWrites(t[0]) + Writes([]);
      }
    case While(_, body) => EmittedWrites(body, env, fold); assert Writes(t) == StmtWrites(t[0]) + Writes([]);
    case For(init, _, step, body) =>
      EmittedWrites(init, env, fold);
      EmittedWrites(step, env, fold);
      EmittedWrites(body, env, fold);
      assert Writes(t) == StmtWrites(t[0]) + Writes([]);
    case _ => assert Writes(t) == StmtWrites(t[0]) + Writes([]);
  }

  lemma NothingHidden(fn: Fn, env: Vars, fold: bool)
    requires FnUnshadowed(fn, env) && Emits(fn, env, fold)
    ensures env - Scope(fn) == env && env - Scope(EmitFn(fn, env, fold)) == env
  {
    LexicalWritten(fn.body);
    LexicalWritten(EmitFn(fn, env, fold).body);
    EmittedWrites(fn.body, env, fold);
  }

  /** A function kept runs the same from its source and from what is emitted for it. */
  lemma {:induction false} InvokeSame(f: Ident, vs: seq<int>, tr: Trace, p: Ctx, q: Ctx, depth: nat, k: set<Ident>, fold: bool)
    requires Setup(p, q, k, fold) && (f in p.fns ==> f in k)
    ensures Invoke(f, vs, tr, p, depth) == Invoke(f, vs, tr, q, depth)
    decreases depth, 0
  {
    if f in p.fns && depth > 0 && |vs| == |p.fns[f].params| {
      var fn := p.fns[f];
      assert f in Only(p.fns, k) && q.fns[f] == EmitFn(fn, p.consts, fold);
      assert Emits(Only(p.fns, k)[f], p.consts, fold) && FnUnshadowed(Only(p.fns, k)[f], p.consts);
      NothingHidden(fn, p.consts, fold);
      assert CallsIn(fn.body, p.consts, fold, p.fns.Keys) <= k by {
        assert forall g | g in Treeshake.Callees(f, p.fns, p.consts, fold) :: g in k;
      }
      BoundNames(fn.params, vs);
      ListSame(fn.body, Bind(fn.params, vs), tr, p, q, depth - 1, k, fold);
    }
  }

  lemma {:induction false} BoundNames(params: seq<Ident>, vs: seq<int>)
    requires |params| == |vs|
    ensures Bind(params, vs).Keys <= UserNames(params)
  {
    if params != [] {
      BoundNames(params[..|params| - 1], vs[..|vs| - 1]);
    }
  }

  lemma {:induction false} StoreSame(e: Expr, vars: Vars, tr: Trace, p: Ctx, q: Ctx, depth: nat, k: set<Ident>, fold: bool)
    requires Setup(p, q, k, fold) && vars.Keys !! p.consts.Keys
    requires EmitStore(e, p.consts, fold).Some? && Calls(e, p.consts, fold, p.fns.Keys) <= k
    ensures Eval(e, vars, p.consts, tr, p, depth) ==
            Eval(EmitStore(e, p.consts, fold).value, vars, p.consts, tr, q, depth)
    decreases depth, 1, e, 1, 0, 0
  {
    match e
    case Cond(c, t, f) =>
      var b := Known(c, p.consts, fold);
      if b.Some? {
        ConstSound(c, vars, tr, p, depth);
        StoreSame(if b.value then t else f, vars, tr, p, q, depth, k, fold);
      } else {
        PlainSame(c, vars, tr, p, q, depth, k, fold);
        var o := Eval(c, vars, p.consts, tr, p, depth);
        if o.Val? {
          PlainSame(if o.v != 0 then t else f, vars, o.tr, p, q, depth, k, fold);
        }
      }
    case _ => PlainSame(e, vars, tr, p, q, depth, k, fold);
  }

  lemma {:induction false} DeclsSame(ds: seq<Declarator>, vars: Vars, tr: Trace, p: Ctx, q: Ctx, depth: nat, k: set<Ident>, fold: bool)
    requires Setup(p, q, k, fold) && vars.Keys + DeclNames(ds) !! p.consts.Keys
    requires EmitDecls(ds, p.consts, fold).Some? && Treeshake.DeclCalls(ds, p.consts, fold, p.fns.Keys) <= k
    ensures ExecDecls(ds, vars, p.consts, tr, p, depth) ==
            ExecDecls(EmitDecls(ds, p.consts, fold).value, vars, p.consts, tr, q, depth)
    decreases depth, 1, ds, 0, 0, 0
  {
    if ds != [] {
      assert ds decreases to ds[0];
      StoreSame(ds[0].init, vars, tr, p, q, depth, k, fold);
      var out := EmitDecls(ds, p.consts, fold).value;
      assert out[1..] == EmitDecls(ds[1..], p.consts, fold).value;
      var o := Eval(ds[0].init, vars, p.consts, tr, p, depth);
      if o.Val? {
        DeclsSame(ds[1..], vars[ds[0].x := o.v], o.tr, p, q, depth, k, fold);
      }
    }
  }

  lemma StillApart(ss: seq<Stmt>, vars: Vars, tr: Trace, ctx: Ctx, depth: nat)
    requires vars.Keys + Writes(ss) !! ctx.consts.Keys
    ensures var o := Exec(ss, vars, ctx.consts, tr, ctx, depth);
            (o.Normal? || o.Continued?) ==> o.vars.Keys !! ctx.consts.Keys
  {
    var o := Exec(ss, vars, ctx.consts, tr, ctx, depth);
    if o.Normal? || o.Continued? {
      forall n | n in ctx.consts
        ensures n !in o.vars
      {
        Frame(ss, vars, ctx.consts, tr, ctx, depth, n);
      }
    }
  }

  lemma Singleton(s: Stmt, vars: Vars, c: Vars, tr: Trace, ctx: Ctx, depth: nat)
    ensures Exec([s], vars, c, tr, ctx, depth) == ExecStmt(s, vars, c, tr, ctx, depth)
  {
    assert [s][1..] == [];
  }

  lemma {:induction false} ListSame(ss: seq<Stmt>, vars: Vars, tr: Trace, p: Ctx, q: Ctx, depth: nat, k: set<Ident>, fold: bool)
    requires Setup(p, q, k, fold) && vars.Keys + Writes(ss) !! p.consts.Keys
    requires EmitList(ss, p.consts, fold).Some? && CallsIn(ss, p.consts, fold, p.fns.Keys) <= k
    ensures Exec(ss, vars, p.consts, tr, p, depth) ==
            Exec(EmitList(ss, p.consts, fold).value, vars, p.consts, tr, q, depth)
    decreases depth, 1, ss, 0, 0, 0
  {
    if ss != [] {
      var t, rest := EmitStmt(ss[0], p.consts, fold).value, EmitList(ss[1..], p.consts, fold).value;
      StmtSame(ss[0], vars, tr, p, q, depth, k, fold);
      ExecAppend(t, rest, vars, p.consts, tr, q, depth);
      var o := ExecStmt(ss[0], vars, p.consts, tr, p, depth);
      if o.Normal? {
        Singleton(ss[0], vars, p.consts, tr, p, depth);
        assert Writes([ss[0]]) == StmtWrites(ss[0]) + Writes([]);
        StillApart([ss[0]], vars, tr, p, depth);
        ListSame(ss[1..], o.vars, o.tr, p, q, depth, k, fold);
      }
    }
  }

  lemma {:induction false} StmtSame(s: Stmt, vars: Vars, tr: Trace, p: Ctx, q: Ctx, depth: nat, k: set<Ident>, fold: bool)
    requires Setup(p, q, k, fold) && vars.Keys + StmtWrites(s) !! p.consts.Keys
    requires EmitStmt(s, p.consts, fold).Some? && StmtCalls(s, p.consts, fold, p.fns.Keys) <= k
    ensures ExecStmt(s, vars, p.consts, tr, p, depth) ==
            Exec(EmitStmt(s, p.consts, fold).value, vars, p.consts, tr, q, depth)
    decreases depth, 1, s, 2, 0, 0
  {
    if s.If? && Known(s.c, p.consts, fold).Some? {
      ConstSound(s.c, vars, tr, p, depth);
      ListSame(if Known(s.c, p.consts, fold).value then s.thn else s.els, vars, tr, p, q, depth, k, fold);
    } else {
      var t := EmitStmt(s, p.consts, fold).value;
      OneStmtCalls(s, p.consts, fold, p.fns.Keys);
      assert t == [t[0]];
      Singleton(t[0], vars, p.consts, tr, q, depth);
      OneStmtSame(s, vars, tr, p, q, depth, k, fold);
    }
  }

  lemma {:induction false} OneStmtSame(s: Stmt, vars: Vars, tr: Trace, p: Ctx, q: Ctx, depth: nat, k: set<Ident>, fold: bool)
    requires Setup(p, q, k, fold) && vars.Keys + StmtWrites(s) !! p.consts.Keys
    requires !(s.If? && Known(s.c, p.consts, fold).Some?)
    requires var t := EmitStmt(s, p.consts, fold); t.Some? && |t.value| == 1
    requires StmtCalls(s, p.consts, fold, p.fns.Keys) <= k
    ensures ExecStmt(s, vars, p.consts, tr, p, depth) ==
            ExecStmt(EmitStmt(s, p.consts, fold).value[0], vars, p.consts, tr, q, depth)
    decreases depth, 1, s, 1, 0, 0
  {
    match s
    case Decl(ds) => DeclsSame(ds, vars, tr, p, q, depth, k, fold);
    case Assign(_, e) => StoreSame(e, vars, tr, p, q, depth, k, fold);
    case OpAssign(_, _, e) => PlainSame(e, vars, tr, p, q, depth, k, fold);
    case Eff(e) => PlainSame(e, vars, tr, p, q, depth, k, fold);
    case If(_, _, _) => BranchSame(s, vars, tr, p, q, depth, k, fold);
    case While(_, _) => LoopStmtSame(s, vars, tr, p, q, depth, k, fold);
    case For(_, _, _, _) => LoopStmtSame(s, vars, tr, p, q, depth, k, fold);
    case Return(Some(e)) => PlainSame(e, vars, tr, p, q, depth, k, fold);
    case Throw(e) => PlainSame(e, vars, tr, p, q, depth, k, fold);
    case _ =>
  }

  lemma {:induction false} BranchSame(s: Stmt, vars: Vars, tr: Trace, p: Ctx, q: Ctx, depth: nat, k: set<Ident>, fold: bool)
    requires Setup(p, q, k, fold) && vars.Keys + StmtWrites(s) !! p.consts.Keys
    requires s.If? && Known(s.c, p.consts, fold) == None && EmitStmt(s, p.consts, fold).Some?
    requires StmtCalls(s, p.consts, fold, p.fns.Keys) <= k
    ensures ExecStmt(s, vars, p.consts, tr, p, depth) ==
            ExecStmt(EmitStmt(s, p.consts, fold).value[0], vars, p.consts, tr, q, depth)
    decreases depth, 1, s, 0, 0, 0
  {
    PlainSame(s.c, vars, tr, p, q, depth, k, fold);
    var o := Eval(s.c, vars, p.consts, tr, p, depth);
    if o.Val? {
      ListSame(if o.v != 0 then s.thn else s.els, vars, o.tr, p, q, depth, k, fold);
    }
  }

  lemma {:induction false} LoopStmtSame(s: Stmt, vars: Vars, tr: Trace, p: Ctx, q: Ctx, depth: nat, k: set<Ident>, fold: bool)
    requires s.While? || s.For?
    requires Setup(p, q, k, fold) && vars.Keys + StmtWrites(s) !! p.consts.Keys
    requires var t := EmitStmt(s, p.consts, fold); t.Some? && |t.value| == 1
    requires StmtCalls(s, p.consts, fold, p.fns.Keys) <= k
    ensures ExecStmt(s, vars, p.consts, tr, p, depth) ==
            ExecStmt(EmitStmt(s, p.consts, fold).value[0], vars, p.consts, tr, q, depth)
    decreases depth, 1, s, 0, p.limit + 1, 0
  {
    var t := EmitStmt(s, p.consts, fold).value[0];
    if s.While? {
      assert EmitList([], p.consts, fold) == Some([]);
      LoopSame(s, t, vars, tr, p, q, depth, p.limit, k, fold);
    } else {
      ListSame(s.init, vars, tr, p, q, depth, k, fold);
      StillApart(s.init, vars, tr, p, depth);
      var o := Exec(s.init, vars, p.consts, tr, p, depth);
      if o.Normal? {
        LoopSame(s, t, o.vars, o.tr, p, q, depth, p.limit, k, fold);
      }
    }
  }

  /** What emission did to a loop, part by part. */
  ghost predicate LoopEmitted(s: Stmt, t: Stmt, p: Ctx, k: set<Ident>, fold: bool)
    requires s.While? || s.For?
  {
    && (s.For? <==> t.For?) && (s.While? <==> t.While?)
    && t.c == s.c && NoTernary(s.c) && Calls(s.c, p.consts, fold, p.fns.Keys) <= k
    && PartEmitted(s.body, t.body, p, k, fold) && PartEmitted(StepOf(s), StepOf(t), p, k, fold)
  }

  ghost predicate PartEmitted(ss: seq<Stmt>, ts: seq<Stmt>, p: Ctx, k: set<Ident>, fold: bool) {
    && EmitList(ss, p.consts, fold) == Some(ts) && CallsIn(ss, p.consts, fold, p.fns.Keys) <= k
    && Writes(ss) !! p.consts.Keys
  }

  lemma {:induction false} LoopSame(s: Stmt, t: Stmt, vars: Vars, tr: Trace, p: Ctx, q: Ctx, depth: nat, n: nat, k: set<Ident>, fold: bool)
    requires s.While? || s.For?
    requires Setup(p, q, k, fold) && vars.Keys !! p.consts.Keys && LoopEmitted(s, t, p, k, fold)
    ensures ExecLoop(s, vars, p.consts, tr, p, depth, n) == ExecLoop(t, vars, p.consts, tr, q, depth, n)
    decreases depth, 1, s, 0, n, 0
  {
    PlainSame(s.c, vars, tr, p, q, depth, k, fold);
    var r := Eval(s.c, vars, p.consts, tr, p, depth);
    if r.Val? && r.v != 0 && n > 0 {
      ListSame(s.body, vars, r.tr, p, q, depth, k, fold);
      StillApart(s.body, vars, r.tr, p, depth);
      var o := Exec(s.body, vars, p.consts, r.tr, p, depth);
      if o.Normal? || o.Continued? {
        NextSame(s, t, o.vars, o.tr, p, q, depth, n, k, fold);
      }
    }
  }

  lemma {:induction false} NextSame(s: Stmt, t: Stmt, vars: Vars, tr: Trace, p: Ctx, q: Ctx, depth: nat, n: nat, k: set<Ident>, fold: bool)
    requires (s.While? || s.For?) && n > 0
    requires Setup(p, q, k, fold) && vars.Keys !! p.consts.Keys && LoopEmitted(s, t, p, k, fold)
    ensures ExecNext(s, vars, p.consts, tr, p, depth, n) == ExecNext(t, vars, p.consts, tr, q, depth, n)
    decreases depth, 1, s, 0, n - 1, 1
  {
    if s.For? {
      ListSame(s.step, vars, tr, p, q, depth, k, fold);
      StillApart(s.step, vars, tr, p, depth);
      var o := Exec(s.step, vars, p.consts, tr, p, depth);
      if o.Normal? {
        LoopSame(s, t, o.vars, o.tr, p, q, depth, n - 1, k, fold);
      }
    } else {
      LoopSame(s, t, vars, tr, p, q, depth, n - 1, k, fold);
    }
  }

  /** Compiling only what `main` reaches, with known branches pruned, runs as the source does:
      same result, same calls out, for all arguments. Functions not kept need not even be
      ones the compiler accepts. */
  lemma TreeshakePreservesMeaning(ds: seq<Declared>, k: set<Ident>, fold: bool, vs: seq<int>, tr: Trace, ctx: Ctx, depth: nat)
    requires Agrees(ctx)
    requires Closed(k, TableOf(ds), ctx.consts, fold)
    requires Unshadowed(TableOf(Kept(ds, k)), ctx.consts) && AllEmit(TableOf(Kept(ds, k)), ctx.consts, fold)
    ensures Invoke("main", vs, tr, ctx.(fns := EmitTable(TableOf(Kept(ds, k)), ctx.consts, fold)), depth) ==
            Invoke("main", vs, tr, ctx.(fns := TableOf(ds)), depth)
  {
    KeptTable(ds, k);
    var p := ctx.(fns := TableOf(ds));
    assert Only(p.fns, k) == TableOf(Kept(ds, k));
    var q := ctx.(fns := EmitTable(Only(p.fns, k), ctx.consts, fold));
    InvokeSame("main", vs, tr, p, q, depth, k, fold);
  }

  // ----- a parameter named like a constant -----

  function Answer(yes: bool): Stmt {
    Return(Some(Lit(if yes then 1 else 0)))
  }

  /** `function main(x) { if (x) { return 1; } else { return 0; } }`. */
  function TestOf(x: Ident): Fn {
    Fn([x], [If(Var(User(x)), [Answer(true)], [Answer(false)])])
  }

  lemma OneEmitted(st: Stmt, out: Stmt, env: Vars, fold: bool)
    requires EmitStmt(st, env, fold) == Some([out])
    ensures EmitList([st], env, fold) == Some([out])
  {
    assert [st][1..] == [] && [out] + [] == [out];
    assert EmitList([], env, fold) == Some([]);
  }

  lemma TestEmitted(x: Ident, constant: int)
    ensures EmitList(TestOf(x).body, map[User(x) := constant], true) == Some([Answer(constant != 0)])
  {
    var env := map[User(x) := constant];
    OneEmitted(Answer(true), Answer(true), env, true);
    OneEmitted(Answer(false), Answer(false), env, true);
    var test := TestOf(x).body[0];
    assert Known(test.c, env, true) == Some(constant != 0);
    OneEmitted(test, Answer(constant != 0), env, true);
  }

  lemma AnswerRuns(yes: bool, vars: Vars, k: Vars, tr: Trace, ctx: Ctx, depth: nat)
    ensures Exec([Answer(yes)], vars, k, tr, ctx, depth) == ExecStmt(Answer(yes), vars, k, tr, ctx, depth)
    ensures CallResult(ExecStmt(Answer(yes), vars, k, tr, ctx, depth)) == Val(if yes then 1 else 0, tr)
  {
    Singleton(Answer(yes), vars, k, tr, ctx, depth);
    assert Eval(Lit(if yes then 1 else 0), vars, k, tr, ctx, depth) == Val(if yes then 1 else 0, tr);
  }

  lemma TestRuns(x: Ident, arg: int, tr: Trace, ctx: Ctx, depth: nat)
    requires depth >= 1 && "main" in ctx.fns && ctx.fns["main"] == TestOf(x)
    ensures Invoke("main", [arg], tr, ctx, depth) == Val(if arg != 0 then 1 else 0, tr)
  {
    var vars, k, test := Bind([x], [arg]), ctx.consts - Scope(TestOf(x)), TestOf(x).body[0];
    assert vars[User(x)] == arg;
    AnswerRuns(arg != 0, vars, k, tr, ctx, depth - 1);
    assert Eval(test.c, vars, k, tr, ctx, depth - 1) == Val(arg, tr);
    Singleton(test, vars, k, tr, ctx, depth - 1);
  }

  lemma EmittedTestRuns(x: Ident, yes: bool, arg: int, tr: Trace, ctx: Ctx, depth: nat)
    requires depth >= 1 && "main" in ctx.fns && ctx.fns["main"] == Fn([x], [Answer(yes)])
    ensures Invoke("main", [arg], tr, ctx, depth) == Val(if yes then 1 else 0, tr)
  {
    AnswerRuns(yes, Bind([x], [arg]), ctx.consts - Scope(ctx.fns["main"]), tr, ctx, depth - 1);
  }

  /** Such a parameter is not consulted: what is emitted decides by the constant, and so agrees
      with the source exactly when both point the same way. */
  lemma ShadowedTestExactly(x: Ident, constant: int, arg: int, tr: Trace, ctx: Ctx, depth: nat)
    requires depth >= 1 && ctx.consts == map[User(x) := constant]
    ensures Emits(TestOf(x), ctx.consts, true)
    ensures Invoke("main", [arg], tr, ctx.(fns := map["main" := EmitFn(TestOf(x), ctx.consts, true)]), depth) ==
            Invoke("main", [arg], tr, ctx.(fns := map["main" := TestOf(x)]), depth)
            <==> (arg != 0) == (constant != 0)
  {
    TestEmitted(x, constant);
    TestRuns(x, arg, tr, ctx.(fns := map["main" := TestOf(x)]), depth);
    EmittedTestRuns(x, constant != 0, arg, tr, ctx.(fns := map["main" := EmitFn(TestOf(x), ctx.consts, true)]), depth);
  }
}
