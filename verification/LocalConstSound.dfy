/** Why local constant propagation preserves meaning, and the two shapes of program where
    the source's own rules do not. */
module LocalConstSound {
  import opened Arith
  import opened TsLang
  import opened TsConst
  import opened TsRewrite
  import opened TsRewriteStmts
  import opened LocalConst

  // ----- substitution is a rewriting -----

  ghost predicate Free(k: Know, written: set<Name>, called: set<Name>) {
    Plain(k) && k.known.Keys !! k.shadowed && written !! k.known.Keys && called <= k.called
  }

  lemma {:induction false} SubstRefines(k: Know, e: Expr)
    requires Free(k, Writes(e), Callees(e))
    ensures Refines(k, e, Subst(k, e))
  {
    match e
    case Var(x) =>
      if x in k.known {
        assert Constant(k, e) == Some(k.known[x]);
        assert Folded(k, e, Subst(k, e));
      }
    case Un(_, a) => SubstRefines(k, a);
    case Bin(_, l, r) => SubstRefines(k, l); SubstRefines(k, r);
    case Logic(_, l, r) => SubstRefines(k, l); SubstRefines(k, r);
    case Cond(b, t, f) => SubstRefines(k, b); SubstRefines(k, t); SubstRefines(k, f);
    case Call(_, args) => SubstAllRefines(k, args);
    case Index(b, i) => SubstRefines(k, b); SubstRefines(k, i);
    case NewArr(_, n) => SubstRefines(k, n);
    case ArrayLit(es) => SubstAllRefines(k, es);
    case Assign(_, _, r) => SubstRefines(k, r);
    case SetAt(b, i, _, r) => SubstRefines(k, b); SubstRefines(k, i); SubstRefines(k, r);
    case _ =>
  }

  lemma {:induction false} SubstAllRefines(k: Know, es: seq<Expr>)
    requires Free(k, WritesAll(es), CalleesAll(es))
    ensures RefinesAll(k, es, SubstAll(k, es))
  {
    if es != [] {
      SubstRefines(k, es[0]);
      SubstAllRefines(k, es[1..]);
      assert SubstAll(k, es)[1..] == SubstAll(k, es[1..]);
    }
  }

  lemma {:induction false} SubstOptRefines(k: Know, e: Option<Expr>)
    requires Free(k, OptWrites(e), OptCallees(e))
    ensures RefinesOpt(k, e, SubstOpt(k, e))
  {
    if e.Some? {
      SubstRefines(k, e.value);
    }
  }

  lemma {:induction false} SubstLetsRefines(k: Know, ds: seq<Declarator>)
    requires Free(k, LetWrites(ds), LetCallees(ds))
    ensures RefinesLets(k, ds, SubstLets(k, ds))
  {
    if ds != [] {
      SubstOptRefines(k, ds[0].init);
      SubstLetsRefines(k, ds[1..]);
      assert SubstLets(k, ds)[1..] == SubstLets(k, ds[1..]);
    }
  }

  lemma {:induction false} SubstStmtRefines(k: Know, st: Stmt)
    requires Free(k, StmtWrites(st), StmtCallees(st))
    ensures RefinesStmt(k, st, SubstStmt(k, st))
    decreases st, 1
  {
    match st
    case Let(ds) => SubstLetsRefines(k, ds);
    case Do(e) => SubstRefines(k, e);
    case If(b, t, f) => SubstRefines(k, b); SubstListRefines(k, t); SubstListRefines(k, f);
    case While(b, body) => SubstRefines(k, b); SubstListRefines(k, body);
    case For(init, test, step, body) =>
      SubstListRefines(k, init);
      SubstOptRefines(k, test);
      SubstOptRefines(k, step);
      SubstListRefines(k, body);
    case Return(e) => SubstOptRefines(k, e);
    case Throw(e) => SubstRefines(k, e);
    case _ =>
  }

  lemma {:induction false} SubstListRefines(k: Know, ss: seq<Stmt>)
    requires Free(k, WritesIn(ss), CalleesIn(ss))
    ensures RefinesList(k, ss, SubstList(k, ss))
    decreases ss, 0
  {
    if ss != [] {
      SubstStmtRefines(k, ss[0]);
      SubstListRefines(k, ss[1..]);
      assert SubstList(k, ss)[1..] == SubstList(k, ss[1..]);
    }
  }

  lemma {:induction false} SubstCallees(k: Know, e: Expr)
    ensures Callees(Subst(k, e)) <= Callees(e)
  {
    match e
    case Un(_, a) => SubstCallees(k, a);
    case Bin(_, l, r) => SubstCallees(k, l); SubstCallees(k, r);
    case Logic(_, l, r) => SubstCallees(k, l); SubstCallees(k, r);
    case Cond(b, t, f) => SubstCallees(k, b); SubstCallees(k, t); SubstCallees(k, f);
    case Call(_, args) => SubstAllCallees(k, args);
    case Index(b, i) => SubstCallees(k, b); SubstCallees(k, i);
    case NewArr(_, n) => SubstCallees(k, n);
    case ArrayLit(es) => SubstAllCallees(k, es);
    case Assign(_, _, r) => SubstCallees(k, r);
    case SetAt(b, i, _, r) => SubstCallees(k, b); SubstCallees(k, i); SubstCallees(k, r);
    case _ =>
  }

  lemma {:induction false} SubstAllCallees(k: Know, es: seq<Expr>)
    ensures CalleesAll(SubstAll(k, es)) <= CalleesAll(es)
  {
    if es != [] {
      SubstCallees(k, es[0]);
      SubstAllCallees(k, es[1..]);
      assert SubstAll(k, es)[1..] == SubstAll(k, es[1..]);
    }
  }

  // ----- one step -----

  lemma NothingHidden(k: Know, s: State)
    requires Plain(k)
    ensures Hide(k, s) == s
  {
    assert s.vars - {} == s.vars && Outlying(s.heap, {}) == s.heap && s.count - {} == s.count;
  }

  /** Folding or substituting changes neither the value nor the effects. */
  lemma FoldSame(k: Know, c: Ctx, e: Expr, s: State)
    requires Knows(k, c, s) && Free(k, Writes(e), Callees(e))
    ensures Eval(c, FoldOrSubst(k, e).0, s) == Eval(c, e, s)
    ensures Eval(c, e, s).Val? ==> Knows(k, c, Eval(c, e, s).s)
    ensures EvalLocal(k, e).Some? ==> Eval(c, e, s) == Val(Int(EvalLocal(k, e).value), s)
  {
    SubstSame(k, c, e, s);
    if EvalLocal(k, e).Some? {
      LocalValue(k, c, e, s);
      LiteralValue(c, EvalLocal(k, e).value, s);
    }
  }

  lemma LocalValue(k: Know, c: Ctx, e: Expr, s: State)
    requires Knows(k, c, s) && Free(k, Writes(e), Callees(e)) && EvalLocal(k, e).Some?
    ensures Eval(c, e, s) == Val(Int(EvalLocal(k, e).value), s)
  {
    if EvalConst(e, k.known, k.funcs, k.shadowed).Some? {
      ConstSound(c, e, k.known, k.funcs, k.shadowed, s);
    } else {
      SubstSame(k, c, e, s);
      SubstCallees(k, e);
      ConstSound(c, Subst(k, e), k.known, k.funcs, k.shadowed, s);
    }
  }

  lemma SubstSame(k: Know, c: Ctx, e: Expr, s: State)
    requires Knows(k, c, s) && Free(k, Writes(e), Callees(e))
    ensures Eval(c, Subst(k, e), s) == Eval(c, e, s)
    ensures Eval(c, e, s).Val? ==> Knows(k, c, Eval(c, e, s).s)
  {
    SubstRefines(k, e);
    Simulates(k, c, e, Subst(k, e), s);
    NothingHidden(k, s);
    if Eval(c, e, s).Val? {
      NothingHidden(k, Eval(c, e, s).s);
    }
  }

  // ----- the walk's invariant -----

  /** The setting of a walk: `scope` holds every name it may track, none of them free in a
      function it calls, and constants outside `env` are never written. */
  ghost predicate Setting(env: Env, top: Top, c: Ctx, scope: set<Name>) {
    && top.consts == c.consts && top.funcs == c.funcs
    && env.Keys <= scope
    && (forall x | x in scope && x in top.consts :: x in env)
    && NoCapture(top, scope)
  }

  ghost predicate NoCapture(top: Top, scope: set<Name>) {
    forall f | f in top.called && f in top.funcs && Foldable(top.funcs[f]) :: FreeNames(top.funcs[f]) !! scope
  }

  /** What the walk knows is so. */
  ghost predicate Tracks(env: Env, top: Top, c: Ctx, s: State) {
    forall x | x in Resolve(env, top).known :: Lookup(c, s, x) == Some(Int(Resolve(env, top).known[x]))
  }

  lemma TracksKnows(env: Env, top: Top, c: Ctx, s: State, scope: set<Name>)
    requires Setting(env, top, c, scope)
    ensures Tracks(env, top, c, s) <==> Knows(Resolve(env, top), c, s)
  {
    var k := Resolve(env, top);
    forall f | f in k.called && f in k.funcs && f !in k.shadowed && Foldable(k.funcs[f])
      ensures f in c.funcs && c.funcs[f] == k.funcs[f]
      ensures forall x | x in FreeNames(k.funcs[f]) && x in k.known :: x in c.consts && c.consts[x] == k.known[x]
    {
      assert FreeNames(k.funcs[f]) !! scope;
    }
  }

  /** Storing a value keeps the invariant if the walk records that value, or none. */
  lemma TrackPut(env: Env, top: Top, c: Ctx, s: State, x: Name, v: Value, w: Option<int>)
    requires Tracks(env, top, c, s) && (w.Some? ==> v == Int(w.value))
    ensures Tracks(env[x := w], top, c, Put(s, x, v))
  {
    var k, k2 := Resolve(env, top), Resolve(env[x := w], top);
    forall y | y in k2.known
      ensures Lookup(c, Put(s, x, v), y) == Some(Int(k2.known[y]))
    {
      if y != x {
        assert y in k.known && k2.known[y] == k.known[y];
      }
    }
  }

  lemma TrackDrop(env: Env, top: Top, c: Ctx, s: State, x: Name)
    requires Tracks(env, top, c, s)
    ensures Tracks(env[x := None], top, c, s.(vars := s.vars - {x}))
  {
    var k, k2 := Resolve(env, top), Resolve(env[x := None], top);
    assert forall y | y in k2.known :: y != x && y in k.known && k2.known[y] == k.known[y];
  }

  lemma TrackForget(env: Env, top: Top, c: Ctx, s: State, names: set<Name>)
    requires Tracks(env, top, c, s)
    ensures Tracks(Forget(env, names), top, c, s)
  {
    var k, k2 := Resolve(env, top), Resolve(Forget(env, names), top);
    assert forall y | y in k2.known :: y in k.known && k2.known[y] == k.known[y];
  }

  /** After either branch, what both branches agree on is so. */
  lemma TrackMerge(env: Env, thn: Env, els: Env, top: Top, c: Ctx, s: State, scope: set<Name>)
    requires Setting(env, top, c, scope)
    requires env.Keys <= thn.Keys <= scope && env.Keys <= els.Keys <= scope
    requires Tracks(thn, top, c, s) || Tracks(els, top, c, s)
    ensures Tracks(Merge(env, thn, els), top, c, s)
  {
    var k := Resolve(Merge(env, thn, els), top);
    forall y | y in k.known
      ensures Lookup(c, s, y) == Some(Int(k.known[y]))
    {
      if y in env {
        assert thn[y] == els[y] == Some(k.known[y]);
        assert y in Resolve(thn, top).known && y in Resolve(els, top).known;
      } else {
        assert y in top.consts && y !in scope;
        assert y in Resolve(thn, top).known && y in Resolve(els, top).known;
      }
    }
  }

  // ----- nested writes -----

  /** Assignments below the top of an expression, which the walk does not see. */
  function NestedWrites(e: Expr): set<Name> {
    match e
    case Assign(_, _, r) => Writes(r)
    case Update(_, _, _) => {}
    case _ => Writes(e)
  }

  /** Wherever the walk meets a nested write, it knows nothing of the name written. */
  predicate Steady(st: Stmt, env: Env, top: Top)
    decreases st, 2
  {
    match st
    case Let(ds) => LetsSteady(ds, env, top)
    case Do(e) => NestedWrites(e) !! Resolve(env, top).known.Keys
    case If(b, t, f) => Writes(b) !! Resolve(env, top).known.Keys && ListSteady(t, env, top) && ListSteady(f, env, top)
    case Return(Some(e)) => Writes(e) !! Resolve(env, top).known.Keys
    case Throw(e) => Writes(e) !! Resolve(env, top).known.Keys
    case _ => true
  }

  predicate LetsSteady(ds: seq<Declarator>, env: Env, top: Top) {
    ds == [] ||
    (&& OptWrites(ds[0].init) !! Resolve(env, top).known.Keys
     && LetsSteady(ds[1..], WalkLets(ds[..1], env, top).1, top))
  }

  predicate SeqSteady(ss: seq<Stmt>, env: Env, top: Top)
    decreases ss, 0
  {
    ss == [] || (Steady(ss[0], env, top) && SeqSteady(ss[1..], WalkStmt(ss[0], env, top).1, top))
  }

  predicate ListSteady(ss: seq<Stmt>, env: Env, top: Top)
    decreases ss, 1
  {
    SeqSteady(ss, Forget(env, DirectNames(ss)), top)
  }

  // ----- what the walk tracks -----

  lemma {:induction false} LetKeys(ds: seq<Declarator>, env: Env, top: Top)
    ensures WalkLets(ds, env, top).1.Keys == env.Keys + DeclNames(ds)
  {
    if ds != [] {
      var v := match ds[0].init case None => None case Some(e) => FoldOrSubst(Resolve(env, top), e).1;
      LetKeys(ds[1..], env[ds[0].x := v], top);
    }
  }

  lemma {:induction false} LetNamesWritten(ds: seq<Declarator>)
    ensures DeclNames(ds) <= LetWrites(ds)
  {
    if ds != [] {
      LetNamesWritten(ds[1..]);
    }
  }

  lemma {:induction false} DirectWritten(ss: seq<Stmt>)
    ensures DirectNames(ss) <= WritesIn(ss)
  {
    if ss != [] {
      if ss[0].Let? {
        LetNamesWritten(ss[0].ds);
      }
      DirectWritten(ss[1..]);
    }
  }

  lemma {:induction false} StmtKeys(st: Stmt, env: Env, top: Top)
    ensures env.Keys <= WalkStmt(st, env, top).1.Keys <= env.Keys + StmtWrites(st)
    decreases st, 2
  {
    match st
    case Let(ds) => LetKeys(ds, env, top); LetNamesWritten(ds);
    case _ =>
  }

  lemma {:induction false} SeqKeys(ss: seq<Stmt>, env: Env, top: Top)
    ensures env.Keys <= WalkSeq(ss, env, top).1.Keys <= env.Keys + WritesIn(ss)
  {
    if ss != [] {
      StmtKeys(ss[0], env, top);
      SeqKeys(ss[1..], WalkStmt(ss[0], env, top).1, top);
    }
  }

  lemma ListKeys(ss: seq<Stmt>, env: Env, top: Top)
    ensures env.Keys <= WalkList(ss, env, top).1.Keys <= env.Keys + WritesIn(ss)
  {
    DirectWritten(ss);
    SeqKeys(ss, Forget(env, DirectNames(ss)), top);
  }

  // ----- the walk preserves meaning -----

  ghost predicate Goes(o: Out, o2: Out, env: Env, top: Top, c: Ctx) {
    o2 == o && (o.Normal? ==> Tracks(env, top, c, o.s))
  }

  lemma DoSame(e: Expr, env: Env, top: Top, c: Ctx, s: State, scope: set<Name>)
    requires Setting(env, top, c, scope) && Tracks(env, top, c, s)
    requires NestedWrites(e) !! Resolve(env, top).known.Keys && Callees(e) <= top.called
    ensures Goes(ExecStmt(c, Do(e), s), ExecStmt(c, Do(WalkExpr(e, env, top).0), s), WalkExpr(e, env, top).1, top, c)
  {
    match e
    case Assign(x, None, r) => AssignTracks(x, r, env, top, c, s, scope);
    case Assign(x, Some(op), r) => CompoundTracks(x, op, r, env, top, c, s, scope);
    case SetAt(_, _, _, _) => SetAtTracks(e, env, top, c, s, scope);
    case Update(x, inc, prefix) => UpdateTracks(x, inc, prefix, env, top, c, s);
    case _ => PlainTracks(e, env, top, c, s, scope);
  }

  lemma UpdateTracks(x: Name, inc: bool, prefix: bool, env: Env, top: Top, c: Ctx, s: State)
    requires Tracks(env, top, c, s)
    ensures var st := Do(Update(x, inc, prefix));
            Goes(ExecStmt(c, st, s), ExecStmt(c, st, s), WalkExpr(Update(x, inc, prefix), env, top).1, top, c)
  {
    var v := Lookup(c, s, x);
    if v.Some? && v.value.Int? {
      StepTracks(x, inc, v.value.n, env, top, c, s);
    }
  }

  lemma StepTracks(x: Name, inc: bool, n: int, env: Env, top: Top, c: Ctx, s: State)
    requires Tracks(env, top, c, s) && Lookup(c, s, x) == Some(Int(n))
    ensures Tracks(env[x := UpdateResult(Resolve(env, top), x, inc)], top, c, Put(s, x, Int(if inc then n + 1 else n - 1)))
  {
    TrackPut(env, top, c, s, x, Int(if inc then n + 1 else n - 1), UpdateResult(Resolve(env, top), x, inc));
  }

  lemma PlainTracks(e: Expr, env: Env, top: Top, c: Ctx, s: State, scope: set<Name>)
    requires Setting(env, top, c, scope) && Tracks(env, top, c, s)
    requires Writes(e) !! Resolve(env, top).known.Keys && Callees(e) <= top.called
    ensures Goes(ExecStmt(c, Do(e), s), ExecStmt(c, Do(Subst(Resolve(env, top), e)), s), env, top, c)
  {
    TracksKnows(env, top, c, s, scope);
    SubstSame(Resolve(env, top), c, e, s);
    if Eval(c, e, s).Val? {
      TracksKnows(env, top, c, Eval(c, e, s).s, scope);
    }
  }

  lemma AssignTracks(x: Name, r: Expr, env: Env, top: Top, c: Ctx, s: State, scope: set<Name>)
    requires Setting(env, top, c, scope) && Tracks(env, top, c, s)
    requires Writes(r) !! Resolve(env, top).known.Keys && Callees(r) <= top.called
    ensures var w := WalkExpr(Assign(x, None, r), env, top);
            Goes(ExecStmt(c, Do(Assign(x, None, r)), s), ExecStmt(c, Do(w.0), s), w.1, top, c)
  {
    var k := Resolve(env, top);
    TracksKnows(env, top, c, s, scope);
    FoldSame(k, c, r, s);
    StoreSame(c, x, r, FoldOrSubst(k, r).0, s);
    var w := Eval(c, r, s);
    if w.Val? {
      TracksKnows(env, top, c, w.s, scope);
      TrackPut(env, top, c, w.s, x, w.v, FoldOrSubst(k, r).1);
    }
  }

  lemma StoreSame(c: Ctx, x: Name, r: Expr, r2: Expr, s: State)
    requires Eval(c, r2, s) == Eval(c, r, s)
    ensures var o := ExecStmt(c, Do(Assign(x, None, r)), s);
            && ExecStmt(c, Do(Assign(x, None, r2)), s) == o
            && o == (if Eval(c, r, s).Val? then Normal(Put(Eval(c, r, s).s, x, Eval(c, r, s).v)) else Failed)
  {
  }

  lemma CompoundTracks(x: Name, op: BinOp, r: Expr, env: Env, top: Top, c: Ctx, s: State, scope: set<Name>)
    requires Setting(env, top, c, scope) && Tracks(env, top, c, s)
    requires Writes(r) !! Resolve(env, top).known.Keys && Callees(r) <= top.called
    ensures var w := WalkExpr(Assign(x, Some(op), r), env, top);
            Goes(ExecStmt(c, Do(Assign(x, Some(op), r)), s), ExecStmt(c, Do(w.0), s), w.1, top, c)
  {
    var k := Resolve(env, top);
    TracksKnows(env, top, c, s, scope);
    SubstSame(k, c, r, s);
    CompoundSame(c, x, op, r, Subst(k, r), s);
    var a := Eval(c, Assign(x, Some(op), r), s);
    if a.Val? {
      CompoundValue(k, c, x, op, r, s);
      var w := Eval(c, r, s);
      TracksKnows(env, top, c, w.s, scope);
      TrackPut(env, top, c, w.s, x, a.v, CompoundResult(k, x, op, r));
    }
  }

  lemma CompoundSame(c: Ctx, x: Name, op: BinOp, r: Expr, r2: Expr, s: State)
    requires Eval(c, r2, s) == Eval(c, r, s)
    ensures ExecStmt(c, Do(Assign(x, Some(op), r2)), s) == ExecStmt(c, Do(Assign(x, Some(op), r)), s)
    ensures var a := Eval(c, Assign(x, Some(op), r), s);
            a.Val? ==> Eval(c, r, s).Val? && a.s == Put(Eval(c, r, s).s, x, a.v)
                       && ExecStmt(c, Do(Assign(x, Some(op), r)), s) == Normal(a.s)
  {
  }

  lemma CompoundValue(k: Know, c: Ctx, x: Name, op: BinOp, r: Expr, s: State)
    requires Knows(k, c, s) && Free(k, Writes(r), Callees(r))
    ensures var a := Eval(c, Assign(x, Some(op), r), s);
            a.Val? && CompoundResult(k, x, op, r).Some? ==> a.v == Int(CompoundResult(k, x, op, r).value)
  {
    FoldSame(k, c, r, s);
  }

  lemma SetAtTracks(e: Expr, env: Env, top: Top, c: Ctx, s: State, scope: set<Name>)
    requires Setting(env, top, c, scope) && Tracks(env, top, c, s) && e.SetAt?
    requires Writes(e) !! Resolve(env, top).known.Keys && Callees(e) <= top.called
    ensures Goes(ExecStmt(c, Do(e), s), ExecStmt(c, Do(WalkExpr(e, env, top).0), s), env, top, c)
  {
    var k := Resolve(env, top);
    TracksKnows(env, top, c, s, scope);
    var e2 := WalkExpr(e, env, top).0;
    SetAtParts(k, c, e, e2, s);
    var w := Eval(c, e, s);
    if w.Val? {
      var t := Eval(c, e.rhs, Eval(c, e.idx, Eval(c, e.base, s).s).s).s;
      TracksKnows(env, top, c, t, scope);
      assert forall x :: Lookup(c, w.s, x) == Lookup(c, t, x);
    }
  }

  lemma SetAtParts(k: Know, c: Ctx, e: Expr, e2: Expr, s: State)
    requires Knows(k, c, s) && Free(k, Writes(e), Callees(e)) && e.SetAt?
    requires e2 == SetAt(Subst(k, e.base), Subst(k, e.idx), e.aop,
                         if e.aop == None then FoldOrSubst(k, e.rhs).0 else Subst(k, e.rhs))
    ensures Eval(c, e2, s) == Eval(c, e, s)
    ensures Eval(c, e, s).Val? ==>
              var t := Eval(c, e.rhs, Eval(c, e.idx, Eval(c, e.base, s).s).s).s;
              Knows(k, c, t) && Eval(c, e, s).s.vars == t.vars
  {
    SubstSame(k, c, e.base, s);
    var wb := Eval(c, e.base, s);
    if wb.Val? {
      SubstSame(k, c, e.idx, wb.s);
      var wi := Eval(c, e.idx, wb.s);
      if wi.Val? {
        FoldSame(k, c, e.rhs, wi.s);
        SubstSame(k, c, e.rhs, wi.s);
      }
    }
  }

  lemma {:induction false} LetsTrack(ds: seq<Declarator>, env: Env, top: Top, c: Ctx, s: State, scope: set<Name>)
    requires Setting(env, top, c, scope) && Tracks(env, top, c, s)
    requires DeclNames(ds) <= scope && LetsSteady(ds, env, top) && LetCallees(ds) <= top.called
    ensures var w := WalkLets(ds, env, top);
            Goes(ExecLets(c, ds, s), ExecLets(c, w.0, s), w.1, top, c)
  {
    if ds != [] {
      var k, x := Resolve(env, top), ds[0].x;
      assert WalkLets(ds[..1], env, top).1 == env[x := if ds[0].init.Some? then FoldOrSubst(k, ds[0].init.value).1 else None] by {
        assert ds[..1][0] == ds[0] && ds[..1][1..] == [];
      }
      match ds[0].init
      case None =>
        TrackDrop(env, top, c, s, x);
        LetsTrack(ds[1..], env[x := None], top, c, s.(vars := s.vars - {x}), scope);
      case Some(e) =>
        TracksKnows(env, top, c, s, scope);
        FoldSame(k, c, e, s);
        var w := Eval(c, e, s);
        if w.Val? {
          var v := FoldOrSubst(k, e).1;
          TracksKnows(env, top, c, w.s, scope);
          TrackPut(env, top, c, w.s, x, w.v, v);
          LetsTrack(ds[1..], env[x := v], top, c, Put(w.s, x, w.v), scope);
        }
    }
  }

  /** With the names a loop writes forgotten, what is known holds and is out of its reach. */
  lemma LoopForgets(names: set<Name>, called: set<Name>, env: Env, top: Top, c: Ctx, s: State, scope: set<Name>)
    requires Setting(env, top, c, scope) && Tracks(env, top, c, s) && names <= scope && called <= top.called
    ensures var env2 := Forget(env, names);
            Setting(env2, top, c, scope) && Knows(Resolve(env2, top), c, s) && Free(Resolve(env2, top), names, called)
  {
    TrackForget(env, top, c, s, names);
    TracksKnows(Forget(env, names), top, c, s, scope);
  }

  lemma LoopTracks(st: Stmt, env: Env, top: Top, c: Ctx, s: State, scope: set<Name>)
    requires Setting(env, top, c, scope) && Tracks(env, top, c, s)
    requires StmtWrites(st) <= scope && StmtCallees(st) <= top.called
    ensures var w := WalkLoop(st, env, top);
            Goes(ExecStmt(c, st, s), ExecStmt(c, w.0, s), w.1, top, c)
  {
    var env2 := Forget(env, StmtWrites(st));
    LoopForgets(StmtWrites(st), StmtCallees(st), env, top, c, s, scope);
    FrozenSame(Resolve(env2, top), c, st, s);
    var o := ExecStmt(c, st, s);
    if o.Normal? {
      TracksKnows(env2, top, c, o.s, scope);
    }
  }

  /** Reads of names a statement never writes may be replaced throughout it at once. */
  lemma FrozenSame(k: Know, c: Ctx, st: Stmt, s: State)
    requires Knows(k, c, s) && Free(k, StmtWrites(st), StmtCallees(st))
    ensures ExecStmt(c, SubstStmt(k, st), s) == ExecStmt(c, st, s)
    ensures ExecStmt(c, st, s).Normal? ==> Knows(k, c, ExecStmt(c, st, s).s)
  {
    SubstStmtRefines(k, st);
    StmtSame(k, c, st, SubstStmt(k, st), s);
    NothingHidden(k, s);
    var o := ExecStmt(c, st, s);
    if o.Normal? || o.Broke? || o.Continued? || o.Returned? {
      NothingHidden(k, o.s);
    }
  }

  lemma {:induction false} StmtTracks(st: Stmt, env: Env, top: Top, c: Ctx, s: State, scope: set<Name>)
    requires Setting(env, top, c, scope) && Tracks(env, top, c, s)
    requires StmtWrites(st) <= scope && Steady(st, env, top) && StmtCallees(st) <= top.called
    ensures var w := WalkStmt(st, env, top);
            Goes(ExecStmt(c, st, s), ExecStmt(c, w.0, s), w.1, top, c)
    decreases st, 2
  {
    var k := Resolve(env, top);
    TracksKnows(env, top, c, s, scope);
    match st
    case Let(ds) => LetNamesWritten(ds); LetsTrack(ds, env, top, c, s, scope);
    case Do(e) => DoSame(e, env, top, c, s, scope);
    case If(b, t, f) => IfTracks(st, env, top, c, s, scope);
    case While(_, _) => LoopTracks(st, env, top, c, s, scope);
    case For(_, _, _, _) => LoopTracks(st, env, top, c, s, scope);
    case Return(Some(e)) => FoldSame(k, c, e, s);
    case Throw(e) => FoldSame(k, c, e, s);
    case _ =>
  }

  lemma {:induction false} IfTracks(st: Stmt, env: Env, top: Top, c: Ctx, s: State, scope: set<Name>)
    requires Setting(env, top, c, scope) && Tracks(env, top, c, s) && st.If?
    requires StmtWrites(st) <= scope && Steady(st, env, top) && StmtCallees(st) <= top.called
    ensures var w := WalkStmt(st, env, top);
            Goes(ExecStmt(c, st, s), ExecStmt(c, w.0, s), w.1, top, c)
    decreases st, 1
  {
    var k := Resolve(env, top);
    TracksKnows(env, top, c, s, scope);
    FoldSame(k, c, st.c, s);
    var w := Eval(c, st.c, s);
    if w.Val? && w.v.Int? {
      TracksKnows(env, top, c, w.s, scope);
      var (t2, thn) := WalkList(st.thn, env, top);
      var (f2, els) := WalkList(st.els, env, top);
      ListKeys(st.thn, env, top);
      ListKeys(st.els, env, top);
      if w.v.n != 0 {
        ListTracks(st.thn, env, top, c, w.s, scope);
        var o := Exec(c, st.thn, w.s);
        if o.Normal? {
          TrackMerge(env, thn, els, top, c, o.s, scope);
        }
      } else {
        ListTracks(st.els, env, top, c, w.s, scope);
        var o := Exec(c, st.els, w.s);
        if o.Normal? {
          TrackMerge(env, thn, els, top, c, o.s, scope);
        }
      }
    }
  }

  lemma {:induction false} SeqTracks(ss: seq<Stmt>, env: Env, top: Top, c: Ctx, s: State, scope: set<Name>)
    requires Setting(env, top, c, scope) && Tracks(env, top, c, s)
    requires WritesIn(ss) <= scope && SeqSteady(ss, env, top) && CalleesIn(ss) <= top.called
    ensures var w := WalkSeq(ss, env, top);
            Goes(Exec(c, ss, s), Exec(c, w.0, s), w.1, top, c)
    decreases ss, 0
  {
    if ss != [] {
      StmtTracks(ss[0], env, top, c, s, scope);
      StmtKeys(ss[0], env, top);
      var o := ExecStmt(c, ss[0], s);
      if o.Normal? {
        SeqTracks(ss[1..], WalkStmt(ss[0], env, top).1, top, c, o.s, scope);
      }
    }
  }

  lemma {:induction false} ListTracks(ss: seq<Stmt>, env: Env, top: Top, c: Ctx, s: State, scope: set<Name>)
    requires Setting(env, top, c, scope) && Tracks(env, top, c, s)
    requires WritesIn(ss) <= scope && ListSteady(ss, env, top) && CalleesIn(ss) <= top.called
    ensures var w := WalkList(ss, env, top);
            Goes(Exec(c, ss, s), Exec(c, w.0, s), w.1, top, c)
    decreases ss, 1
  {
    DirectWritten(ss);
    TrackForget(env, top, c, s, DirectNames(ss));
    SeqTracks(ss, Forget(env, DirectNames(ss)), top, c, s, scope);
  }

  // ----- whole functions -----

  /** Only a function's own names are assigned in it, never a constant of the file. */
  predicate OwnWrites(fn: Func, consts: Consts) {
    forall x | x in WritesIn(fn.body) && x in consts :: x in Scope(fn)
  }

  /** No function it calls uses, by name, a constant that a name of this one could stand for. */
  predicate NamesApart(fn: Func, funcs: Funcs) {
    forall f | f in CalleesIn(fn.body) && f in funcs && Foldable(funcs[f]) ::
      FreeNames(funcs[f]) !! Scope(fn) + WritesIn(fn.body)
  }

  /** Every nested write is to a name not known there. */
  predicate NestedUnknown(fn: Func, consts: Consts, funcs: Funcs) {
    ListSteady(fn.body, Forget(map[], Scope(fn)), Top(consts, funcs, CalleesIn(fn.body)))
  }

  /** The rewritten body runs exactly as the original: same result, same effects, same final
      state, from every state that binds none but the function's own names. */
  lemma PropagationPreservesMeaning(fn: Func, c: Ctx, s: State)
    requires OwnWrites(fn, c.consts) && NamesApart(fn, c.funcs) && NestedUnknown(fn, c.consts, c.funcs)
    requires s.vars.Keys <= Scope(fn) && c.locals <= Scope(fn)
    ensures Exec(c, Propagate(fn, c.consts, c.funcs), s) == Exec(c, fn.body, s)
  {
    var env, top := Forget(map[], Scope(fn)), Top(c.consts, c.funcs, CalleesIn(fn.body));
    assert KnownIn(env) == map[];
    ListTracks(fn.body, env, top, c, s, Scope(fn) + WritesIn(fn.body));
  }

  function LetOne(x: Name, e: Expr): Stmt {
    Let([Declarator(x, Some(e))])
  }

  lemma ExecLetOne(c: Ctx, x: Name, e: Expr, s: State)
    requires Eval(c, e, s).Val?
    ensures ExecStmt(c, LetOne(x, e), s) == Normal(Put(Eval(c, e, s).s, x, Eval(c, e, s).v))
  {
    var ds := [Declarator(x, Some(e))];
    var t := Put(Eval(c, e, s).s, x, Eval(c, e, s).v);
    assert ds[1..] == [];
    assert ExecLets(c, [], t) == Normal(t);
    assert ExecLets(c, ds, s) == ExecLets(c, ds[1..], t);
  }

  lemma WalkCons(st: Stmt, rest: seq<Stmt>, env: Env, top: Top)
    ensures WalkSeq([st] + rest, env, top).0 ==
            [WalkStmt(st, env, top).0] + WalkSeq(rest, WalkStmt(st, env, top).1, top).0
  {
    assert ([st] + rest)[1..] == rest;
  }

  lemma WalkLetOne(x: Name, e: Expr, env: Env, top: Top)
    ensures var r := FoldOrSubst(Resolve(env, top), e);
            WalkStmt(LetOne(x, e), env, top) == (LetOne(x, r.0), env[x := r.1])
  {
    var ds := [Declarator(x, Some(e))];
    var r := FoldOrSubst(Resolve(env, top), e);
    assert ds[1..] == [];
    assert WalkLets([], env[x := r.1], top) == ([], env[x := r.1]);
    assert WalkLets(ds[1..], env[x := r.1], top) == ([], env[x := r.1]);
    var d := Declarator(x, Some(r.0));
    assert WalkLets(ds, env, top) == ([d] + [], env[x := r.1]);
    assert [d] + [] == [d];
  }

  /** `let y = x++` as the walk sees it: nothing is known of `y`, and nothing changes for `x`. */
  lemma WalkNestedUpdate(x: Name, y: Name, inc: bool, env: Env, top: Top)
    ensures WalkStmt(LetOne(y, Update(x, inc, false)), env, top) == (LetOne(y, Update(x, inc, false)), env[y := None])
  {
    WalkLetOne(y, Update(x, inc, false), env, top);
  }

  /** After a nested write of a tracked name the walk is right exactly when it knew nothing
      of that name. */
  lemma NestedUpdateIsSeenIffUnknown(x: Name, y: Name, inc: bool, env: Env, top: Top, c: Ctx, s: State)
    requires x != y && Tracks(env, top, c, s) && x in env && x in s.vars && s.vars[x].Int?
    ensures var st := LetOne(y, Update(x, inc, false));
            var o := ExecStmt(c, st, s);
            o.Normal? && (Tracks(WalkStmt(st, env, top).1, top, c, o.s) <==> env[x] == None)
  {
    var e := Update(x, inc, false);
    var n := s.vars[x].n;
    var n1 := if inc then n + 1 else n - 1;
    WalkNestedUpdate(x, y, inc, env, top);
    assert Eval(c, e, s) == Val(Int(n), Put(s, x, Int(n1)));
    ExecLetOne(c, y, e, s);
    AfterNestedUpdate(x, y, n1, env, top, c, s);
  }

  lemma AfterNestedUpdate(x: Name, y: Name, n1: int, env: Env, top: Top, c: Ctx, s: State)
    requires x != y && Tracks(env, top, c, s) && x in env && x in s.vars && s.vars[x].Int? && s.vars[x].n != n1
    ensures Tracks(env[y := None], top, c, Put(Put(s, x, Int(n1)), y, s.vars[x])) <==> env[x] == None
  {
    var t := Put(s, x, Int(n1));
    if env[x] == None {
      assert env[x := None] == env;
      TrackPut(env, top, c, s, x, Int(n1), None);
      TrackPut(env, top, c, t, y, s.vars[x], None);
    } else {
      var k, k2 := Resolve(env, top), Resolve(env[y := None], top);
      assert x in k.known && Lookup(c, s, x) == Some(Int(k.known[x]));
      assert x in k2.known && k2.known[x] == k.known[x] == s.vars[x].n;
      assert Lookup(c, Put(t, y, s.vars[x]), x) == Some(Int(n1));
    }
  }
}
