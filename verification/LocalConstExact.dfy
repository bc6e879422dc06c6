/** Constant propagation from the other side: nothing known is left to be read, and programs
    that compute with constants alone fold away. */
module LocalConstExact {
  import opened Arith
  import opened TsLang
  import opened TsConst
  import opened TsConstExact
  import opened TsRewrite
  import opened TsRewriteStmts
  import opened LocalConst

  // ----- no known name is left to be read -----

  function ReadsOf(e: Expr): set<Name> {
    match e
    case Lit(_) => {}
    case Var(x) => {x}
    case Un(_, a) => ReadsOf(a)
    case Bin(_, l, r) => ReadsOf(l) + ReadsOf(r)
    case Logic(_, l, r) => ReadsOf(l) + ReadsOf(r)
    case Cond(b, t, f) => ReadsOf(b) + ReadsOf(t) + ReadsOf(f)
    case Call(_, args) => ReadsOfAll(args)
    case Index(b, i) => ReadsOf(b) + ReadsOf(i)
    case NewArr(_, n) => ReadsOf(n)
    case ArrayLit(es) => ReadsOfAll(es)
    case Assign(_, _, r) => ReadsOf(r)
    case SetAt(b, i, _, r) => ReadsOf(b) + ReadsOf(i) + ReadsOf(r)
    case Update(_, _, _) => {}
  }

  function ReadsOfAll(es: seq<Expr>): set<Name> {
    if es == [] then {} else ReadsOf(es[0]) + ReadsOfAll(es[1..])
  }

  function OptReads(e: Option<Expr>): set<Name> {
    match e case None => {} case Some(x) => ReadsOf(x)
  }

  function LetReads(ds: seq<Declarator>): set<Name> {
    if ds == [] then {} else OptReads(ds[0].init) + LetReads(ds[1..])
  }

  function ListReads(ss: seq<Stmt>): set<Name>
    decreases ss, 0
  {
    if ss == [] then {} else StmtReads(ss[0]) + ListReads(ss[1..])
  }

  function StmtReads(st: Stmt): set<Name>
    decreases st, 1
  {
    match st
    case Let(ds) => LetReads(ds)
    case Do(e) => ReadsOf(e)
    case If(b, t, f) => ReadsOf(b) + ListReads(t) + ListReads(f)
    case While(b, body) => ReadsOf(b) + ListReads(body)
    case For(init, test, step, body) => ListReads(init) + OptReads(test) + OptReads(step) + ListReads(body)
    case Return(e) => OptReads(e)
    case Throw(e) => ReadsOf(e)
    case Break => {}
    case Continue => {}
  }

  /** Substituting leaves just reads of names that are not known. */
  lemma {:induction false} SubstReads(k: Know, e: Expr)
    ensures ReadsOf(Subst(k, e)) <= ReadsOf(e) - k.known.Keys
  {
    match e
    case Un(_, a) => SubstReads(k, a);
    case Bin(_, l, r) => SubstReads(k, l); SubstReads(k, r);
    case Logic(_, l, r) => SubstReads(k, l); SubstReads(k, r);
    case Cond(b, t, f) => SubstReads(k, b); SubstReads(k, t); SubstReads(k, f);
    case Call(_, args) => SubstAllReads(k, args);
    case Index(b, i) => SubstReads(k, b); SubstReads(k, i);
    case NewArr(_, n) => SubstReads(k, n);
    case ArrayLit(es) => SubstAllReads(k, es);
    case Assign(_, _, r) => SubstReads(k, r);
    case SetAt(b, i, _, r) => SubstReads(k, b); SubstReads(k, i); SubstReads(k, r);
    case _ =>
  }

  lemma {:induction false} SubstAllReads(k: Know, es: seq<Expr>)
    ensures ReadsOfAll(SubstAll(k, es)) <= ReadsOfAll(es) - k.known.Keys
  {
    if es != [] {
      SubstReads(k, es[0]);
      SubstAllReads(k, es[1..]);
      assert SubstAll(k, es)[1..] == SubstAll(k, es[1..]);
    }
  }

  lemma {:induction false} SubstOptReads(k: Know, e: Option<Expr>)
    ensures OptReads(SubstOpt(k, e)) <= OptReads(e) - k.known.Keys
  {
    if e.Some? {
      SubstReads(k, e.value);
    }
  }

  lemma {:induction false} SubstLetReads(k: Know, ds: seq<Declarator>)
    ensures LetReads(SubstLets(k, ds)) <= LetReads(ds) - k.known.Keys
  {
    if ds != [] {
      SubstOptReads(k, ds[0].init);
      SubstLetReads(k, ds[1..]);
      assert SubstLets(k, ds)[1..] == SubstLets(k, ds[1..]);
    }
  }

  lemma {:induction false} SubstListReads(k: Know, ss: seq<Stmt>)
    ensures ListReads(SubstList(k, ss)) <= ListReads(ss) - k.known.Keys
    decreases ss, 0
  {
    if ss != [] {
      SubstStmtReads(k, ss[0]);
      SubstListReads(k, ss[1..]);
      assert SubstList(k, ss)[1..] == SubstList(k, ss[1..]);
    }
  }

  lemma {:induction false} SubstStmtReads(k: Know, st: Stmt)
    ensures StmtReads(SubstStmt(k, st)) <= StmtReads(st) - k.known.Keys
    decreases st, 1
  {
    match st
    case Let(ds) => SubstLetReads(k, ds);
    case Do(e) => SubstReads(k, e);
    case If(b, t, f) => SubstReads(k, b); SubstListReads(k, t); SubstListReads(k, f);
    case While(b, body) => SubstReads(k, b); SubstListReads(k, body);
    case For(init, test, step, body) =>
      SubstListReads(k, init);
      SubstOptReads(k, test);
      SubstOptReads(k, step);
      SubstListReads(k, body);
    case Return(e) => SubstOptReads(k, e);
    case Throw(e) => SubstReads(k, e);
    case _ =>
  }

  /** In a loop no name is read that was known before it and is not written in it, and after it
      exactly those it writes are forgotten. */
  lemma LoopExactly(st: Stmt, env: Env, top: Top)
    ensures var (st2, env2) := WalkLoop(st, env, top);
            && (forall x | x in env && env[x].Some? && x !in StmtWrites(st) :: x !in StmtReads(st2))
            && (forall x | x in top.consts && x !in env && x !in StmtWrites(st) :: x !in StmtReads(st2))
            && env2.Keys == env.Keys + StmtWrites(st)
            && (forall x | x in env2 :: env2[x] == if x in StmtWrites(st) then None else env[x])
  {
    SubstStmtReads(Resolve(Forget(env, StmtWrites(st)), top), st);
  }

  predicate Unread(names: set<Name>, env: Env, top: Top) {
    names !! Resolve(env, top).known.Keys
  }

  predicate LetsCleared(ds: seq<Declarator>, out: seq<Declarator>, env: Env, top: Top) {
    if ds == [] || out == [] then ds == [] && out == []
    else
      && out[0].x == ds[0].x && Unread(OptReads(out[0].init), env, top)
      && LetsCleared(ds[1..], out[1..], WalkLets(ds[..1], env, top).1, top)
  }

  predicate ListCleared(ss: seq<Stmt>, out: seq<Stmt>, env: Env, top: Top)
    decreases ss, 0
  {
    if ss == [] || out == [] then ss == [] && out == []
    else StmtCleared(ss[0], out[0], env, top) && ListCleared(ss[1..], out[1..], WalkStmt(ss[0], env, top).1, top)
  }

  /** Statement for statement: nothing is read that is known there, in branches and loops too. */
  predicate StmtCleared(st: Stmt, st2: Stmt, env: Env, top: Top)
    decreases st, 1
  {
    match (st, st2)
    case (Let(ds), Let(out)) => LetsCleared(ds, out, env, top)
    case (Do(_), Do(e)) => Unread(ReadsOf(e), env, top)
    case (If(_, t, f), If(b, t2, f2)) =>
      && Unread(ReadsOf(b), env, top)
      && ListCleared(t, t2, Forget(env, DirectNames(t)), top) && ListCleared(f, f2, Forget(env, DirectNames(f)), top)
    case (While(_, _), While(_, _)) => Unread(StmtReads(st2), Forget(env, StmtWrites(st)), top)
    case (For(_, _, _, _), For(_, _, _, _)) => Unread(StmtReads(st2), Forget(env, StmtWrites(st)), top)
    case (Return(_), Return(e)) => Unread(OptReads(e), env, top)
    case (Throw(_), Throw(e)) => Unread(ReadsOf(e), env, top)
    case _ => st == st2
  }

  lemma FoldedUnread(e: Expr, env: Env, top: Top)
    ensures Unread(ReadsOf(FoldOrSubst(Resolve(env, top), e).0), env, top)
    ensures Unread(ReadsOf(Subst(Resolve(env, top), e)), env, top)
  {
    SubstReads(Resolve(env, top), e);
    if !HasName(e) {
      NamelessReads(e);
    }
  }

  lemma {:induction false} NamelessReads(e: Expr)
    requires !HasName(e)
    ensures ReadsOf(e) == {}
  {
    match e
    case Un(_, a) => NamelessReads(a);
    case Bin(_, l, r) => NamelessReads(l); NamelessReads(r);
    case Logic(_, l, r) => NamelessReads(l); NamelessReads(r);
    case Cond(b, t, f) => NamelessReads(b); NamelessReads(t); NamelessReads(f);
    case Index(b, i) => NamelessReads(b); NamelessReads(i);
    case ArrayLit(es) => NamelessAllReads(es);
    case SetAt(b, i, _, r) => NamelessReads(b); NamelessReads(i); NamelessReads(r);
    case _ =>
  }

  lemma {:induction false} NamelessAllReads(es: seq<Expr>)
    requires !AnyName(es)
    ensures ReadsOfAll(es) == {}
  {
    if es != [] {
      NamelessReads(es[0]);
      NamelessAllReads(es[1..]);
    }
  }

  lemma ExprUnread(e: Expr, env: Env, top: Top)
    ensures Unread(ReadsOf(WalkExpr(e, env, top).0), env, top)
  {
    FoldedUnread(e, env, top);
    match e
    case Assign(_, _, r) => FoldedUnread(r, env, top);
    case SetAt(b, i, _, r) => FoldedUnread(b, env, top); FoldedUnread(i, env, top); FoldedUnread(r, env, top);
    case _ =>
  }

  lemma {:induction false} LetsAreCleared(ds: seq<Declarator>, env: Env, top: Top)
    ensures LetsCleared(ds, WalkLets(ds, env, top).0, env, top)
  {
    if ds != [] {
      var first := ds[..1];
      assert first[0] == ds[0] && first[1..] == [];
      if ds[0].init.Some? {
        FoldedUnread(ds[0].init.value, env, top);
      }
      var v := match ds[0].init case None => None case Some(e) => FoldOrSubst(Resolve(env, top), e).1;
      var env1 := env[ds[0].x := v];
      assert WalkLets(first[1..], env1, top).1 == env1;
      assert WalkLets(first, env, top).1 == env1;
      LetsAreCleared(ds[1..], env1, top);
      assert WalkLets(ds, env, top).0[1..] == WalkLets(ds[1..], env1, top).0;
    }
  }

  lemma {:induction false} ListIsCleared(ss: seq<Stmt>, env: Env, top: Top)
    ensures ListCleared(ss, WalkSeq(ss, env, top).0, env, top)
    decreases ss, 0
  {
    if ss != [] {
      StmtIsCleared(ss[0], env, top);
      var env1 := WalkStmt(ss[0], env, top).1;
      ListIsCleared(ss[1..], env1, top);
      assert WalkSeq(ss, env, top).0[1..] == WalkSeq(ss[1..], env1, top).0;
    }
  }

  lemma {:induction false} StmtIsCleared(st: Stmt, env: Env, top: Top)
    ensures StmtCleared(st, WalkStmt(st, env, top).0, env, top)
    decreases st, 1
  {
    match st
    case Let(ds) => LetsAreCleared(ds, env, top);
    case Do(e) => ExprUnread(e, env, top);
    case If(b, t, f) =>
      FoldedUnread(b, env, top);
      ListIsCleared(t, Forget(env, DirectNames(t)), top);
      ListIsCleared(f, Forget(env, DirectNames(f)), top);
    case While(_, _) => SubstStmtReads(Resolve(Forget(env, StmtWrites(st)), top), st);
    case For(_, _, _, _) => SubstStmtReads(Resolve(Forget(env, StmtWrites(st)), top), st);
    case Return(Some(e)) => FoldedUnread(e, env, top);
    case Throw(e) => FoldedUnread(e, env, top);
    case _ =>
  }

  /** After the pass no expression reads a name that is known where it stands. */
  lemma PropagationClears(fn: Func, consts: Consts, funcs: Funcs)
    ensures ListCleared(fn.body, Propagate(fn, consts, funcs), Forget(Forget(map[], Scope(fn)), DirectNames(fn.body)),
                        Top(consts, funcs, CalleesIn(fn.body)))
  {
    ListIsCleared(fn.body, Forget(Forget(map[], Scope(fn)), DirectNames(fn.body)), Top(consts, funcs, CalleesIn(fn.body)));
  }

  function After(branch: Env, env: Env, x: Name): Option<int>
    requires x in env
  {
    if x in branch then branch[x] else env[x]
  }

  /** After an `if` a tracked name has a value exactly when both sides leave it that value. */
  lemma MergeExactly(env: Env, thn: Env, els: Env, x: Name, v: int)
    ensures x in Merge(env, thn, els) <==> x in env
    ensures x in env ==> (Merge(env, thn, els)[x] == Some(v) <==> After(thn, env, x) == Some(v) && After(els, env, x) == Some(v))
  {
  }

  /** A choice decided by what is known leaves its chosen side alone. */
  lemma ChoiceTaken(k: Know, b: Expr, t: Expr, f: Expr)
    requires EvalConst(b, k.known, k.funcs, k.shadowed).Some?
    ensures Subst(k, Cond(b, t, f)) == Subst(k, if EvalConst(b, k.known, k.funcs, k.shadowed) == Some(0) then f else t)
  {
  }

  // ----- programs that compute with constants alone -----

  /** Literals, names and operators. */
  predicate Sum(e: Expr) {
    Simple(e, map[]) && !HasCall(e)
  }

  predicate SumLets(ds: seq<Declarator>) {
    ds == [] || (ds[0].init.Some? && Sum(ds[0].init.value) && SumLets(ds[1..]))
  }

  /** What no compound assignment is spelled with. */
  predicate Comparison(op: BinOp) {
    match op
    case Eq => true
    case Ne => true
    case Lt => true
    case Le => true
    case Gt => true
    case Ge => true
    case _ => false
  }

  /** Declarations, assignments and updates, one after another. */
  predicate Straight(ss: seq<Stmt>) {
    ss == [] || (StraightStmt(ss[0]) && Straight(ss[1..]))
  }

  predicate StraightStmt(st: Stmt) {
    match st
    case Let(ds) => SumLets(ds)
    case Do(Assign(_, None, r)) => Sum(r)
    case Do(Assign(_, Some(op), r)) => Sum(r) && !Comparison(op)
    case Do(Update(_, _, _)) => true
    case _ => false
  }

  lemma {:induction false} SimpleAnywhere(e: Expr, funcs: Funcs)
    requires Sum(e)
    ensures Simple(e, funcs)
  {
    match e
    case Un(_, a) => SimpleAnywhere(a, funcs);
    case Bin(_, l, r) => SimpleAnywhere(l, funcs); SimpleAnywhere(r, funcs);
    case Logic(_, l, r) => SimpleAnywhere(l, funcs); SimpleAnywhere(r, funcs);
    case _ =>
  }

  /** What is known is exactly what reading a name gives. */
  ghost predicate Follows(env: Env, top: Top, c: Ctx, s: State) {
    Mirrors(c, s, Resolve(env, top).known)
  }

  lemma SumKnown(e: Expr, env: Env, top: Top, c: Ctx, s: State)
    requires Sum(e) && Follows(env, top, c, s) && Eval(c, e, s).Val?
    ensures EvalLocal(Resolve(env, top), e).Some?
    ensures Eval(c, e, s) == Val(Int(EvalLocal(Resolve(env, top), e).value), s)
  {
    var k := Resolve(env, top);
    SimpleAnywhere(e, k.funcs);
    ConstExact(c, e, k.known, k.funcs, k.shadowed, s);
  }

  lemma FollowsPut(env: Env, top: Top, c: Ctx, s: State, x: Name, v: int)
    requires Follows(env, top, c, s)
    ensures Follows(env[x := Some(v)], top, c, Put(s, x, Int(v)))
  {
    KnownPut(env, top, x, v);
    MirrorGrows(c, s, Resolve(env, top).known, x, v);
  }

  lemma KnownPut(env: Env, top: Top, x: Name, v: int)
    ensures Resolve(env[x := Some(v)], top).known == Resolve(env, top).known[x := v]
  {
    var a, b := Resolve(env[x := Some(v)], top).known, Resolve(env, top).known[x := v];
    assert a.Keys == b.Keys;
    assert forall y | y in a :: a[y] == b[y];
  }

  /** Declared or assigned values are written out. */
  predicate Closed(ss: seq<Stmt>) {
    ss == [] || (ClosedStmt(ss[0]) && Closed(ss[1..]))
  }

  predicate ClosedStmt(st: Stmt) {
    match st
    case Let(ds) => forall i | 0 <= i < |ds| :: ds[i].init.Some? && !HasName(ds[i].init.value)
    case Do(Assign(_, None, r)) => !HasName(r)
    case Return(Some(e)) => !HasName(e)
    case _ => true
  }

  lemma {:induction false} LetsFollow(ds: seq<Declarator>, env: Env, top: Top, c: Ctx, s: State)
    requires SumLets(ds) && Follows(env, top, c, s) && ExecLets(c, ds, s).Normal?
    ensures var w := WalkLets(ds, env, top);
            Follows(w.1, top, c, ExecLets(c, ds, s).s)
            && forall i | 0 <= i < |w.0| :: w.0[i].init.Some? && !HasName(w.0[i].init.value)
  {
    if ds != [] {
      var e := ds[0].init.value;
      SumKnown(e, env, top, c, s);
      var v := EvalLocal(Resolve(env, top), e).value;
      FollowsPut(env, top, c, s, ds[0].x, v);
      LetsFollow(ds[1..], env[ds[0].x := Some(v)], top, c, Put(s, ds[0].x, Int(v)));
    }
  }

  lemma AssignFollows(x: Name, r: Expr, env: Env, top: Top, c: Ctx, s: State)
    requires Sum(r) && Follows(env, top, c, s) && Eval(c, Assign(x, None, r), s).Val?
    ensures var w := WalkExpr(Assign(x, None, r), env, top);
            Follows(w.1, top, c, Eval(c, Assign(x, None, r), s).s) && ClosedStmt(Do(w.0))
  {
    SumKnown(r, env, top, c, s);
    FollowsPut(env, top, c, s, x, EvalLocal(Resolve(env, top), r).value);
  }

  /** Reading a name the walk follows. */
  lemma NameFollowed(x: Name, env: Env, top: Top, c: Ctx, s: State)
    requires Follows(env, top, c, s)
    ensures var known := Resolve(env, top).known; Lookup(c, s, x) == if x in known then Some(Int(known[x])) else None
  {
  }

  lemma CompoundKnown(k: Know, x: Name, op: BinOp, r: Expr)
    requires x in k.known && EvalLocal(k, r).Some? && !Comparison(op)
    ensures CompoundResult(k, x, op, r) == Binary(op, k.known[x], EvalLocal(k, r).value)
  {
  }

  lemma CompoundFollows(x: Name, op: BinOp, r: Expr, env: Env, top: Top, c: Ctx, s: State)
    requires Sum(r) && !Comparison(op) && Follows(env, top, c, s) && Eval(c, Assign(x, Some(op), r), s).Val?
    ensures Follows(WalkExpr(Assign(x, Some(op), r), env, top).1, top, c, Eval(c, Assign(x, Some(op), r), s).s)
  {
    var k := Resolve(env, top);
    NameFollowed(x, env, top, c, s);
    SumKnown(r, env, top, c, s);
    CompoundKnown(k, x, op, r);
    CompoundValue(x, op, r, k.known[x], EvalLocal(k, r).value, c, s);
    FollowsPut(env, top, c, s, x, CompoundResult(k, x, op, r).value);
  }

  lemma CompoundValue(x: Name, op: BinOp, r: Expr, a: int, b: int, c: Ctx, s: State)
    requires Lookup(c, s, x) == Some(Int(a)) && Eval(c, r, s) == Val(Int(b), s)
    ensures Eval(c, Assign(x, Some(op), r), s) ==
            match Binary(op, a, b) case Some(n) => Val(Int(n), Put(s, x, Int(n))) case None => Fault
  {
  }

  lemma UpdateFollows(x: Name, inc: bool, prefix: bool, env: Env, top: Top, c: Ctx, s: State)
    requires Follows(env, top, c, s) && Eval(c, Update(x, inc, prefix), s).Val?
    ensures Follows(WalkExpr(Update(x, inc, prefix), env, top).1, top, c, Eval(c, Update(x, inc, prefix), s).s)
  {
    NameFollowed(x, env, top, c, s);
    var v := UpdateResult(Resolve(env, top), x, inc);
    assert v.Some? && Eval(c, Update(x, inc, prefix), s).s == Put(s, x, Int(v.value));
    FollowsPut(env, top, c, s, x, v.value);
  }

  lemma StmtFollows(st: Stmt, env: Env, top: Top, c: Ctx, s: State)
    requires StraightStmt(st) && Follows(env, top, c, s) && ExecStmt(c, st, s).Normal?
    ensures var w := WalkStmt(st, env, top);
            Follows(w.1, top, c, ExecStmt(c, st, s).s) && ClosedStmt(w.0)
  {
    match st
    case Let(ds) => LetsFollow(ds, env, top, c, s);
    case Do(Assign(x, None, r)) => AssignFollows(x, r, env, top, c, s);
    case Do(Assign(x, Some(op), r)) => CompoundFollows(x, op, r, env, top, c, s);
    case Do(Update(x, inc, prefix)) => UpdateFollows(x, inc, prefix, env, top, c, s);
  }

  /** Along such a program the walk knows every value that running it has. */
  lemma {:induction false} StraightFollows(ss: seq<Stmt>, env: Env, top: Top, c: Ctx, s: State)
    requires Straight(ss) && Follows(env, top, c, s) && Exec(c, ss, s).Normal?
    ensures var w := WalkSeq(ss, env, top);
            Follows(w.1, top, c, Exec(c, ss, s).s) && Closed(w.0) && |w.0| == |ss|
  {
    if ss != [] {
      StmtFollows(ss[0], env, top, c, s);
      StraightFollows(ss[1..], WalkStmt(ss[0], env, top).1, top, c, ExecStmt(c, ss[0], s).s);
    }
  }

  lemma {:induction false} WalkConcat(a: seq<Stmt>, b: seq<Stmt>, env: Env, top: Top)
    ensures var w := WalkSeq(a, env, top);
            WalkSeq(a + b, env, top) == (w.0 + WalkSeq(b, w.1, top).0, WalkSeq(b, w.1, top).1)
  {
    if a == [] {
      assert a + b == b;
      assert [] + WalkSeq(b, env, top).0 == WalkSeq(b, env, top).0;
    } else {
      assert (a + b)[0] == a[0] && (a + b)[1..] == a[1..] + b;
      var (st, env1) := WalkStmt(a[0], env, top);
      WalkConcat(a[1..], b, env1, top);
      var w := WalkSeq(a[1..], env1, top);
      assert [st] + (w.0 + WalkSeq(b, w.1, top).0) == [st] + w.0 + WalkSeq(b, w.1, top).0;
    }
  }

  lemma {:induction false} ExecConcat(c: Ctx, a: seq<Stmt>, b: seq<Stmt>, s: State)
    requires Exec(c, a, s).Normal?
    ensures Exec(c, a + b, s) == Exec(c, b, Exec(c, a, s).s)
  {
    if a == [] {
      assert a + b == b;
    } else {
      assert (a + b)[0] == a[0] && (a + b)[1..] == a[1..] + b;
      ExecConcat(c, a[1..], b, ExecStmt(c, a[0], s).s);
    }
  }

  lemma {:induction false} DirectAreLexical(ss: seq<Stmt>)
    ensures DirectNames(ss) <= Lexical(ss)
  {
    if ss != [] {
      DirectAreLexical(ss[1..]);
    }
  }

  /** A function whose statements only compute with constants, and that runs to its return,
      folds to the end: each value declared, assigned or returned is written out, and the walk
      has computed the value it returns. */
  lemma ConstantProgramsFold(ss: seq<Stmt>, e: Expr, c: Ctx, s: State)
    requires Straight(ss) && Sum(e) && s.vars == map[]
    requires var fn := Func([], ss + [Return(Some(e))]);
             c.locals == Scope(fn) && Exec(c, ss, s).Normal? && Exec(c, fn.body, s).Returned?
    ensures var fn := Func([], ss + [Return(Some(e))]);
            var out := Propagate(fn, c.consts, c.funcs);
            && |out| == |ss| + 1 && Closed(out[..|ss|])
            && exists v :: Exec(c, fn.body, s).result == Some(Int(v))
                           && out[|ss|] == Return(Some(if HasName(e) then Literal(v) else e))
  {
    var fn := Func([], ss + [Return(Some(e))]);
    var env, top := Forget(Forget(map[], Scope(fn)), DirectNames(fn.body)), Top(c.consts, c.funcs, CalleesIn(fn.body));
    DirectAreLexical(fn.body);
    assert KnownIn(env) == map[] && env.Keys == Scope(fn);
    assert Follows(env, top, c, s);
    StraightFollows(ss, env, top, c, s);
    var w, s2 := WalkSeq(ss, env, top), Exec(c, ss, s).s;
    WalkConcat(ss, [Return(Some(e))], env, top);
    ExecConcat(c, ss, [Return(Some(e))], s);
    LastReturn(e, w.1, top, c, s2);
  }

  lemma LastReturn(e: Expr, env: Env, top: Top, c: Ctx, s: State)
    requires Sum(e) && Follows(env, top, c, s) && Exec(c, [Return(Some(e))], s).Returned?
    ensures var v := EvalLocal(Resolve(env, top), e);
            && v.Some? && Exec(c, [Return(Some(e))], s).result == Some(Int(v.value))
            && WalkSeq([Return(Some(e))], env, top).0 == [Return(Some(if HasName(e) then Literal(v.value) else e))]
  {
    var st := Return(Some(e));
    assert [st][1..] == [];
    assert ExecStmt(c, st, s).Returned?;
    SumKnown(e, env, top, c, s);
    assert WalkSeq([st], env, top).0 == [WalkStmt(st, env, top).0] + WalkSeq([], env, top).0;
  }
}
