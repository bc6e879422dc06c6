/** The propagation as it runs: one environment per function, updated in place from
    statement to statement and copied for the branches of an `if`. Each method computes
    what its namesake in `LocalConst` says. */
module LocalConstState {
  import opened Arith
  import opened TsLang
  import opened TsConst
  import opened TsRewrite
  import opened TsRewriteStmts
  import opened LocalConst

  class LocalEnv {
    var entries: Env

    constructor (entries: Env)
      ensures this.entries == entries
    {
      this.entries := entries;
    }

    method Set(x: Name, v: Option<int>)
      modifies this
      ensures entries == old(entries)[x := v]
    {
      entries := entries[x := v];
    }

    /** A snapshot: known locals laid over the file's constants, unknown ones shadowed. */
    method Snapshot(top: Top) returns (k: Know)
      ensures k == Resolve(entries, top)
    {
      var consts, shadowed := top.consts, {};
      var todo := entries.Keys;
      ghost var done: set<Name> := {};
      while todo != {}
        invariant todo !! done && todo + done == entries.Keys
        invariant forall x :: x in shadowed <==> x in done && entries[x] == None
        invariant forall x :: x in consts <==> if x in done then entries[x].Some? else x in top.consts
        invariant forall x | x in consts :: consts[x] == if x in done then entries[x].value else top.consts[x]
        decreases todo
      {
        var x :| x in todo;
        if entries[x] == None {
          shadowed := shadowed + {x};
          consts := consts - {x};
        } else {
          consts := consts[x := entries[x].value];
        }
        todo, done := todo - {x}, done + {x};
      }
      assert done == entries.Keys;
      k := Know(consts, shadowed, top.funcs, top.called, {}, map[], map[], {});
    }

    method MarkUnknown(names: set<Name>)
      modifies this
      ensures entries == Forget(old(entries), names)
    {
      var todo := names;
      ghost var done: set<Name> := {};
      while todo != {}
        invariant todo + done == names
        invariant entries == Forget(old(entries), done)
        decreases todo
      {
        var x :| x in todo;
        entries := entries[x := None];
        todo, done := todo - {x}, done + {x};
      }
      assert done == names;
    }

    /** Keeps, of what was tracked before the `if`, only what both branches agree on. */
    method MergeFrom(thn: LocalEnv, els: LocalEnv)
      requires thn != this && els != this
      modifies this
      ensures entries == Merge(old(entries), thn.entries, els.entries)
    {
      var todo := entries.Keys;
      while todo != {}
        invariant todo <= old(entries).Keys && entries.Keys == old(entries).Keys
        invariant forall x | x in entries ::
                    entries[x] == if x in todo then old(entries)[x] else Merge(old(entries), thn.entries, els.entries)[x]
        decreases todo
      {
        var x :| x in todo;
        var t := if x in thn.entries then thn.entries[x] else entries[x];
        var f := if x in els.entries then els.entries[x] else entries[x];
        entries := entries[x := if t.Some? && t == f then t else None];
        todo := todo - {x};
      }
    }
  }

  method WalkExprAt(e: Expr, env: LocalEnv, top: Top) returns (e2: Expr)
    modifies env
    ensures (e2, env.entries) == WalkExpr(e, old(env.entries), top)
  {
    var k := env.Snapshot(top);
    match e
    case Assign(x, None, r) =>
      var folded := FoldOrSubst(k, r);
      env.Set(x, folded.1);
      e2 := Assign(x, None, folded.0);
    case Assign(x, Some(op), r) =>
      env.Set(x, CompoundResult(k, x, op, r));
      e2 := Assign(x, Some(op), Subst(k, r));
    case SetAt(b, i, op, r) =>
      e2 := SetAt(Subst(k, b), Subst(k, i), op, if op == None then FoldOrSubst(k, r).0 else Subst(k, r));
    case Update(x, inc, _) =>
      env.Set(x, if x in k.known then Some(if inc then k.known[x] + 1 else k.known[x] - 1) else None);
      e2 := e;
    case _ => e2 := Subst(k, e);
  }

  method WalkLetAt(d: Declarator, env: LocalEnv, top: Top) returns (d2: Declarator)
    modifies env
    ensures d2.x == d.x
    ensures d.init == None ==> d2.init == None && env.entries == old(env.entries)[d.x := None]
    ensures d.init.Some? ==>
              var folded := FoldOrSubst(Resolve(old(env.entries), top), d.init.value);
              d2.init == Some(folded.0) && env.entries == old(env.entries)[d.x := folded.1]
  {
    var k := env.Snapshot(top);
    if d.init == None {
      env.Set(d.x, None);
      d2 := d;
    } else {
      var folded := FoldOrSubst(k, d.init.value);
      env.Set(d.x, folded.1);
      d2 := Declarator(d.x, Some(folded.0));
    }
  }

  method WalkLetsAt(ds: seq<Declarator>, env: LocalEnv, top: Top) returns (out: seq<Declarator>)
    modifies env
    ensures (out, env.entries) == WalkLets(ds, old(env.entries), top)
  {
    out := [];
    var i := 0;
    ghost var want := WalkLets(ds, env.entries, top);
    assert ds[0..] == ds;
    while i < |ds|
      invariant 0 <= i <= |ds|
      invariant want.0 == out + WalkLets(ds[i..], env.entries, top).0
      invariant want.1 == WalkLets(ds[i..], env.entries, top).1
    {
      assert ds[i..][0] == ds[i] && ds[i..][1..] == ds[i + 1..];
      ghost var was := env.entries;
      var d := WalkLetAt(ds[i], env, top);
      ghost var rest := WalkLets(ds[i + 1..], env.entries, top).0;
      assert WalkLets(ds[i..], was, top).0 == [d] + rest;
      assert out + ([d] + rest) == out + [d] + rest;
      out := out + [d];
      i := i + 1;
    }
    assert ds[i..] == [] && out + [] == out;
  }

  method WalkStmtAt(st: Stmt, env: LocalEnv, top: Top) returns (st2: Stmt)
    modifies env
    ensures (st2, env.entries) == WalkStmt(st, old(env.entries), top)
    decreases st, 2
  {
    match st
    case Let(ds) =>
      var ds2 := WalkLetsAt(ds, env, top);
      st2 := Let(ds2);
    case Do(e) =>
      var e2 := WalkExprAt(e, env, top);
      st2 := Do(e2);
    case If(b, t, f) =>
      var k := env.Snapshot(top);
      var b2 := FoldOrSubst(k, b).0;
      var thn := new LocalEnv(env.entries);
      var t2 := WalkListAt(t, thn, top);
      var els := new LocalEnv(env.entries);
      var f2 := WalkListAt(f, els, top);
      env.MergeFrom(thn, els);
      st2 := If(b2, t2, f2);
    case While(_, _) =>
      st2 := WalkLoopAt(st, env, top);
    case For(_, _, _, _) =>
      st2 := WalkLoopAt(st, env, top);
    case Return(Some(e)) =>
      var k := env.Snapshot(top);
      st2 := Return(Some(FoldOrSubst(k, e).0));
    case Throw(e) =>
      var k := env.Snapshot(top);
      st2 := Throw(FoldOrSubst(k, e).0);
    case _ => st2 := st;
  }

  method WalkLoopAt(st: Stmt, env: LocalEnv, top: Top) returns (st2: Stmt)
    modifies env
    ensures (st2, env.entries) == WalkLoop(st, old(env.entries), top)
  {
    env.MarkUnknown(StmtWrites(st));
    var k := env.Snapshot(top);
    st2 := SubstStmt(k, st);
  }

  method WalkListAt(ss: seq<Stmt>, env: LocalEnv, top: Top) returns (out: seq<Stmt>)
    modifies env
    ensures (out, env.entries) == WalkList(ss, old(env.entries), top)
    decreases ss, 1
  {
    env.MarkUnknown(DirectNames(ss));
    out := [];
    var i := 0;
    ghost var want := WalkSeq(ss, env.entries, top);
    assert ss[0..] == ss;
    while i < |ss|
      invariant 0 <= i <= |ss|
      invariant want.0 == out + WalkSeq(ss[i..], env.entries, top).0
      invariant want.1 == WalkSeq(ss[i..], env.entries, top).1
    {
      assert ss[i..][0] == ss[i] && ss[i..][1..] == ss[i + 1..];
      var st2 := WalkStmtAt(ss[i], env, top);
      ghost var rest := WalkSeq(ss[i + 1..], env.entries, top).0;
      assert out + ([st2] + rest) == out + [st2] + rest;
      out := out + [st2];
      i := i + 1;
    }
    assert ss[i..] == [] && out + [] == out;
  }

  method PropagateAt(fn: Func, consts: Consts, funcs: Funcs) returns (body: seq<Stmt>)
    ensures body == Propagate(fn, consts, funcs)
  {
    var env := new LocalEnv(map[]);
    env.MarkUnknown(Scope(fn));
    body := WalkListAt(fn.body, env, Top(consts, funcs, CalleesIn(fn.body)));
  }
}
