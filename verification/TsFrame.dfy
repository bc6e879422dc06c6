/** Code that does not touch a name: it may stay as it is where the name is hidden, and it
    leaves the name as it was. */
module TsFrame {
  import opened Arith
  import opened TsLang
  import opened TsRewrite
  import opened TsRewriteStmts

  function SitesIn(ss: seq<Stmt>): set<nat>
    decreases ss, 0
  {
    if ss == [] then {} else StmtSites(ss[0]) + SitesIn(ss[1..])
  }

  function OptSites(e: Option<Expr>): set<nat> {
    match e case None => {} case Some(x) => SitesOf(x)
  }

  function LetSites(ds: seq<Declarator>): set<nat> {
    if ds == [] then {} else OptSites(ds[0].init) + LetSites(ds[1..])
  }

  function StmtSites(st: Stmt): set<nat>
    decreases st, 1
  {
    match st
    case Let(ds) => LetSites(ds)
    case Do(e) => SitesOf(e)
    case If(b, t, f) => SitesOf(b) + SitesIn(t) + SitesIn(f)
    case While(b, body) => SitesOf(b) + SitesIn(body)
    case For(init, test, step, body) => SitesIn(init) + OptSites(test) + OptSites(step) + SitesIn(body)
    case Return(e) => OptSites(e)
    case Throw(e) => SitesOf(e)
    case Break => {}
    case Continue => {}
  }

  lemma {:induction false} OptUnmentioned(k: Know, e: Option<Expr>)
    requires Clear(k, OptMentions(e), OptWrites(e)) && OptSites(e) !! k.sites
    ensures RefinesOpt(k, e, e)
  {
    if e.Some? {
      Unmentioned(k, e.value);
    }
  }

  lemma {:induction false} LetsUnmentioned(k: Know, ds: seq<Declarator>)
    requires Clear(k, LetMentions(ds), LetWrites(ds)) && LetSites(ds) !! k.sites
    ensures RefinesLets(k, ds, ds)
  {
    if ds != [] {
      OptUnmentioned(k, ds[0].init);
      LetsUnmentioned(k, ds[1..]);
    }
  }

  lemma {:induction false} StmtUnmentioned(k: Know, st: Stmt)
    requires Clear(k, StmtNamesIn(st), StmtWrites(st)) && StmtSites(st) !! k.sites
    ensures RefinesStmt(k, st, st)
    decreases st, 1
  {
    match st
    case Let(ds) => LetsUnmentioned(k, ds);
    case Do(e) => Unmentioned(k, e);
    case If(b, t, f) => Unmentioned(k, b); ListUnmentioned(k, t); ListUnmentioned(k, f);
    case While(b, body) => Unmentioned(k, b); ListUnmentioned(k, body);
    case For(init, test, step, body) =>
      ListUnmentioned(k, init);
      OptUnmentioned(k, test);
      OptUnmentioned(k, step);
      ListUnmentioned(k, body);
    case Return(e) => OptUnmentioned(k, e);
    case Throw(e) => Unmentioned(k, e);
    case _ =>
  }

  lemma {:induction false} ListUnmentioned(k: Know, ss: seq<Stmt>)
    requires Clear(k, NamesIn(ss), WritesIn(ss)) && SitesIn(ss) !! k.sites
    ensures RefinesList(k, ss, ss)
    decreases ss, 0
  {
    if ss != [] {
      StmtUnmentioned(k, ss[0]);
      ListUnmentioned(k, ss[1..]);
    }
  }

  lemma {:induction false} WritesMentioned(e: Expr)
    ensures Writes(e) <= Mentions(e)
  {
    match e
    case Un(_, a) => WritesMentioned(a);
    case Bin(_, l, r) => WritesMentioned(l); WritesMentioned(r);
    case Logic(_, l, r) => WritesMentioned(l); WritesMentioned(r);
    case Cond(b, t, f) => WritesMentioned(b); WritesMentioned(t); WritesMentioned(f);
    case Call(_, args) => AllWritesMentioned(args);
    case Index(b, i) => WritesMentioned(b); WritesMentioned(i);
    case NewArr(_, n) => WritesMentioned(n);
    case ArrayLit(es) => AllWritesMentioned(es);
    case Assign(_, _, r) => WritesMentioned(r);
    case SetAt(b, i, _, r) => WritesMentioned(b); WritesMentioned(i); WritesMentioned(r);
    case _ =>
  }

  lemma {:induction false} AllWritesMentioned(es: seq<Expr>)
    ensures WritesAll(es) <= MentionsAll(es)
  {
    if es != [] {
      WritesMentioned(es[0]);
      AllWritesMentioned(es[1..]);
    }
  }

  lemma OptWritesMentioned(e: Option<Expr>)
    ensures OptWrites(e) <= OptMentions(e)
  {
    if e.Some? {
      WritesMentioned(e.value);
    }
  }

  lemma {:induction false} LetWritesMentioned(ds: seq<Declarator>)
    ensures LetWrites(ds) <= LetMentions(ds)
  {
    if ds != [] {
      OptWritesMentioned(ds[0].init);
      LetWritesMentioned(ds[1..]);
    }
  }

  lemma {:induction false} StmtWritesMentioned(st: Stmt)
    ensures StmtWrites(st) <= StmtNamesIn(st)
    decreases st, 1
  {
    match st
    case Let(ds) => LetWritesMentioned(ds);
    case Do(e) => WritesMentioned(e);
    case If(b, t, f) => WritesMentioned(b); ListWritesMentioned(t); ListWritesMentioned(f);
    case While(b, body) => WritesMentioned(b); ListWritesMentioned(body);
    case For(init, test, step, body) =>
      ListWritesMentioned(init);
      OptWritesMentioned(test);
      OptWritesMentioned(step);
      ListWritesMentioned(body);
    case Return(e) => OptWritesMentioned(e);
    case Throw(e) => WritesMentioned(e);
    case _ =>
  }

  lemma {:induction false} ListWritesMentioned(ss: seq<Stmt>)
    ensures WritesIn(ss) <= NamesIn(ss)
    decreases ss, 0
  {
    if ss != [] {
      StmtWritesMentioned(ss[0]);
      ListWritesMentioned(ss[1..]);
    }
  }

  lemma {:induction false} ExecAppend(c: Ctx, a: seq<Stmt>, b: seq<Stmt>, s: State)
    ensures Exec(c, a + b, s) == Then(c, Exec(c, a, s), b)
  {
    if a == [] {
      assert a + b == b;
    } else {
      assert (a + b)[1..] == a[1..] + b;
      var o := ExecStmt(c, a[0], s);
      if o.Normal? {
        ExecAppend(c, a[1..], b, o.s);
      }
    }
  }

  function Then(c: Ctx, o: Out, rest: seq<Stmt>): Out {
    if o.Normal? then Exec(c, rest, o.s) else o
  }

  lemma ExecCons(c: Ctx, st: Stmt, rest: seq<Stmt>, s: State)
    ensures Exec(c, [st] + rest, s) == Then(c, ExecStmt(c, st, s), rest)
  {
    assert ([st] + rest)[1..] == rest;
  }

  // ----- a run leaves alone what it does not write -----

  ghost predicate Kept(s: State, t: State, x: Name) {
    (x in s.vars <==> x in t.vars) && (x in s.vars ==> s.vars[x] == t.vars[x])
  }

  lemma {:induction false} EvalKeeps(c: Ctx, e: Expr, s: State, x: Name)
    requires x !in Writes(e)
    ensures Eval(c, e, s).Val? ==> Kept(s, Eval(c, e, s).s, x)
  {
    match e
    case Un(_, a) => EvalKeeps(c, a, s, x);
    case Bin(_, l, r) =>
      EvalKeeps(c, l, s, x);
      if Eval(c, l, s).Val? { EvalKeeps(c, r, Eval(c, l, s).s, x); }
    case Logic(_, l, r) =>
      EvalKeeps(c, l, s, x);
      if Eval(c, l, s).Val? { EvalKeeps(c, r, Eval(c, l, s).s, x); }
    case Cond(b, t, f) =>
      EvalKeeps(c, b, s, x);
      if Eval(c, b, s).Val? {
        EvalKeeps(c, t, Eval(c, b, s).s, x);
        EvalKeeps(c, f, Eval(c, b, s).s, x);
      }
    case Call(_, args) => AllKeep(c, args, s, x);
    case Index(b, i) =>
      EvalKeeps(c, b, s, x);
      if Eval(c, b, s).Val? { EvalKeeps(c, i, Eval(c, b, s).s, x); }
    case NewArr(_, n) => EvalKeeps(c, n, s, x);
    case ArrayLit(es) => AllKeep(c, es, s, x);
    case Assign(_, _, r) => EvalKeeps(c, r, s, x);
    case SetAt(b, i, _, r) =>
      EvalKeeps(c, b, s, x);
      if Eval(c, b, s).Val? {
        EvalKeeps(c, i, Eval(c, b, s).s, x);
        var w := Eval(c, i, Eval(c, b, s).s);
        if w.Val? { EvalKeeps(c, r, w.s, x); }
      }
    case _ =>
  }

  lemma {:induction false} AllKeep(c: Ctx, es: seq<Expr>, s: State, x: Name)
    requires x !in WritesAll(es)
    ensures EvalAll(c, es, s).Vals? ==> Kept(s, EvalAll(c, es, s).s, x)
  {
    if es != [] {
      EvalKeeps(c, es[0], s, x);
      var w := Eval(c, es[0], s);
      if w.Val? {
        AllKeep(c, es[1..], w.s, x);
      }
    }
  }

  ghost predicate OutKept(s: State, o: Out, x: Name) {
    (o.Normal? || o.Broke? || o.Continued? || o.Returned?) ==> Kept(s, o.s, x)
  }

  lemma {:induction false} LetsKeep(c: Ctx, ds: seq<Declarator>, s: State, x: Name)
    requires x !in LetWrites(ds)
    ensures OutKept(s, ExecLets(c, ds, s), x)
  {
    if ds != [] {
      match ds[0].init
      case None => LetsKeep(c, ds[1..], s.(vars := s.vars - {ds[0].x}), x);
      case Some(e) =>
        EvalKeeps(c, e, s, x);
        var w := Eval(c, e, s);
        if w.Val? {
          LetsKeep(c, ds[1..], Put(w.s, ds[0].x, w.v), x);
        }
    }
  }

  lemma {:induction false} ListKeeps(c: Ctx, ss: seq<Stmt>, s: State, x: Name)
    requires x !in WritesIn(ss)
    ensures OutKept(s, Exec(c, ss, s), x)
    decreases ss, 0, 0, 0
  {
    if ss != [] {
      StmtKeeps(c, ss[0], s, x);
      var o := ExecStmt(c, ss[0], s);
      if o.Normal? {
        ListKeeps(c, ss[1..], o.s, x);
      }
    }
  }

  lemma {:induction false} StmtKeeps(c: Ctx, st: Stmt, s: State, x: Name)
    requires x !in StmtWrites(st)
    ensures OutKept(s, ExecStmt(c, st, s), x)
    decreases st, 1, 0, 0
  {
    match st
    case Let(ds) => LetsKeep(c, ds, s, x);
    case Do(e) => EvalKeeps(c, e, s, x);
    case If(b, t, f) =>
      EvalKeeps(c, b, s, x);
      var w := Eval(c, b, s);
      if w.Val? && w.v.Int? {
        ListKeeps(c, if w.v.n != 0 then t else f, w.s, x);
      }
    case While(_, _) => LoopKeeps(c, st, s, c.limit, x);
    case For(init, _, _, _) =>
      ListKeeps(c, init, s, x);
      var o := Exec(c, init, s);
      if o.Normal? {
        LoopKeeps(c, st, o.s, c.limit, x);
      }
    case Return(e) =>
      if e.Some? {
        EvalKeeps(c, e.value, s, x);
      }
    case _ =>
  }

  lemma {:induction false} LoopKeeps(c: Ctx, st: Stmt, s: State, n: nat, x: Name)
    requires (st.While? || st.For?) && x !in StmtWrites(st)
    ensures OutKept(s, Loop(c, st, s, n), x)
    decreases st, 0, n, 0
  {
    TestKeeps(c, TestOf(st), s, x);
    var w := Test(c, TestOf(st), s);
    if w.Val? && w.v.Int? && w.v.n != 0 && n > 0 {
      ListKeeps(c, st.body, w.s, x);
      var o := Exec(c, st.body, w.s);
      if o.Normal? || o.Continued? {
        TestKeeps(c, StepOf(st), o.s, x);
        var w2 := Test(c, StepOf(st), o.s);
        if w2.Val? {
          LoopKeeps(c, st, w2.s, n - 1, x);
        }
      }
    }
  }

  lemma TestKeeps(c: Ctx, e: Option<Expr>, s: State, x: Name)
    requires x !in OptWrites(e)
    ensures Test(c, e, s).Val? ==> Kept(s, Test(c, e, s).s, x)
  {
    if e.Some? {
      EvalKeeps(c, e.value, s, x);
    }
  }
}
