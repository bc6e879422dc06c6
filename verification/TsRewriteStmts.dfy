/** The rewriting rules for statements, and what they preserve: the rewritten code ends the
    same way, in the same state less what was hidden. */
module TsRewriteStmts {
  import opened Arith
  import opened TsLang
  import opened TsConst
  import opened TsRewrite

  function Literals(vs: seq<int>): seq<Expr> {
    if vs == [] then [] else [Literal(vs[0])] + Literals(vs[1..])
  }

  /** Returning a hidden array becomes returning its elements. */
  predicate ReturnsArray(k: Know, e: Expr, e2: Expr) {
    e.Var? && e.x in k.arrays && k.arrays[e.x] in k.held && e2 == ArrayLit(Literals(k.held[k.arrays[e.x]]))
  }

  predicate RefinesLets(k: Know, ds: seq<Declarator>, ds2: seq<Declarator>) {
    if ds == [] then ds2 == []
    else
      && ds2 != [] && ds2[0].x == ds[0].x && Writable(k, ds[0].x)
      && RefinesOpt(k, ds[0].init, ds2[0].init)
      && RefinesLets(k, ds[1..], ds2[1..])
  }

  predicate RefinesOpt(k: Know, e: Option<Expr>, e2: Option<Expr>) {
    match e
    case None => e2 == None
    case Some(x) => e2.Some? && Refines(k, x, e2.value)
  }

  predicate RefinesStmt(k: Know, st: Stmt, st2: Stmt)
    decreases st, 1
  {
    match st
    case Let(ds) => st2.Let? && RefinesLets(k, ds, st2.ds)
    case Do(e) => st2.Do? && Refines(k, e, st2.e)
    case If(b, t, f) =>
      st2.If? && Refines(k, b, st2.c) && RefinesList(k, t, st2.thn) && RefinesList(k, f, st2.els)
    case While(b, body) => st2.While? && Refines(k, b, st2.c) && RefinesList(k, body, st2.body)
    case For(init, test, step, body) =>
      && st2.For? && RefinesList(k, init, st2.init) && RefinesOpt(k, test, st2.test)
      && RefinesOpt(k, step, st2.step) && RefinesList(k, body, st2.body)
    case Return(None) => st2 == st
    case Return(Some(e)) =>
      st2.Return? && st2.result.Some? && (Refines(k, e, st2.result.value) || ReturnsArray(k, e, st2.result.value))
    case Throw(e) => st2.Throw? && Refines(k, e, st2.e)
    case Break => st2 == st
    case Continue => st2 == st
  }

  predicate RefinesList(k: Know, ss: seq<Stmt>, ss2: seq<Stmt>)
    decreases ss, 0
  {
    if ss == [] then ss2 == []
    else ss2 != [] && RefinesStmt(k, ss[0], ss2[0]) && RefinesList(k, ss[1..], ss2[1..])
  }

  // ----- outcomes -----

  /** The same result, or the elements of an array only the original has. */
  ghost predicate SameResult(k: Know, r: Option<Value>, s: State, r2: Option<Value>) {
    || (r == r2 && (r.Some? ==> Visible(k, r.value)))
    || (r.Some? && r.value.Ref? && r.value.loc in k.held && r.value.loc in s.heap
        && r2 == Some(Packed(s.heap[r.value.loc])))
  }

  ghost predicate SameOut(k: Know, c: Ctx, o: Out, o2: Out) {
    match o
    case Normal(s) => o2 == Normal(Hide(k, s)) && Knows(k, c, s)
    case Broke(s) => o2 == Broke(Hide(k, s)) && Knows(k, c, s)
    case Continued(s) => o2 == Continued(Hide(k, s)) && Knows(k, c, s)
    case Returned(r, s) => o2.Returned? && o2.s == Hide(k, s) && SameResult(k, r, s, o2.result)
    case _ => o2 == o
  }

  lemma {:induction false} LiteralsValue(c: Ctx, vs: seq<int>, s: State)
    ensures EvalAll(c, Literals(vs), s) == Vals(AsInts(vs), s)
  {
    if vs != [] {
      LiteralValue(c, vs[0], s);
      LiteralsValue(c, vs[1..], s);
      assert Literals(vs)[1..] == Literals(vs[1..]);
    }
  }

  lemma IntsOf(vs: seq<int>)
    ensures AllInts(AsInts(vs)) && Ints(AsInts(vs)) == vs
  {
  }

  lemma ReturnValueSame(k: Know, c: Ctx, e: Expr, e2: Expr, s: State)
    requires Knows(k, c, s) && Refines(k, e, e2)
    ensures SameOut(k, c, ExecStmt(c, Return(Some(e)), s), ExecStmt(c, Return(Some(e2)), Hide(k, s)))
  {
    Simulates(k, c, e, e2, s);
    ReturnResSame(k, c, Eval(c, e, s), Eval(c, e2, Hide(k, s)));
  }

  lemma ReturnResSame(k: Know, c: Ctx, r: Res, r2: Res)
    requires Same(k, c, r, r2)
    ensures SameOut(k, c, ReturnRes(r), ReturnRes(r2))
  {
  }

  lemma ReturnArraySame(k: Know, c: Ctx, e: Expr, e2: Expr, s: State)
    requires Knows(k, c, s) && ReturnsArray(k, e, e2)
    ensures SameOut(k, c, ExecStmt(c, Return(Some(e)), s), ExecStmt(c, Return(Some(e2)), Hide(k, s)))
  {
    var l := k.arrays[e.x];
    var vs, h := k.held[l], Hide(k, s);
    assert Eval(c, e, s) == Val(Ref(l), s);
    LiteralsValue(c, vs, h);
    IntsOf(vs);
    assert Eval(c, e2, h) == Val(Packed(vs), h);
  }

  lemma DropSame(k: Know, c: Ctx, s: State, x: Name)
    requires Knows(k, c, s) && Writable(k, x)
    ensures var t := s.(vars := s.vars - {x});
            Knows(k, c, t) && Hide(k, t) == Hide(k, s).(vars := Hide(k, s).vars - {x})
  {
    var t := s.(vars := s.vars - {x});
    assert Hide(k, t).vars == Hide(k, s).vars - {x};
    assert forall y | y != x :: Lookup(c, t, y) == Lookup(c, s, y);
  }

  lemma {:induction false} LetsSame(k: Know, c: Ctx, ds: seq<Declarator>, ds2: seq<Declarator>, s: State)
    requires Knows(k, c, s) && RefinesLets(k, ds, ds2)
    ensures SameOut(k, c, ExecLets(c, ds, s), ExecLets(c, ds2, Hide(k, s)))
  {
    if ds != [] {
      match ds[0].init
      case None =>
        DropSame(k, c, s, ds[0].x);
        LetsSame(k, c, ds[1..], ds2[1..], s.(vars := s.vars - {ds[0].x}));
      case Some(e) =>
        Simulates(k, c, e, ds2[0].init.value, s);
        var w := Eval(c, e, s);
        if w.Val? {
          PutSame(k, c, w.s, ds[0].x, w.v);
          LetsSame(k, c, ds[1..], ds2[1..], Put(w.s, ds[0].x, w.v));
        }
    }
  }

  lemma {:induction false} LetNames(k: Know, ds: seq<Declarator>, ds2: seq<Declarator>)
    requires RefinesLets(k, ds, ds2)
    ensures DeclNames(ds) == DeclNames(ds2) && forall x | x in DeclNames(ds) :: Writable(k, x)
  {
    if ds != [] {
      LetNames(k, ds[1..], ds2[1..]);
    }
  }

  /** Both declare the same names, none of them hidden or known. */
  lemma {:induction false} ListNames(k: Know, ss: seq<Stmt>, ss2: seq<Stmt>)
    requires RefinesList(k, ss, ss2)
    ensures Declared(ss) == Declared(ss2) && forall x | x in Declared(ss) :: Writable(k, x)
  {
    if ss != [] {
      StmtNames(k, ss[0], ss2[0]);
      ListNames(k, ss[1..], ss2[1..]);
    }
  }

  lemma {:induction false} StmtNames(k: Know, st: Stmt, st2: Stmt)
    requires RefinesStmt(k, st, st2)
    ensures StmtDeclared(st) == StmtDeclared(st2) && forall x | x in StmtDeclared(st) :: Writable(k, x)
  {
    match st
    case Let(ds) => LetNames(k, ds, st2.ds);
    case If(_, t, f) => ListNames(k, t, st2.thn); ListNames(k, f, st2.els);
    case While(_, body) => ListNames(k, body, st2.body);
    case _ =>
  }

  lemma OutsideSame(k: Know, c: Ctx, own: set<Name>, before: State, s: State)
    requires forall x | x in own :: Writable(k, x)
    ensures Hide(k, Outside(own, before, s)) == Outside(own, Hide(k, before), Hide(k, s))
  {
    assert Hide(k, Outside(own, before, s)).vars == Outside(own, Hide(k, before), Hide(k, s)).vars;
  }

  lemma OutsideKnows(k: Know, c: Ctx, own: set<Name>, before: State, s: State)
    requires forall x | x in own :: Writable(k, x)
    requires Knows(k, c, before) && Knows(k, c, s)
    ensures Knows(k, c, Outside(own, before, s))
  {
    var t := Outside(own, before, s);
    assert forall y | y !in own :: Lookup(c, t, y) == Lookup(c, s, y);
    assert forall y | y in t.vars && y !in own :: y in s.vars && t.vars[y] == s.vars[y];
    assert forall y | y in t.vars && y in own :: y in before.vars && t.vars[y] == before.vars[y];
  }

  lemma CloseSame(k: Know, c: Ctx, own: set<Name>, before: State, o: Out, o2: Out)
    requires Knows(k, c, before) && SameOut(k, c, o, o2) && forall x | x in own :: Writable(k, x)
    ensures SameOut(k, c, Close(own, before, o), Close(own, Hide(k, before), o2))
  {
    if o.Normal? || o.Broke? || o.Continued? || o.Returned? {
      OutsideSame(k, c, own, before, o.s);
      if !o.Returned? {
        OutsideKnows(k, c, own, before, o.s);
      }
    }
  }

  lemma {:induction false} ListSame(k: Know, c: Ctx, ss: seq<Stmt>, ss2: seq<Stmt>, s: State)
    requires Knows(k, c, s) && RefinesList(k, ss, ss2)
    ensures SameOut(k, c, Exec(c, ss, s), Exec(c, ss2, Hide(k, s)))
    decreases ss, 0, 0, 0
  {
    if ss != [] {
      StmtSame(k, c, ss[0], ss2[0], s);
      var o := ExecStmt(c, ss[0], s);
      if o.Normal? {
        ListSame(k, c, ss[1..], ss2[1..], o.s);
      }
    }
  }

  lemma {:induction false} StmtSame(k: Know, c: Ctx, st: Stmt, st2: Stmt, s: State)
    requires Knows(k, c, s) && RefinesStmt(k, st, st2)
    ensures SameOut(k, c, ExecStmt(c, st, s), ExecStmt(c, st2, Hide(k, s)))
    decreases st, 1, 0, 0
  {
    match st
    case Let(ds) => LetsSame(k, c, ds, st2.ds, s);
    case Do(e) => Simulates(k, c, e, st2.e, s);
    case If(b, t, f) =>
      Simulates(k, c, b, st2.c, s);
      var w := Eval(c, b, s);
      if w.Val? && w.v.Int? {
        if w.v.n != 0 {
          ListSame(k, c, t, st2.thn, w.s);
        } else {
          ListSame(k, c, f, st2.els, w.s);
        }
      }
    case While(_, _) => LoopSame(k, c, st, st2, s, c.limit);
    case For(_, _, _, _) => ForSame(k, c, st, st2, s);
    case Return(None) =>
    case Return(Some(e)) =>
      if Refines(k, e, st2.result.value) {
        ReturnValueSame(k, c, e, st2.result.value, s);
      } else {
        ReturnArraySame(k, c, e, st2.result.value, s);
      }
    case Throw(e) => Simulates(k, c, e, st2.e, s);
    case Break =>
    case Continue =>
  }

  lemma {:induction false} ForSame(k: Know, c: Ctx, st: Stmt, st2: Stmt, s: State)
    requires Knows(k, c, s) && RefinesStmt(k, st, st2) && st.For?
    ensures SameOut(k, c, ExecStmt(c, st, s), ExecStmt(c, st2, Hide(k, s)))
    decreases st, 0, c.limit + 1, 0
  {
    ListNames(k, st.init, st2.init);
    ListNames(k, st.body, st2.body);
    ListSame(k, c, st.init, st2.init, s);
    var o, o2 := Exec(c, st.init, s), Exec(c, st2.init, Hide(k, s));
    var own := Declared(st.init) + Declared(st.body);
    if o.Normal? {
      LoopSame(k, c, st, st2, o.s, c.limit);
      CloseSame(k, c, own, s, Loop(c, st, o.s, c.limit), Loop(c, st2, o2.s, c.limit));
    } else {
      CloseSame(k, c, own, s, o, o2);
    }
  }

  lemma {:induction false} TestSame(k: Know, c: Ctx, t: Option<Expr>, t2: Option<Expr>, s: State)
    requires Knows(k, c, s) && RefinesOpt(k, t, t2)
    ensures Same(k, c, Test(c, t, s), Test(c, t2, Hide(k, s)))
  {
    if t.Some? {
      Simulates(k, c, t.value, t2.value, s);
    }
  }

  lemma {:induction false} LoopSame(k: Know, c: Ctx, st: Stmt, st2: Stmt, s: State, n: nat)
    requires st.While? || st.For?
    requires Knows(k, c, s) && RefinesStmt(k, st, st2)
    ensures SameOut(k, c, Loop(c, st, s, n), Loop(c, st2, Hide(k, s), n))
    decreases st, 0, n, 0
  {
    TestSame(k, c, TestOf(st), TestOf(st2), s);
    var w := Test(c, TestOf(st), s);
    if w.Val? && w.v.Int? && w.v.n != 0 && n > 0 {
      ListSame(k, c, st.body, st2.body, w.s);
      var o := Exec(c, st.body, w.s);
      if o.Normal? || o.Continued? {
        AgainSame(k, c, st, st2, o.s, n);
      }
    }
  }

  lemma {:induction false} AgainSame(k: Know, c: Ctx, st: Stmt, st2: Stmt, s: State, n: nat)
    requires (st.While? || st.For?) && n > 0
    requires Knows(k, c, s) && RefinesStmt(k, st, st2)
    ensures SameOut(k, c, Again(c, st, s, n), Again(c, st2, Hide(k, s), n))
    decreases st, 0, n - 1, 1
  {
    TestSame(k, c, StepOf(st), StepOf(st2), s);
    var w := Test(c, StepOf(st), s);
    if w.Val? {
      LoopSame(k, c, st, st2, w.s, n - 1);
    }
  }

  // ----- code that touches nothing hidden -----

  function NamesIn(ss: seq<Stmt>): set<Name>
    decreases ss, 0
  {
    if ss == [] then {} else StmtNamesIn(ss[0]) + NamesIn(ss[1..])
  }

  function OptMentions(e: Option<Expr>): set<Name> {
    match e case None => {} case Some(x) => Mentions(x)
  }

  function LetMentions(ds: seq<Declarator>): set<Name> {
    if ds == [] then {} else {ds[0].x} + OptMentions(ds[0].init) + LetMentions(ds[1..])
  }

  /** Every variable a statement reads, writes or declares. */
  function StmtNamesIn(st: Stmt): set<Name>
    decreases st, 1
  {
    match st
    case Let(ds) => LetMentions(ds)
    case Do(e) => Mentions(e)
    case If(b, t, f) => Mentions(b) + NamesIn(t) + NamesIn(f)
    case While(b, body) => Mentions(b) + NamesIn(body)
    case For(init, test, step, body) => NamesIn(init) + OptMentions(test) + OptMentions(step) + NamesIn(body)
    case Return(e) => OptMentions(e)
    case Throw(e) => Mentions(e)
    case Break => {}
    case Continue => {}
  }

  function WritesIn(ss: seq<Stmt>): set<Name>
    decreases ss, 0
  {
    if ss == [] then {} else StmtWrites(ss[0]) + WritesIn(ss[1..])
  }

  function OptWrites(e: Option<Expr>): set<Name> {
    match e case None => {} case Some(x) => Writes(x)
  }

  function LetWrites(ds: seq<Declarator>): set<Name> {
    if ds == [] then {} else {ds[0].x} + OptWrites(ds[0].init) + LetWrites(ds[1..])
  }

  /** Every variable a statement declares, assigns or updates. */
  function StmtWrites(st: Stmt): set<Name>
    decreases st, 1
  {
    match st
    case Let(ds) => LetWrites(ds)
    case Do(e) => Writes(e)
    case If(b, t, f) => Writes(b) + WritesIn(t) + WritesIn(f)
    case While(b, body) => Writes(b) + WritesIn(body)
    case For(init, test, step, body) => WritesIn(init) + OptWrites(test) + OptWrites(step) + WritesIn(body)
    case Return(e) => OptWrites(e)
    case Throw(e) => Writes(e)
    case Break => {}
    case Continue => {}
  }
}
