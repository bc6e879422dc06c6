/** Expanded code calls no inline function and declares no source name of its own. */
module InlineClear {
  import opened Arith
  import opened Sauce
  import opened SauceNames
  import opened Inline

  function SourceNames(names: set<Name>): set<Name> {
    set n | n in names && n.User?
  }

  ghost predicate Clear(ss: seq<Stmt>, m: InlineMap, source: set<Name>) {
    CalleesIn(ss) !! m.Keys && SourceNames(Lexical(ss)) == source
  }

  lemma {:induction false} Concat(a: seq<Stmt>, b: seq<Stmt>)
    ensures CalleesIn(a + b) == CalleesIn(a) + CalleesIn(b) && Lexical(a + b) == Lexical(a) + Lexical(b)
  {
    if a == [] {
      assert a + b == b;
    } else {
      assert (a + b)[1..] == a[1..] + b;
      Concat(a[1..], b);
    }
  }

  lemma ClearConcat(a: seq<Stmt>, b: seq<Stmt>, m: InlineMap, x: set<Name>, y: set<Name>)
    requires Clear(a, m, x) && Clear(b, m, y)
    ensures Clear(a + b, m, x + y)
  {
    Concat(a, b);
  }

  lemma {:induction false} HoistClear(e: Expr, m: InlineMap, id: nat)
    requires Sound(m) && id <= MAX_INLINE_EXPANSIONS && HoistExpr(e, m, id).Ok?
    ensures var h := HoistExpr(e, m, id).value; Clear(h.pre, m, {}) && Callees(h.rest) !! m.Keys
    decreases MAX_INLINE_EXPANSIONS - id, 1, e, 1
  {
    match e
    case Lit(_) =>
    case Var(_) =>
    case Un(_, e1) => HoistClear(e1, m, id);
    case Bin(_, l, r) =>
      HoistClear(l, m, id);
      var hl := HoistExpr(l, m, id).value;
      HoistClear(r, m, hl.next);
      ClearConcat(hl.pre, HoistExpr(r, m, hl.next).value.pre, m, {}, {});
    case Logic(_, l, _) => HoistClear(l, m, id);
    case Cond(c, _, _) => HoistClear(c, m, id);
    case Call(f, args) =>
      HoistArgsClear(args, m, id);
      if f in m {
        var ha := HoistArgs(args, m, id).value;
        CallClear(f, ha.rest, true, m, ha.next);
        ClearConcat(ha.pre, ExpandCall(f, ha.rest, true, m, ha.next).value.pre, m, {}, {});
      }
  }

  lemma {:induction false} HoistArgsClear(args: seq<Expr>, m: InlineMap, id: nat)
    requires Sound(m) && id <= MAX_INLINE_EXPANSIONS && HoistArgs(args, m, id).Ok?
    ensures var h := HoistArgs(args, m, id).value; Clear(h.pre, m, {}) && ArgCallees(h.rest) !! m.Keys
    decreases MAX_INLINE_EXPANSIONS - id, 1, args, 0
  {
    if args != [] {
      HoistClear(args[0], m, id);
      var h := HoistExpr(args[0], m, id).value;
      HoistArgsClear(args[1..], m, h.next);
      var hs := HoistArgs(args[1..], m, h.next).value;
      assert ([h.rest] + hs.rest)[1..] == hs.rest;
      ClearConcat(h.pre, hs.pre, m, {}, {});
    }
  }

  /** Inline bodies are validated and written in source names. */
  ghost predicate Sound(m: InlineMap) {
    forall f | f in m :: Inlineable(m[f].body) && (forall n | n in Lexical(m[f].body) :: n.User?)
  }

  lemma {:induction false} BindClear(params: seq<Ident>, args: seq<Expr>, m: InlineMap, id: nat)
    requires |params| == |args| && ArgCallees(args) !! m.Keys
    ensures Clear(BindArgs(params, args, id), m, {})
  {
    if params != [] {
      var n := |params| - 1;
      PrefixCallees(args, n);
      BindClear(params[..n], args[..n], m, id);
      var last := [Decl([Declarator(ParamOf(id, params[n]), args[n])])];
      OneDeclClear(ParamOf(id, params[n]), args[n], m);
      ClearConcat(BindArgs(params[..n], args[..n], id), last, m, {}, {});
    }
  }

  lemma OneDeclClear(x: Name, e: Expr, m: InlineMap)
    requires !x.User? && Callees(e) !! m.Keys
    ensures Clear([Decl([Declarator(x, e)])], m, {})
  {
    var ds := [Declarator(x, e)];
    assert DeclCallees(ds) == Callees(e) + DeclCallees(ds[1..]);
    assert DeclaredBy(ds) == {x};
  }

  lemma {:induction false} PrefixCallees(args: seq<Expr>, n: nat)
    requires n < |args|
    ensures ArgCallees(args[..n]) <= ArgCallees(args) && Callees(args[n]) <= ArgCallees(args)
  {
    if n > 0 {
      PrefixCallees(args[1..], n - 1);
      assert args[..n][1..] == args[1..][..n - 1];
    }
  }

  lemma {:induction false} CallClear(f: Ident, args: seq<Expr>, used: bool, m: InlineMap, id: nat)
    requires Sound(m) && f in m && id <= MAX_INLINE_EXPANSIONS && ArgCallees(args) !! m.Keys
    requires ExpandCall(f, args, used, m, id).Ok?
    ensures Clear(ExpandCall(f, args, used, m, id).value.pre, m, {})
    decreases MAX_INLINE_EXPANSIONS - id, 0, 0, 0
  {
    var fn := m[f];
    var body := RenameStmts(fn.body, RenameMap(fn, id));
    BindClear(fn.params, args, m, id);
    var binds, flags := BindArgs(fn.params, args, id), InitFlags(id);
    assert flags == [Decl([Declarator(ResultOf(id), Lit(0))])] + [Decl([Declarator(DoneOf(id), Lit(0))])];
    OneDeclClear(ResultOf(id), Lit(0), m);
    OneDeclClear(DoneOf(id), Lit(0), m);
    ClearConcat([flags[0]], [flags[1]], m, {}, {});
    ClearConcat(binds, flags, m, {}, {});
    RenamedLexical(fn.body, fn, id);
    ElimClear(body, m, id, id + 1);
    ClearConcat(binds + flags, Eliminate(body, m, id, id + 1).value.pre, m, {}, {});
  }

  lemma {:induction false} RenamedLexical(ss: seq<Stmt>, fn: Fn, id: nat)
    requires Inlineable(ss) && Lexical(ss) <= Lexical(fn.body)
    requires forall n | n in Lexical(fn.body) :: n.User?
    ensures Inlineable(RenameStmts(ss, RenameMap(fn, id)))
    ensures SourceNames(Lexical(RenameStmts(ss, RenameMap(fn, id)))) == {}
    decreases ss, 0
  {
    var ren := RenameMap(fn, id);
    if ss != [] {
      RenamedLexicalStmt(ss[0], fn, id);
      RenamedLexical(ss[1..], fn, id);
      assert RenameStmts(ss, ren)[1..] == RenameStmts(ss[1..], ren);
    }
  }

  lemma {:induction false} RenamedLexicalStmt(s: Stmt, fn: Fn, id: nat)
    requires InlineableStmt(s) && StmtLexical(s) <= Lexical(fn.body)
    requires forall n | n in Lexical(fn.body) :: n.User?
    ensures InlineableStmt(RenameStmt(s, RenameMap(fn, id)))
    ensures SourceNames(StmtLexical(RenameStmt(s, RenameMap(fn, id)))) == {}
    decreases s, 1
  {
    match s
    case Decl(ds) => RenamedDeclared(ds, fn, id);
    case If(_, thn, els) => RenamedLexical(thn, fn, id); RenamedLexical(els, fn, id);
    case Return(None) =>
    case Return(Some(_)) =>
    case _ =>
  }

  lemma {:induction false} RenamedDeclared(ds: seq<Declarator>, fn: Fn, id: nat)
    requires DeclaredBy(ds) <= Lexical(fn.body)
    requires forall n | n in Lexical(fn.body) :: n.User?
    ensures SourceNames(DeclaredBy(RenameDecls(ds, RenameMap(fn, id)))) == {}
  {
    var ren := RenameMap(fn, id);
    if ds != [] {
      assert ds[0].x in DeclaredBy(ds);
      assert DeclaredBy(ds[1..]) <= DeclaredBy(ds);
      RenamedDeclared(ds[1..], fn, id);
      var d := Declarator(RenameName(ds[0].x, ren), RenameExpr(ds[0].init, ren));
      assert RenameDecls(ds, ren) == [d] + RenameDecls(ds[1..], ren);
      assert DeclaredBy([d] + RenameDecls(ds[1..], ren)) == {d.x} + DeclaredBy(RenameDecls(ds[1..], ren));
    }
  }

  lemma ClearOne(s: Stmt, m: InlineMap, source: set<Name>)
    requires StmtCallees(s) !! m.Keys && SourceNames(StmtLexical(s)) == source
    ensures Clear([s], m, source)
  {
    assert [s][1..] == [];
  }

  lemma GuardClear(ss: seq<Stmt>, m: InlineMap, id: nat)
    requires Clear(ss, m, {})
    ensures Clear(Guard(id, ss), m, {})
  {
    if ss != [] {
      var test := Bin(Eq, Var(DoneOf(id)), Lit(0));
      assert Callees(test) == {};
      ClearOne(If(test, ss, []), m, {});
    }
  }

  lemma {:induction false} ElimClear(ss: seq<Stmt>, m: InlineMap, id: nat, next: nat)
    requires Sound(m) && next <= MAX_INLINE_EXPANSIONS && Eliminate(ss, m, id, next).Ok?
    requires Inlineable(ss) && SourceNames(Lexical(ss)) == {}
    ensures Clear(Eliminate(ss, m, id, next).value.pre, m, {})
    decreases MAX_INLINE_EXPANSIONS - next, 1, ss, 0
  {
    if ss != [] {
      assert SourceNames(StmtLexical(ss[0])) <= SourceNames(Lexical(ss));
      assert SourceNames(Lexical(ss[1..])) <= SourceNames(Lexical(ss));
      if ss[0].Return? {
        ElimReturnClear(ss[0], m, id, next);
      } else if BranchReturns(ss[0]) {
        var h := EliminateIf(ss[0], m, id, next).value;
        var hr := Eliminate(ss[1..], m, id, h.next).value;
        ElimIfClear(ss[0], m, id, next);
        ElimClear(ss[1..], m, id, h.next);
        GuardClear(hr.pre, m, id);
        ClearConcat(h.pre, Guard(id, hr.pre), m, {}, {});
      } else {
        var h := ExpandStmt(ss[0], m, next).value;
        ExpandStmtClear(ss[0], m, next);
        ElimClear(ss[1..], m, id, h.next);
        ClearConcat(h.pre, Eliminate(ss[1..], m, id, h.next).value.pre, m, {}, {});
      }
    }
  }

  lemma {:induction false} ElimReturnClear(s: Stmt, m: InlineMap, id: nat, next: nat)
    requires Sound(m) && next <= MAX_INLINE_EXPANSIONS && s.Return? && EliminateReturn(s, m, id, next).Ok?
    ensures Clear(EliminateReturn(s, m, id, next).value.pre, m, {})
    decreases MAX_INLINE_EXPANSIONS - next, 1, s, 2
  {
    ClearOne(SetDone(id)[0], m, {});
    match s.arg
    case None =>
    case Some(e) =>
      assert s == Return(Some(e));
      HoistClear(e, m, next);
      var h := HoistExpr(e, m, next).value;
      ClearOne(SetResult(id, h.rest)[0], m, {});
      ClearConcat(h.pre, SetResult(id, h.rest), m, {}, {});
      ClearConcat(h.pre + SetResult(id, h.rest), SetDone(id), m, {}, {});
  }

  lemma {:induction false} ElimIfClear(s: Stmt, m: InlineMap, id: nat, next: nat)
    requires Sound(m) && next <= MAX_INLINE_EXPANSIONS && s.If? && EliminateIf(s, m, id, next).Ok?
    requires InlineableStmt(s) && SourceNames(StmtLexical(s)) == {}
    ensures Clear(EliminateIf(s, m, id, next).value.pre, m, {})
    decreases MAX_INLINE_EXPANSIONS - next, 1, s, 2
  {
    var hc := HoistExpr(s.c, m, next).value;
    var ht := Eliminate(s.thn, m, id, hc.next).value;
    var he := Eliminate(s.els, m, id, ht.next).value;
    assert SourceNames(Lexical(s.thn)) <= SourceNames(StmtLexical(s));
    assert SourceNames(Lexical(s.els)) <= SourceNames(StmtLexical(s));
    HoistClear(s.c, m, next);
    ElimClear(s.thn, m, id, hc.next);
    ElimClear(s.els, m, id, ht.next);
    ClearOne(If(hc.rest, ht.pre, he.pre), m, {});
    ClearConcat(hc.pre, [If(hc.rest, ht.pre, he.pre)], m, {}, {});
  }

  lemma {:induction false} DeclsClear(ds: seq<Declarator>, m: InlineMap, id: nat)
    requires Sound(m) && id <= MAX_INLINE_EXPANSIONS && HoistDecls(ds, m, id).Ok?
    ensures var h := HoistDecls(ds, m, id).value;
            Clear(h.pre, m, {}) && DeclCallees(h.rest) !! m.Keys && DeclaredBy(h.rest) == DeclaredBy(ds)
    decreases MAX_INLINE_EXPANSIONS - id, 1, ds, 0
  {
    if ds != [] {
      assert ds decreases to ds[0];
      HoistClear(ds[0].init, m, id);
      var h := HoistExpr(ds[0].init, m, id).value;
      DeclsClear(ds[1..], m, h.next);
      var hs := HoistDecls(ds[1..], m, h.next).value;
      ClearConcat(h.pre, hs.pre, m, {}, {});
      var d := Declarator(ds[0].x, h.rest);
      assert ([d] + hs.rest)[1..] == hs.rest;
      assert DeclaredBy([d] + hs.rest) == {d.x} + DeclaredBy(hs.rest);
      assert ds == [ds[0]] + ds[1..];
      assert DeclaredBy([ds[0]] + ds[1..]) == {ds[0].x} + DeclaredBy(ds[1..]);
    }
  }

  /** Hoisting one statement: the code before it and, but for nested lists, the statement. */
  lemma {:induction false} HoistStmtClear(s: Stmt, m: InlineMap, id: nat)
    requires Sound(m) && id <= MAX_INLINE_EXPANSIONS && HoistStmt(s, m, id).Ok?
    requires !s.If? && !s.While? && !s.For?
    ensures var h := HoistStmt(s, m, id).value; Clear(h.pre + h.rest, m, SourceNames(StmtLexical(s)))
    decreases MAX_INLINE_EXPANSIONS - id, 1, s, 2
  {
    var h := HoistStmt(s, m, id).value;
    match s
    case Decl(ds) =>
      DeclsClear(ds, m, id);
      ClearOne(h.rest[0], m, SourceNames(StmtLexical(s)));
      ClearConcat(h.pre, h.rest, m, {}, SourceNames(StmtLexical(s)));
    case Eff(e) =>
      if e.Call? && e.callee in m {
        DiscardClear(e, m, id);
      } else {
        HoistClear(e, m, id);
        ClearOne(h.rest[0], m, {});
        ClearConcat(h.pre, h.rest, m, {}, {});
      }
    case Assign(_, e) => HoistClear(e, m, id); ClearOne(h.rest[0], m, {}); ClearConcat(h.pre, h.rest, m, {}, {});
    case OpAssign(_, _, e) => HoistClear(e, m, id); ClearOne(h.rest[0], m, {}); ClearConcat(h.pre, h.rest, m, {}, {});
    case Return(Some(e)) => HoistClear(e, m, id); ClearOne(h.rest[0], m, {}); ClearConcat(h.pre, h.rest, m, {}, {});
    case Throw(e) => HoistClear(e, m, id); ClearOne(h.rest[0], m, {}); ClearConcat(h.pre, h.rest, m, {}, {});
    case _ => ClearOne(s, m, {}); ClearConcat(h.pre, h.rest, m, {}, {});
  }

  lemma {:induction false} DiscardClear(e: Expr, m: InlineMap, id: nat)
    requires Sound(m) && id <= MAX_INLINE_EXPANSIONS && e.Call? && e.callee in m && HoistStmt(Eff(e), m, id).Ok?
    ensures var h := HoistStmt(Eff(e), m, id).value; Clear(h.pre + h.rest, m, {})
    decreases MAX_INLINE_EXPANSIONS - id, 1, e, 2
  {
    assert e == Call(e.callee, e.args);
    var ha := HoistArgs(e.args, m, id).value;
    HoistArgsClear(e.args, m, id);
    CallClear(e.callee, ha.rest, false, m, ha.next);
    var x := ExpandCall(e.callee, ha.rest, false, m, ha.next).value;
    ClearConcat(ha.pre, x.pre, m, {}, {});
    var h := HoistStmt(Eff(e), m, id).value;
    assert h.pre + h.rest == ha.pre + x.pre;
  }

  lemma {:induction false} ExpandStmtClear(s: Stmt, m: InlineMap, id: nat)
    requires Sound(m) && id <= MAX_INLINE_EXPANSIONS && ExpandStmt(s, m, id).Ok?
    ensures Clear(ExpandStmt(s, m, id).value.pre, m, SourceNames(StmtLexical(s)))
    decreases MAX_INLINE_EXPANSIONS - id, 1, s, 3
  {
    var source := SourceNames(StmtLexical(s));
    if s.If? {
      var hc := HoistExpr(s.c, m, id).value;
      var ht := ExpandList(s.thn, m, hc.next).value;
      var he := ExpandList(s.els, m, ht.next).value;
      var branch := If(hc.rest, ht.pre, he.pre);
      assert ExpandStmt(s, m, id).value.pre == hc.pre + [branch];
      HoistClear(s.c, m, id);
      ExpandClear(s.thn, m, hc.next);
      ExpandClear(s.els, m, ht.next);
      assert SourceNames(StmtLexical(branch)) == SourceNames(Lexical(ht.pre)) + SourceNames(Lexical(he.pre));
      assert source == SourceNames(Lexical(s.thn)) + SourceNames(Lexical(s.els));
      ClearOne(branch, m, source);
      ClearConcat(hc.pre, [branch], m, {}, source);
    } else if s.While? {
      ExpandClear(s.body, m, id);
      var loop := While(s.c, ExpandList(s.body, m, id).value.pre);
      assert ExpandStmt(s, m, id).value.pre == [loop];
      ClearOne(loop, m, source);
    } else if s.For? {
      ExpandClear(s.body, m, id);
      var loop := For(s.init, s.c, s.step, ExpandList(s.body, m, id).value.pre);
      assert ExpandStmt(s, m, id).value.pre == [loop];
      assert SourceNames(StmtLexical(loop)) ==
             SourceNames(Lexical(s.init)) + SourceNames(Lexical(s.step)) + SourceNames(Lexical(loop.body));
      assert source == SourceNames(Lexical(s.init)) + SourceNames(Lexical(s.step)) + SourceNames(Lexical(s.body));
      ClearOne(loop, m, source);
    } else {
      HoistStmtClear(s, m, id);
      assert ExpandStmt(s, m, id).value.pre == HoistStmt(s, m, id).value.pre + HoistStmt(s, m, id).value.rest;
    }
  }

  lemma {:induction false} ExpandClear(ss: seq<Stmt>, m: InlineMap, id: nat)
    requires Sound(m) && id <= MAX_INLINE_EXPANSIONS && ExpandList(ss, m, id).Ok?
    ensures Clear(ExpandList(ss, m, id).value.pre, m, SourceNames(Lexical(ss)))
    decreases MAX_INLINE_EXPANSIONS - id, 1, ss, 0
  {
    if ss != [] {
      ExpandStmtClear(ss[0], m, id);
      var h := ExpandStmt(ss[0], m, id).value;
      ExpandClear(ss[1..], m, h.next);
      assert SourceNames(Lexical(ss)) == SourceNames(StmtLexical(ss[0])) + SourceNames(Lexical(ss[1..]));
      ClearConcat(h.pre, ExpandList(ss[1..], m, h.next).value.pre, m,
                  SourceNames(StmtLexical(ss[0])), SourceNames(Lexical(ss[1..])));
    }
  }
}
