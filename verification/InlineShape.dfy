/** Syntactic facts about expansion: what hoisted expressions read and call, and what a
    renamed body mentions. */
module InlineShape {
  import opened Sauce
  import opened SauceNames
  import opened Inline

  // ----- code without inline calls is left as it is -----

  lemma {:induction false} HoistNoCall(e: Expr, m: InlineMap, id: nat)
    requires Callees(e) !! m.Keys && id <= MAX_INLINE_EXPANSIONS
    ensures HoistExpr(e, m, id) == Ok(Hoisted([], e, id))
    decreases e, 0
  {
    var none: seq<Stmt> := [];
    assert none + none == none;
    match e
    case Lit(_) =>
    case Var(_) =>
    case Un(_, e1) => HoistNoCall(e1, m, id);
    case Bin(_, l, r) => HoistNoCall(l, m, id); HoistNoCall(r, m, id);
    case Logic(_, l, r) => HoistNoCall(l, m, id);
    case Cond(c, _, _) => HoistNoCall(c, m, id);
    case Call(_, args) => HoistArgsNoCall(args, m, id);
  }

  lemma {:induction false} HoistArgsNoCall(args: seq<Expr>, m: InlineMap, id: nat)
    requires ArgCallees(args) !! m.Keys && id <= MAX_INLINE_EXPANSIONS
    ensures HoistArgs(args, m, id) == Ok(Hoisted([], args, id))
    decreases args, 0
  {
    var none: seq<Stmt> := [];
    assert none + none == none;
    if args != [] {
      HoistNoCall(args[0], m, id);
      HoistArgsNoCall(args[1..], m, id);
      assert args == [args[0]] + args[1..];
    }
  }

  lemma {:induction false} HoistDeclsNoCall(ds: seq<Declarator>, m: InlineMap, id: nat)
    requires DeclCallees(ds) !! m.Keys && id <= MAX_INLINE_EXPANSIONS
    ensures HoistDecls(ds, m, id) == Ok(Hoisted([], ds, id))
  {
    var none: seq<Stmt> := [];
    assert none + none == none;
    if ds != [] {
      HoistNoCall(ds[0].init, m, id);
      HoistDeclsNoCall(ds[1..], m, id);
      assert ds == [ds[0]] + ds[1..];
    }
  }

  /** Only the first declarator has anything to hoist. */
  lemma HoistDeclsFirst(ds: seq<Declarator>, m: InlineMap, id: nat)
    requires ds != [] && DeclCallees(ds[1..]) !! m.Keys && id <= MAX_INLINE_EXPANSIONS
    requires HoistDecls(ds, m, id).Ok?
    ensures HoistExpr(ds[0].init, m, id).Ok?
    ensures var h := HoistExpr(ds[0].init, m, id).value;
            HoistDecls(ds, m, id) == Ok(Hoisted(h.pre, [Declarator(ds[0].x, h.rest)] + ds[1..], h.next))
  {
    var h := HoistExpr(ds[0].init, m, id).value;
    HoistDeclsNoCall(ds[1..], m, h.next);
    assert h.pre + [] == h.pre;
  }

  lemma HoistStmtNoCall(s: Stmt, m: InlineMap, id: nat)
    requires StmtCallees(s) !! m.Keys && id <= MAX_INLINE_EXPANSIONS
    ensures HoistStmt(s, m, id) == Ok(Hoisted([], [s], id))
  {
    match s
    case Decl(ds) => HoistDeclsNoCall(ds, m, id);
    case Assign(_, e) => HoistNoCall(e, m, id);
    case OpAssign(_, _, e) => HoistNoCall(e, m, id);
    case Eff(e) => HoistNoCall(e, m, id);
    case If(c, _, _) => HoistNoCall(c, m, id);
    case Return(Some(e)) => HoistNoCall(e, m, id);
    case Throw(e) => HoistNoCall(e, m, id);
    case _ =>
  }

  lemma {:induction false} ExpandNoCall(ss: seq<Stmt>, m: InlineMap, id: nat)
    requires CalleesIn(ss) !! m.Keys && id <= MAX_INLINE_EXPANSIONS
    ensures ExpandList(ss, m, id) == Ok(Hoisted(ss, (), id))
    decreases ss, 0
  {
    if ss != [] {
      ExpandStmtNoCall(ss[0], m, id);
      ExpandNoCall(ss[1..], m, id);
      assert ss == [ss[0]] + ss[1..];
    }
  }

  lemma {:induction false} ExpandStmtNoCall(s: Stmt, m: InlineMap, id: nat)
    requires StmtCallees(s) !! m.Keys && id <= MAX_INLINE_EXPANSIONS
    ensures ExpandStmt(s, m, id) == Ok(Hoisted([s], (), id))
    decreases s, 1
  {
    HoistStmtNoCall(s, m, id);
    var none: seq<Stmt> := [];
    assert none + [s] == [s];
    match s
    case If(_, thn, els) => ExpandNoCall(thn, m, id); ExpandNoCall(els, m, id);
    case While(_, body) => ExpandNoCall(body, m, id);
    case For(_, _, _, body) => ExpandNoCall(body, m, id);
    case _ =>
  }

  // ----- what is left in place of an expression -----

  lemma {:induction false} HoistShape(e: Expr, m: InlineMap, id: nat)
    requires id <= MAX_INLINE_EXPANSIONS && HoistExpr(e, m, id).Ok?
    requires AllBelow(Reads(e), id)
    ensures var h := HoistExpr(e, m, id).value;
            Callees(h.rest) !! m.Keys && Callees(h.rest) <= Callees(e) && AllBelow(Reads(h.rest), h.next)
    decreases e, 0
  {
    match e
    case Lit(_) =>
    case Var(_) =>
    case Un(_, e1) => HoistShape(e1, m, id);
    case Bin(_, l, r) =>
      HoistShape(l, m, id);
      HoistShape(r, m, HoistExpr(l, m, id).value.next);
    case Logic(_, l, r) => HoistShape(l, m, id);
    case Cond(c, _, _) => HoistShape(c, m, id);
    case Call(_, args) => HoistArgsShape(args, m, id);
  }

  lemma {:induction false} HoistArgsShape(args: seq<Expr>, m: InlineMap, id: nat)
    requires id <= MAX_INLINE_EXPANSIONS && HoistArgs(args, m, id).Ok?
    requires AllBelow(ArgReads(args), id)
    ensures var h := HoistArgs(args, m, id).value;
            ArgCallees(h.rest) !! m.Keys && ArgCallees(h.rest) <= ArgCallees(args) && AllBelow(ArgReads(h.rest), h.next)
    decreases args, 0
  {
    if args != [] {
      HoistShape(args[0], m, id);
      var h := HoistExpr(args[0], m, id).value;
      HoistArgsShape(args[1..], m, h.next);
      var hs := HoistArgs(args[1..], m, h.next).value;
      assert ([h.rest] + hs.rest)[1..] == hs.rest;
    }
  }

  // ----- what a renamed body mentions -----

  lemma {:induction false} RenamedExpr(e: Expr, ren: Renaming, img: set<Name>)
    requires forall n | n in Reads(e) :: RenameName(n, ren) in img
    ensures Reads(RenameExpr(e, ren)) <= img && Callees(RenameExpr(e, ren)) == Callees(e)
    decreases e, 0
  {
    match e
    case Lit(_) =>
    case Var(_) =>
    case Un(_, e1) => RenamedExpr(e1, ren, img);
    case Bin(_, l, r) => RenamedExpr(l, ren, img); RenamedExpr(r, ren, img);
    case Logic(_, l, r) => RenamedExpr(l, ren, img); RenamedExpr(r, ren, img);
    case Cond(c, t, f) => RenamedExpr(c, ren, img); RenamedExpr(t, ren, img); RenamedExpr(f, ren, img);
    case Call(_, args) => RenamedArgs(args, ren, img);
  }

  lemma {:induction false} RenamedArgs(args: seq<Expr>, ren: Renaming, img: set<Name>)
    requires forall n | n in ArgReads(args) :: RenameName(n, ren) in img
    ensures ArgReads(RenameArgs(args, ren)) <= img && ArgCallees(RenameArgs(args, ren)) == ArgCallees(args)
    decreases args, 0
  {
    if args != [] {
      RenamedExpr(args[0], ren, img);
      RenamedArgs(args[1..], ren, img);
      assert RenameArgs(args, ren)[1..] == RenameArgs(args[1..], ren);
    }
  }

  lemma {:induction false} RenamedDecls(ds: seq<Declarator>, ren: Renaming, img: set<Name>)
    requires forall n | n in DeclNames(ds) + DeclReads(ds) :: RenameName(n, ren) in img
    ensures DeclReads(RenameDecls(ds, ren)) <= img && DeclCallees(RenameDecls(ds, ren)) == DeclCallees(ds)
    ensures DeclNames(RenameDecls(ds, ren)) <= img
  {
    if ds != [] {
      RenamedExpr(ds[0].init, ren, img);
      RenamedDecls(ds[1..], ren, img);
      assert RenameDecls(ds, ren)[1..] == RenameDecls(ds[1..], ren);
    }
  }

  lemma {:induction false} RenamedStmts(ss: seq<Stmt>, ren: Renaming, img: set<Name>)
    requires Inlineable(ss)
    requires forall n | n in Mentions(ss) :: RenameName(n, ren) in img
    ensures var rs := RenameStmts(ss, ren);
            Inlineable(rs) && Mentions(rs) <= img && CalleesIn(rs) == CalleesIn(ss)
    decreases ss, 0
  {
    if ss != [] {
      RenamedStmt(ss[0], ren, img);
      RenamedStmts(ss[1..], ren, img);
      assert RenameStmts(ss, ren)[1..] == RenameStmts(ss[1..], ren);
    }
  }

  lemma {:induction false} RenamedStmt(s: Stmt, ren: Renaming, img: set<Name>)
    requires InlineableStmt(s)
    requires forall n | n in StmtMentions(s) :: RenameName(n, ren) in img
    ensures var r := RenameStmt(s, ren);
            InlineableStmt(r) && StmtMentions(r) <= img && StmtCallees(r) == StmtCallees(s)
    decreases s, 1
  {
    match s
    case Decl(ds) => RenamedDecls(ds, ren, img);
    case Assign(_, e) => RenamedExpr(e, ren, img);
    case OpAssign(_, _, e) => RenamedExpr(e, ren, img);
    case Update(_, _) =>
    case Eff(e) => RenamedExpr(e, ren, img);
    case If(c, thn, els) =>
      RenamedExpr(c, ren, img);
      RenamedStmts(thn, ren, img);
      RenamedStmts(els, ren, img);
    case Return(None) =>
    case Return(Some(e)) => RenamedExpr(e, ren, img);
    case Throw(e) => RenamedExpr(e, ren, img);
  }

  lemma {:induction false} RenamedDeclNames(ds: seq<Declarator>, ren: Renaming, img: set<Name>)
    requires forall n | n in DeclNames(ds) :: RenameName(n, ren) in img
    ensures DeclNames(RenameDecls(ds, ren)) <= img
  {
    if ds != [] {
      RenamedDeclNames(ds[1..], ren, img);
      assert RenameDecls(ds, ren)[1..] == RenameDecls(ds[1..], ren);
    }
  }

  lemma {:induction false} RenamedWrites(ss: seq<Stmt>, ren: Renaming, img: set<Name>)
    requires Inlineable(ss)
    requires forall n | n in Writes(ss) :: RenameName(n, ren) in img
    ensures Writes(RenameStmts(ss, ren)) <= img
    decreases ss, 0
  {
    if ss != [] {
      RenamedStmtWrites(ss[0], ren, img);
      RenamedWrites(ss[1..], ren, img);
      assert RenameStmts(ss, ren)[1..] == RenameStmts(ss[1..], ren);
    }
  }

  lemma {:induction false} RenamedStmtWrites(s: Stmt, ren: Renaming, img: set<Name>)
    requires InlineableStmt(s)
    requires forall n | n in StmtWrites(s) :: RenameName(n, ren) in img
    ensures StmtWrites(RenameStmt(s, ren)) <= img
    decreases s, 1
  {
    match s
    case Decl(ds) => RenamedDeclNames(ds, ren, img);
    case If(_, thn, els) => RenamedWrites(thn, ren, img); RenamedWrites(els, ren, img);
    case Return(None) =>
    case Return(Some(_)) =>
    case _ =>
  }
}
