/** When expansion succeeds: exactly where calls stand in the places, and bodies have the shape,
    that the compiler asks for. */
module InlineAccepts {
  import opened Arith
  import opened Sauce
  import opened SauceNames
  import opened Inline
  import opened InlineShape
  import opened InlineDepth
  import opened InlineCap

  // ----- bodies that cannot be fallen through -----

  /** Somewhere in the list stands a `return`, a `throw`, or an `if` both sides of which stop. */
  ghost predicate Stops(ss: seq<Stmt>)
    decreases ss, 1
  {
    exists i | 0 <= i < |ss| :: StopsHere(ss, i)
  }

  ghost predicate StopsHere(ss: seq<Stmt>, i: nat)
    requires i < |ss|
    decreases ss, 0
  {
    assert ss decreases to ss[i];
    ss[i].Return? || ss[i].Throw? || (ss[i].If? && Stops(ss[i].thn) && Stops(ss[i].els))
  }

  /** The check made when a call's value is used accepts exactly these. */
  lemma {:induction false} TerminatesExactly(ss: seq<Stmt>)
    ensures AlwaysTerminates(ss) <==> Stops(ss)
  {
    if ss != [] {
      TerminatesExactly(ss[1..]);
      if ss[0].If? {
        TerminatesExactly(ss[0].thn);
        TerminatesExactly(ss[0].els);
      }
      StopsCons(ss);
    }
  }

  lemma WhereStops(ss: seq<Stmt>) returns (i: nat)
    requires Stops(ss)
    ensures i < |ss| && StopsHere(ss, i)
  {
    i :| 0 <= i < |ss| && StopsHere(ss, i);
  }

  lemma StopsCons(ss: seq<Stmt>)
    requires ss != []
    ensures Stops(ss) <==> StopsHere(ss, 0) || Stops(ss[1..])
  {
    forall i | 1 <= i < |ss|
      ensures StopsHere(ss, i) <==> StopsHere(ss[1..], i - 1)
    {
      assert ss[i] == ss[1..][i - 1];
    }
    if Stops(ss[1..]) {
      var i := WhereStops(ss[1..]);
      assert StopsHere(ss, i + 1);
    }
  }

  // ----- bodies that may be inlined -----

  /** A statement of the list, or of a branch of an `if` in it, at any depth. */
  ghost predicate Within(x: Stmt, ss: seq<Stmt>)
    decreases ss, 1
  {
    exists i | 0 <= i < |ss| :: WithinHere(x, ss, i)
  }

  ghost predicate WithinHere(x: Stmt, ss: seq<Stmt>, i: nat)
    requires i < |ss|
    decreases ss, 0
  {
    assert ss decreases to ss[i];
    x == ss[i] || (ss[i].If? && (Within(x, ss[i].thn) || Within(x, ss[i].els)))
  }

  predicate LoopsOrJumps(x: Stmt) {
    x.While? || x.For? || x.Break? || x.Continue?
  }

  /** Validation rejects a body exactly for a loop or a jump somewhere in it. */
  lemma InlineableExactly(ss: seq<Stmt>)
    ensures Inlineable(ss) <==> forall x | Within(x, ss) :: !LoopsOrJumps(x)
  {
    if Inlineable(ss) {
      forall x | Within(x, ss)
        ensures !LoopsOrJumps(x)
      {
        NoJumpWithin(x, ss);
      }
    } else {
      var _ := JumpWithin(ss);
    }
  }

  lemma {:induction false} NoJumpWithin(x: Stmt, ss: seq<Stmt>)
    requires Inlineable(ss) && Within(x, ss)
    ensures !LoopsOrJumps(x)
    decreases ss
  {
    var i := WhereWithin(x, ss);
    assert ss decreases to ss[i];
    EachInlineable(ss, i);
    if x != ss[i] {
      if Within(x, ss[i].thn) {
        NoJumpWithin(x, ss[i].thn);
      } else {
        NoJumpWithin(x, ss[i].els);
      }
    }
  }

  lemma WhereWithin(x: Stmt, ss: seq<Stmt>) returns (i: nat)
    requires Within(x, ss)
    ensures i < |ss| && WithinHere(x, ss, i)
  {
    i :| 0 <= i < |ss| && WithinHere(x, ss, i);
  }

  lemma {:induction false} EachInlineable(ss: seq<Stmt>, i: nat)
    requires Inlineable(ss) && i < |ss|
    ensures InlineableStmt(ss[i])
  {
    if i > 0 {
      EachInlineable(ss[1..], i - 1);
    }
  }

  lemma {:induction false} JumpWithin(ss: seq<Stmt>) returns (x: Stmt)
    requires !Inlineable(ss)
    ensures Within(x, ss) && LoopsOrJumps(x)
  {
    x := ss[0];
    if InlineableStmt(ss[0]) {
      x := JumpWithin(ss[1..]);
      var i := WhereWithin(x, ss[1..]);
      assert ss[1..][i] == ss[i + 1];
      assert WithinHere(x, ss, i + 1);
    } else {
      if ss[0].If? {
        if !Inlineable(ss[0].thn) {
          x := JumpWithin(ss[0].thn);
        } else {
          x := JumpWithin(ss[0].els);
        }
      }
      assert WithinHere(x, ss, 0);
    }
  }

  // ----- where inline calls may stand -----

  /** The inline functions, and the complaints that count. */
  datatype Rules = Rules(m: InlineMap, counts: InlineError -> bool)

  /** An inline call has as many arguments as its function has parameters, and its value is used
      only if the body stops. */
  predicate CallFits(f: Ident, args: seq<Expr>, used: bool, k: Rules) {
    f in k.m ==>
      && (k.counts(WrongArity(f)) ==> |args| == |k.m[f].params|)
      && (k.counts(MayFallThrough(f)) && used ==> AlwaysTerminates(k.m[f].body))
  }

  /** No inline call to the right of `&&` or `||`, nor on a side of a ternary. */
  predicate Fits(e: Expr, k: Rules)
    decreases e, 0
  {
    match e
    case Lit(_) => true
    case Var(_) => true
    case Un(_, a) => Fits(a, k)
    case Bin(_, l, r) => Fits(l, k) && Fits(r, k)
    case Logic(_, l, r) => Fits(l, k) && (k.counts(ShortCircuitCall) ==> Callees(r) !! k.m.Keys)
    case Cond(c, t, f) => Fits(c, k) && (k.counts(TernaryCall) ==> Callees(t) !! k.m.Keys && Callees(f) !! k.m.Keys)
    case Call(f, args) => ArgsFit(args, k) && CallFits(f, args, true, k)
  }

  predicate ArgsFit(args: seq<Expr>, k: Rules)
    decreases args, 0
  {
    args == [] || (Fits(args[0], k) && ArgsFit(args[1..], k))
  }

  predicate DeclsFit(ds: seq<Declarator>, k: Rules) {
    ds == [] || (Fits(ds[0].init, k) && DeclsFit(ds[1..], k))
  }

  predicate ListFits(ss: seq<Stmt>, k: Rules)
    decreases ss, 0
  {
    ss == [] || (StmtFits(ss[0], k) && ListFits(ss[1..], k))
  }

  /** Nor in a loop's header; a call whose value is dropped may fall through. */
  predicate StmtFits(s: Stmt, k: Rules)
    decreases s, 1
  {
    OwnFits(s, k) &&
    (match s
     case If(_, thn, els) => ListFits(thn, k) && ListFits(els, k)
     case While(_, body) => ListFits(body, k)
     case For(_, _, _, body) => ListFits(body, k)
     case _ => true)
  }

  predicate OwnFits(s: Stmt, k: Rules) {
    match s
    case Decl(ds) => DeclsFit(ds, k)
    case Assign(_, e) => Fits(e, k)
    case OpAssign(_, _, e) => Fits(e, k)
    case Update(_, _) => true
    case Eff(e) =>
      if e.Call? && e.callee in k.m then ArgsFit(e.args, k) && CallFits(e.callee, e.args, false, k) else Fits(e, k)
    case If(c, _, _) => Fits(c, k)
    case While(c, _) => k.counts(LoopHeaderCall) ==> Callees(c) !! k.m.Keys
    case For(init, c, step, _) =>
      k.counts(LoopHeaderCall) ==> CalleesIn(init) !! k.m.Keys && Callees(c) !! k.m.Keys && CalleesIn(step) !! k.m.Keys
    case Return(None) => true
    case Return(Some(e)) => Fits(e, k)
    case Throw(e) => Fits(e, k)
    case Break => true
    case Continue => true
  }

  /** An inline body, as far as its first `return`: what follows is dropped unread. */
  predicate BodyFits(ss: seq<Stmt>, k: Rules) {
    if ss == [] then true
    else if ss[0].Return? then OwnFits(ss[0], k)
    else if BranchReturns(ss[0]) then
      Fits(ss[0].c, k) && BodyFits(ss[0].thn, k) && BodyFits(ss[0].els, k) && BodyFits(ss[1..], k)
    else StmtFits(ss[0], k) && BodyFits(ss[1..], k)
  }

  /** The cap is a complaint about no place in particular. */
  ghost predicate CapAside(k: Rules) {
    forall f :: !k.counts(TooManyExpansions(f))
  }

  ghost predicate BodiesFit(k: Rules) {
    forall f | f in k.m :: BodyFits(k.m[f].body, k)
  }

  // ----- renaming changes none of this -----

  lemma {:induction false} RenamedFits(e: Expr, ren: Renaming, k: Rules)
    ensures Fits(RenameExpr(e, ren), k) <==> Fits(e, k)
    decreases e, 0
  {
    match e
    case Un(_, a) => RenamedFits(a, ren, k);
    case Bin(_, l, r) => RenamedFits(l, ren, k); RenamedFits(r, ren, k);
    case Logic(_, l, r) => RenamedFits(l, ren, k); CalleesRenamed(r, ren);
    case Cond(c, t, f) => RenamedFits(c, ren, k); CalleesRenamed(t, ren); CalleesRenamed(f, ren);
    case Call(_, args) => RenamedArgsFit(args, ren, k);
    case _ =>
  }

  lemma {:induction false} RenamedArgsFit(args: seq<Expr>, ren: Renaming, k: Rules)
    ensures ArgsFit(RenameArgs(args, ren), k) <==> ArgsFit(args, k)
    decreases args, 0
  {
    if args != [] {
      RenamedFits(args[0], ren, k);
      RenamedArgsFit(args[1..], ren, k);
      assert RenameArgs(args, ren)[1..] == RenameArgs(args[1..], ren);
    }
  }

  lemma CalleesRenamed(e: Expr, ren: Renaming)
    ensures Callees(RenameExpr(e, ren)) == Callees(e)
  {
    RenamedExpr(e, ren, set n | n in Reads(e) :: RenameName(n, ren));
  }

  lemma {:induction false} RenamedDeclsFit(ds: seq<Declarator>, ren: Renaming, k: Rules)
    ensures DeclsFit(RenameDecls(ds, ren), k) <==> DeclsFit(ds, k)
  {
    if ds != [] {
      RenamedFits(ds[0].init, ren, k);
      RenamedDeclsFit(ds[1..], ren, k);
      assert RenameDecls(ds, ren)[1..] == RenameDecls(ds[1..], ren);
    }
  }

  lemma {:induction false} RenamedReturns(ss: seq<Stmt>, ren: Renaming)
    ensures ContainsReturn(RenameStmts(ss, ren)) <==> ContainsReturn(ss)
    decreases ss, 0
  {
    if ss != [] {
      RenamedStmtReturns(ss[0], ren);
      RenamedReturns(ss[1..], ren);
      assert RenameStmts(ss, ren)[1..] == RenameStmts(ss[1..], ren);
    }
  }

  lemma {:induction false} RenamedStmtReturns(s: Stmt, ren: Renaming)
    ensures StmtContainsReturn(RenameStmt(s, ren)) <==> StmtContainsReturn(s)
    decreases s, 1
  {
    if s.If? {
      RenamedReturns(s.thn, ren);
      RenamedReturns(s.els, ren);
    }
  }

  lemma {:induction false} RenamedListFits(ss: seq<Stmt>, ren: Renaming, k: Rules)
    ensures ListFits(RenameStmts(ss, ren), k) <==> ListFits(ss, k)
    decreases ss, 0
  {
    if ss != [] {
      RenamedStmtFits(ss[0], ren, k);
      RenamedListFits(ss[1..], ren, k);
      assert RenameStmts(ss, ren)[1..] == RenameStmts(ss[1..], ren);
    }
  }

  lemma {:induction false} RenamedOwnFits(s: Stmt, ren: Renaming, k: Rules)
    ensures OwnFits(RenameStmt(s, ren), k) <==> OwnFits(s, k)
  {
    match s
    case Decl(ds) => RenamedDeclsFit(ds, ren, k);
    case Assign(_, e) => RenamedFits(e, ren, k);
    case OpAssign(_, _, e) => RenamedFits(e, ren, k);
    case Eff(e) =>
      RenamedFits(e, ren, k);
      if e.Call? {
        RenamedArgsFit(e.args, ren, k);
      }
    case If(c, _, _) => RenamedFits(c, ren, k);
    case Return(Some(e)) => RenamedFits(e, ren, k);
    case Throw(e) => RenamedFits(e, ren, k);
    case _ =>
  }

  lemma {:induction false} RenamedStmtFits(s: Stmt, ren: Renaming, k: Rules)
    ensures StmtFits(RenameStmt(s, ren), k) <==> StmtFits(s, k)
    decreases s, 1
  {
    RenamedOwnFits(s, ren, k);
    if s.If? {
      RenamedListFits(s.thn, ren, k);
      RenamedListFits(s.els, ren, k);
    }
  }

  lemma {:induction false} RenamedBodyFits(ss: seq<Stmt>, ren: Renaming, k: Rules)
    ensures BodyFits(RenameStmts(ss, ren), k) <==> BodyFits(ss, k)
  {
    if ss != [] {
      var out := RenameStmts(ss, ren);
      assert out[0] == RenameStmt(ss[0], ren) && out[1..] == RenameStmts(ss[1..], ren);
      RenamedOwnFits(ss[0], ren, k);
      RenamedStmtFits(ss[0], ren, k);
      RenamedBodyFits(ss[1..], ren, k);
      if ss[0].If? {
        RenamedReturns(ss[0].thn, ren);
        RenamedReturns(ss[0].els, ren);
        RenamedFits(ss[0].c, ren, k);
        RenamedBodyFits(ss[0].thn, ren, k);
        RenamedBodyFits(ss[0].els, ren, k);
      }
    }
  }

  // ----- expansion succeeds just there -----

  /** Done, or stopped by something that does not count. */
  predicate Spared<T>(r: Result<T>, k: Rules) {
    r.Ok? || !k.counts(r.error)
  }

  lemma {:induction false} HoistAccepts(e: Expr, k: Rules, id: nat)
    requires BodiesFit(k) && CapAside(k) && id <= MAX_INLINE_EXPANSIONS
    ensures Fits(e, k) ==> Spared(HoistExpr(e, k.m, id), k)
    ensures HoistExpr(e, k.m, id).Ok? ==> Fits(e, k)
    decreases MAX_INLINE_EXPANSIONS - id, 1, e, 0
  {
    match e
    case Un(_, a) => HoistAccepts(a, k, id);
    case Bin(_, l, r) =>
      HoistAccepts(l, k, id);
      var hl := HoistExpr(l, k.m, id);
      if hl.Ok? {
        HoistAccepts(r, k, hl.value.next);
      }
    case Logic(_, l, r) => HoistAccepts(l, k, id);
    case Cond(c, _, _) => HoistAccepts(c, k, id);
    case Call(f, args) =>
      HoistArgsAccepts(args, k, id);
      var ha := HoistArgs(args, k.m, id);
      if ha.Ok? && f in k.m {
        CallAccepts(f, ha.value.rest, true, k, ha.value.next);
      }
    case _ =>
  }

  lemma {:induction false} HoistArgsAccepts(args: seq<Expr>, k: Rules, id: nat)
    requires BodiesFit(k) && CapAside(k) && id <= MAX_INLINE_EXPANSIONS
    ensures ArgsFit(args, k) ==> Spared(HoistArgs(args, k.m, id), k)
    ensures HoistArgs(args, k.m, id).Ok? ==> ArgsFit(args, k)
    decreases MAX_INLINE_EXPANSIONS - id, 1, args, 0
  {
    if args != [] {
      HoistAccepts(args[0], k, id);
      var h := HoistExpr(args[0], k.m, id);
      if h.Ok? {
        HoistArgsAccepts(args[1..], k, h.value.next);
      }
    }
  }

  lemma {:induction false} CallAccepts(f: Ident, args: seq<Expr>, used: bool, k: Rules, id: nat)
    requires BodiesFit(k) && CapAside(k) && f in k.m && id <= MAX_INLINE_EXPANSIONS
    ensures CallFits(f, args, used, k) ==> Spared(ExpandCall(f, args, used, k.m, id), k)
    ensures ExpandCall(f, args, used, k.m, id).Ok? ==> CallFits(f, args, used, k)
    decreases MAX_INLINE_EXPANSIONS - id, 0
  {
    if CallFits(f, args, used, k) && id < MAX_INLINE_EXPANSIONS {
      RenamedBodyFits(k.m[f].body, RenameMap(k.m[f], id), k);
      EliminateAccepts(RenameStmts(k.m[f].body, RenameMap(k.m[f], id)), k, id, id + 1);
    }
  }

  lemma {:induction false} EliminateAccepts(ss: seq<Stmt>, k: Rules, id: nat, next: nat)
    requires BodiesFit(k) && CapAside(k) && next <= MAX_INLINE_EXPANSIONS
    ensures BodyFits(ss, k) ==> Spared(Eliminate(ss, k.m, id, next), k)
    ensures Eliminate(ss, k.m, id, next).Ok? ==> BodyFits(ss, k)
    decreases MAX_INLINE_EXPANSIONS - next, 1, ss, 0
  {
    if ss != [] {
      if ss[0].Return? {
        ReturnAccepts(ss[0], k, id, next);
      } else if BranchReturns(ss[0]) {
        IfAccepts(ss[0], k, id, next);
        var h := EliminateIf(ss[0], k.m, id, next);
        if h.Ok? {
          EliminateAccepts(ss[1..], k, id, h.value.next);
        }
      } else {
        StmtAccepts(ss[0], k, next);
        var h := ExpandStmt(ss[0], k.m, next);
        if h.Ok? {
          EliminateAccepts(ss[1..], k, id, h.value.next);
        }
      }
    }
  }

  lemma {:induction false} ReturnAccepts(s: Stmt, k: Rules, id: nat, next: nat)
    requires BodiesFit(k) && CapAside(k) && next <= MAX_INLINE_EXPANSIONS && s.Return?
    ensures OwnFits(s, k) ==> Spared(EliminateReturn(s, k.m, id, next), k)
    ensures EliminateReturn(s, k.m, id, next).Ok? ==> OwnFits(s, k)
    decreases MAX_INLINE_EXPANSIONS - next, 1, s, 1
  {
    if s.arg.Some? {
      assert s == Return(Some(s.arg.value));
      HoistAccepts(s.arg.value, k, next);
    }
  }

  lemma {:induction false} IfAccepts(s: Stmt, k: Rules, id: nat, next: nat)
    requires BodiesFit(k) && CapAside(k) && next <= MAX_INLINE_EXPANSIONS && s.If?
    ensures Fits(s.c, k) && BodyFits(s.thn, k) && BodyFits(s.els, k) ==> Spared(EliminateIf(s, k.m, id, next), k)
    ensures EliminateIf(s, k.m, id, next).Ok? ==> Fits(s.c, k) && BodyFits(s.thn, k) && BodyFits(s.els, k)
    decreases MAX_INLINE_EXPANSIONS - next, 1, s, 1
  {
    HoistAccepts(s.c, k, next);
    var hc := HoistExpr(s.c, k.m, next);
    if hc.Ok? {
      EliminateAccepts(s.thn, k, id, hc.value.next);
      var ht := Eliminate(s.thn, k.m, id, hc.value.next);
      if ht.Ok? {
        EliminateAccepts(s.els, k, id, ht.value.next);
      }
    }
  }

  lemma {:induction false} DeclsAccept(ds: seq<Declarator>, k: Rules, id: nat)
    requires BodiesFit(k) && CapAside(k) && id <= MAX_INLINE_EXPANSIONS
    ensures DeclsFit(ds, k) ==> Spared(HoistDecls(ds, k.m, id), k)
    ensures HoistDecls(ds, k.m, id).Ok? ==> DeclsFit(ds, k)
    decreases MAX_INLINE_EXPANSIONS - id, 1, ds, 0
  {
    if ds != [] {
      assert ds decreases to ds[0];
      HoistAccepts(ds[0].init, k, id);
      var h := HoistExpr(ds[0].init, k.m, id);
      if h.Ok? {
        DeclsAccept(ds[1..], k, h.value.next);
      }
    }
  }

  lemma {:induction false} OwnAccepts(s: Stmt, k: Rules, id: nat)
    requires BodiesFit(k) && CapAside(k) && id <= MAX_INLINE_EXPANSIONS
    ensures OwnFits(s, k) ==> Spared(HoistStmt(s, k.m, id), k)
    ensures HoistStmt(s, k.m, id).Ok? ==> OwnFits(s, k)
    decreases MAX_INLINE_EXPANSIONS - id, 1, s, 0
  {
    match s
    case Decl(ds) => DeclsAccept(ds, k, id);
    case Assign(_, e) => HoistAccepts(e, k, id);
    case OpAssign(_, _, e) => HoistAccepts(e, k, id);
    case Eff(e) =>
      if e.Call? && e.callee in k.m {
        HoistArgsAccepts(e.args, k, id);
        var ha := HoistArgs(e.args, k.m, id);
        if ha.Ok? {
          CallAccepts(e.callee, ha.value.rest, false, k, ha.value.next);
        }
      } else {
        HoistAccepts(e, k, id);
      }
    case If(c, _, _) => HoistAccepts(c, k, id);
    case Return(Some(e)) => HoistAccepts(e, k, id);
    case Throw(e) => HoistAccepts(e, k, id);
    case _ =>
  }

  lemma {:induction false} StmtAccepts(s: Stmt, k: Rules, id: nat)
    requires BodiesFit(k) && CapAside(k) && id <= MAX_INLINE_EXPANSIONS
    ensures StmtFits(s, k) ==> Spared(ExpandStmt(s, k.m, id), k)
    ensures ExpandStmt(s, k.m, id).Ok? ==> StmtFits(s, k)
    decreases MAX_INLINE_EXPANSIONS - id, 1, s, 1
  {
    OwnAccepts(s, k, id);
    var h := HoistStmt(s, k.m, id);
    if h.Ok? {
      match s
      case If(_, thn, els) =>
        ListAccepts(thn, k, h.value.next);
        var ht := ExpandList(thn, k.m, h.value.next);
        if ht.Ok? {
          ListAccepts(els, k, ht.value.next);
        }
      case While(_, body) => ListAccepts(body, k, h.value.next);
      case For(_, _, _, body) => ListAccepts(body, k, h.value.next);
      case _ =>
    }
  }

  /** Given bodies that fit, a caller that fits is not complained of, and one that expands fits. */
  lemma {:induction false} ListAccepts(ss: seq<Stmt>, k: Rules, id: nat)
    requires BodiesFit(k) && CapAside(k) && id <= MAX_INLINE_EXPANSIONS
    ensures ListFits(ss, k) ==> Spared(ExpandList(ss, k.m, id), k)
    ensures ExpandList(ss, k.m, id).Ok? ==> ListFits(ss, k)
    decreases MAX_INLINE_EXPANSIONS - id, 1, ss, 0
  {
    if ss != [] {
      StmtAccepts(ss[0], k, id);
      var h := ExpandStmt(ss[0], k.m, id);
      if h.Ok? {
        ListAccepts(ss[1..], k, h.value.next);
      }
    }
  }

  /** Everything but the cap counts. */
  function AllRules(m: InlineMap): Rules {
    Rules(m, (e: InlineError) => !e.TooManyExpansions?)
  }

  /** Only this complaint counts. */
  function OneRule(m: InlineMap, e: InlineError): Rules {
    Rules(m, (x: InlineError) => x == e)
  }

  /** Below the bound the recursion check gives, the cap is never met: expansion succeeds exactly
      when the caller fits. */
  lemma ExpandsExactly(ss: seq<Stmt>, order: seq<Ident>, ctx: Ctx, id: nat)
    requires Ordered(order, ctx) && BodiesFit(AllRules(ctx.fns)) && id + Bound(ss, order, ctx.fns) <= MAX_INLINE_EXPANSIONS
    ensures ExpandList(ss, ctx.fns, id).Ok? <==> ListFits(ss, AllRules(ctx.fns))
  {
    CapIrrelevant(ss, order, ctx, MAX_INLINE_EXPANSIONS, id);
    ListAccepts(ss, AllRules(ctx.fns), id);
  }

  /** And what it fails with is deserved: the cap when the bound is past it, and any other
      complaint when the caller or some inline body has a place that does not fit for that very
      reason. */
  lemma ComplaintDeserved(ss: seq<Stmt>, order: seq<Ident>, ctx: Ctx, id: nat)
    requires Ordered(order, ctx) && id <= MAX_INLINE_EXPANSIONS && ExpandList(ss, ctx.fns, id).Err?
    ensures var e := ExpandList(ss, ctx.fns, id).error;
            if e.TooManyExpansions? then id + Bound(ss, order, ctx.fns) > MAX_INLINE_EXPANSIONS
            else !ListFits(ss, OneRule(ctx.fns, e)) || !BodiesFit(OneRule(ctx.fns, e))
  {
    var e := ExpandList(ss, ctx.fns, id).error;
    if e.TooManyExpansions? {
      if id + Bound(ss, order, ctx.fns) <= MAX_INLINE_EXPANSIONS {
        CapIrrelevant(ss, order, ctx, MAX_INLINE_EXPANSIONS, id);
      }
    } else if BodiesFit(OneRule(ctx.fns, e)) {
      ListAccepts(ss, OneRule(ctx.fns, e), id);
    }
  }
}
