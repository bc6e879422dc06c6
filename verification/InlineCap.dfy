/** The cap of 4096 is one cap among others, and no cap matters to a program that fits it. */
module InlineCap {
  import opened Arith
  import opened Sauce
  import opened Inline
  import opened InlineDepth
  import opened InlineUnbounded

  // ----- expansion as the compiler does it is expansion under its own cap -----

  lemma {:induction false} HoistCapped(e: Expr, m: InlineMap, w: Weights, id: nat)
    requires Weighed(w, m) && id <= MAX_INLINE_EXPANSIONS
    ensures HoistExpr(e, m, id) == Hoist(e, m, w, Some(MAX_INLINE_EXPANSIONS), id)
    decreases Cost(e, w), 1, e, 0
  {
    match e
    case Lit(_) =>
    case Var(_) =>
    case Un(_, a) => HoistCapped(a, m, w, id);
    case Bin(_, l, r) =>
      HoistCapped(l, m, w, id);
      var h := HoistExpr(l, m, id);
      if h.Ok? { HoistCapped(r, m, w, h.value.next); }
    case Logic(_, l, _) => HoistCapped(l, m, w, id);
    case Cond(c, _, _) => HoistCapped(c, m, w, id);
    case Call(f, args) =>
      HoistAllCapped(args, m, w, id);
      var h := HoistArgs(args, m, id);
      if h.Ok? && f in m { ExpandCapped(f, h.value.rest, true, m, w, h.value.next); }
  }

  lemma {:induction false} HoistAllCapped(args: seq<Expr>, m: InlineMap, w: Weights, id: nat)
    requires Weighed(w, m) && id <= MAX_INLINE_EXPANSIONS
    ensures HoistArgs(args, m, id) == HoistAll(args, m, w, Some(MAX_INLINE_EXPANSIONS), id)
    decreases ArgCost(args, w), 1, args, 0
  {
    if args != [] {
      HoistCapped(args[0], m, w, id);
      var h := HoistExpr(args[0], m, id);
      if h.Ok? { HoistAllCapped(args[1..], m, w, h.value.next); }
    }
  }

  lemma {:induction false} ExpandCapped(f: Ident, args: seq<Expr>, used: bool, m: InlineMap, w: Weights, id: nat)
    requires Weighed(w, m) && f in m && id <= MAX_INLINE_EXPANSIONS
    ensures ExpandCall(f, args, used, m, id) == Expand(f, args, used, m, w, Some(MAX_INLINE_EXPANSIONS), id)
    decreases w[f], 0
  {
    if id < MAX_INLINE_EXPANSIONS {
      RenameListCost(m[f].body, RenameMap(m[f], id), w);
      assert Heavier(f, w, m);
      RemoveCapped(RenameStmts(m[f].body, RenameMap(m[f], id)), m, w, id, id + 1);
    }
  }

  lemma {:induction false} RemoveCapped(ss: seq<Stmt>, m: InlineMap, w: Weights, id: nat, next: nat)
    requires Weighed(w, m) && next <= MAX_INLINE_EXPANSIONS
    ensures Eliminate(ss, m, id, next) == Remove(ss, m, w, Some(MAX_INLINE_EXPANSIONS), id, next)
    decreases ListCost(ss, w), 1, ss, 0
  {
    if ss != [] {
      if ss[0].Return? {
        RemoveReturnCapped(ss[0], m, w, id, next);
      } else if BranchReturns(ss[0]) {
        RemoveIfCapped(ss[0], m, w, id, next);
        var h := EliminateIf(ss[0], m, id, next);
        if h.Ok? { RemoveCapped(ss[1..], m, w, id, h.value.next); }
      } else {
        ExpandOneCapped(ss[0], m, w, next);
        var h := ExpandStmt(ss[0], m, next);
        if h.Ok? { RemoveCapped(ss[1..], m, w, id, h.value.next); }
      }
    }
  }

  lemma {:induction false} RemoveReturnCapped(s: Stmt, m: InlineMap, w: Weights, id: nat, next: nat)
    requires Weighed(w, m) && s.Return? && next <= MAX_INLINE_EXPANSIONS
    ensures EliminateReturn(s, m, id, next) == RemoveReturn(s, m, w, Some(MAX_INLINE_EXPANSIONS), id, next)
    decreases StmtCost(s, w), 1, s, 1
  {
    if s.arg.Some? {
      assert s == Return(Some(s.arg.value));
      HoistCapped(s.arg.value, m, w, next);
    }
  }

  lemma {:induction false} RemoveIfCapped(s: Stmt, m: InlineMap, w: Weights, id: nat, next: nat)
    requires Weighed(w, m) && s.If? && next <= MAX_INLINE_EXPANSIONS
    ensures EliminateIf(s, m, id, next) == RemoveIf(s, m, w, Some(MAX_INLINE_EXPANSIONS), id, next)
    decreases StmtCost(s, w), 1, s, 1
  {
    HoistCapped(s.c, m, w, next);
    var hc := HoistExpr(s.c, m, next);
    if hc.Ok? {
      RemoveCapped(s.thn, m, w, id, hc.value.next);
      var ht := Eliminate(s.thn, m, id, hc.value.next);
      if ht.Ok? { RemoveCapped(s.els, m, w, id, ht.value.next); }
    }
  }

  lemma {:induction false} HoistInitsCapped(ds: seq<Declarator>, m: InlineMap, w: Weights, id: nat)
    requires Weighed(w, m) && id <= MAX_INLINE_EXPANSIONS
    ensures HoistDecls(ds, m, id) == HoistInits(ds, m, w, Some(MAX_INLINE_EXPANSIONS), id)
    decreases DeclCost(ds, w), 1, ds, 0
  {
    if ds != [] {
      assert ds decreases to ds[0];
      HoistCapped(ds[0].init, m, w, id);
      var h := HoistExpr(ds[0].init, m, id);
      if h.Ok? { HoistInitsCapped(ds[1..], m, w, h.value.next); }
    }
  }

  lemma {:induction false} DiscardCapped(e: Expr, m: InlineMap, w: Weights, id: nat)
    requires Weighed(w, m) && id <= MAX_INLINE_EXPANSIONS && e.Call? && e.callee in m
    ensures HoistStmt(Eff(e), m, id) == Discard(e, m, w, Some(MAX_INLINE_EXPANSIONS), id)
    decreases Cost(e, w), 1, e, 0
  {
    HoistAllCapped(e.args, m, w, id);
    var h := HoistArgs(e.args, m, id);
    if h.Ok? { ExpandCapped(e.callee, h.value.rest, false, m, w, h.value.next); }
  }

  lemma {:induction false} HoistOwnCapped(s: Stmt, m: InlineMap, w: Weights, id: nat)
    requires Weighed(w, m) && id <= MAX_INLINE_EXPANSIONS
    ensures HoistStmt(s, m, id) == HoistOwn(s, m, w, Some(MAX_INLINE_EXPANSIONS), id)
    decreases StmtCost(s, w), 1, s, 0
  {
    match s
    case Decl(ds) => HoistInitsCapped(ds, m, w, id);
    case Assign(_, e) => HoistCapped(e, m, w, id);
    case OpAssign(_, _, e) => HoistCapped(e, m, w, id);
    case Eff(e) =>
      if e.Call? && e.callee in m { DiscardCapped(e, m, w, id); } else { HoistCapped(e, m, w, id); }
    case If(c, _, _) => HoistCapped(c, m, w, id);
    case Return(Some(e)) => HoistCapped(e, m, w, id);
    case Throw(e) => HoistCapped(e, m, w, id);
    case _ =>
  }

  /** What `ExpandStmt` does once a statement's own expressions are hoisted. */
  function Nested(s: Stmt, h: Hoisted<seq<Stmt>>, m: InlineMap): Result<Hoisted<()>>
    requires h.next <= MAX_INLINE_EXPANSIONS && (s.If? ==> |h.rest| == 1 && h.rest[0].If?)
  {
    match s
    case If(_, thn, els) =>
      var ht :- ExpandList(thn, m, h.next);
      var he :- ExpandList(els, m, ht.next);
      Ok(Hoisted(h.pre + [If(h.rest[0].c, ht.pre, he.pre)], (), he.next))
    case While(c, body) =>
      var hb :- ExpandList(body, m, h.next);
      Ok(Hoisted(h.pre + [While(c, hb.pre)], (), hb.next))
    case For(init, c, step, body) =>
      var hb :- ExpandList(body, m, h.next);
      Ok(Hoisted(h.pre + [For(init, c, step, hb.pre)], (), hb.next))
    case _ => Ok(Hoisted(h.pre + h.rest, (), h.next))
  }

  lemma {:induction false} ExpandOneCapped(s: Stmt, m: InlineMap, w: Weights, id: nat)
    requires Weighed(w, m) && id <= MAX_INLINE_EXPANSIONS
    ensures ExpandStmt(s, m, id) == ExpandOne(s, m, w, Some(MAX_INLINE_EXPANSIONS), id)
    decreases StmtCost(s, w), 1, s, 3
  {
    HoistOwnCapped(s, m, w, id);
    var h := HoistStmt(s, m, id);
    if h.Ok? { ExpandNestedCapped(s, h.value, m, w); }
  }

  lemma {:induction false} ExpandNestedCapped(s: Stmt, h: Hoisted<seq<Stmt>>, m: InlineMap, w: Weights)
    requires Weighed(w, m) && h.next <= MAX_INLINE_EXPANSIONS && (s.If? ==> |h.rest| == 1 && h.rest[0].If?)
    ensures Nested(s, h, m) == ExpandNested(s, h, m, w, Some(MAX_INLINE_EXPANSIONS))
    decreases StmtCost(s, w), 1, s, 2
  {
    match s
    case If(_, thn, els) =>
      ExpandAllCapped(thn, m, w, h.next);
      var ht := ExpandList(thn, m, h.next);
      if ht.Ok? { ExpandAllCapped(els, m, w, ht.value.next); }
    case While(_, body) => ExpandAllCapped(body, m, w, h.next);
    case For(_, _, _, body) => ExpandAllCapped(body, m, w, h.next);
    case _ =>
  }

  lemma {:induction false} ExpandAllCapped(ss: seq<Stmt>, m: InlineMap, w: Weights, id: nat)
    requires Weighed(w, m) && id <= MAX_INLINE_EXPANSIONS
    ensures ExpandList(ss, m, id) == ExpandAll(ss, m, w, Some(MAX_INLINE_EXPANSIONS), id)
    decreases ListCost(ss, w), 1, ss, 0
  {
    if ss != [] {
      ExpandOneCapped(ss[0], m, w, id);
      var h := ExpandStmt(ss[0], m, id);
      if h.Ok? { ExpandAllCapped(ss[1..], m, w, h.value.next); }
    }
  }

  // ----- and under a cap that is enough it is expansion without one -----

  lemma {:induction false} HoistFree(e: Expr, m: InlineMap, w: Weights, cap: nat, id: nat)
    requires Weighed(w, m) && id + Cost(e, w) <= cap
    ensures Hoist(e, m, w, Some(cap), id) == Hoist(e, m, w, None, id)
    decreases Cost(e, w), 1, e, 0
  {
    match e
    case Lit(_) =>
    case Var(_) =>
    case Un(_, a) => HoistFree(a, m, w, cap, id);
    case Bin(_, l, r) =>
      HoistFree(l, m, w, cap, id);
      var h := Hoist(l, m, w, None, id);
      if h.Ok? { HoistFree(r, m, w, cap, h.value.next); }
    case Logic(_, l, _) => HoistFree(l, m, w, cap, id);
    case Cond(c, _, _) => HoistFree(c, m, w, cap, id);
    case Call(f, args) =>
      HoistAllFree(args, m, w, cap, id);
      var h := HoistAll(args, m, w, None, id);
      if h.Ok? && f in m { ExpandFree(f, h.value.rest, true, m, w, cap, h.value.next); }
  }

  lemma {:induction false} HoistAllFree(args: seq<Expr>, m: InlineMap, w: Weights, cap: nat, id: nat)
    requires Weighed(w, m) && id + ArgCost(args, w) <= cap
    ensures HoistAll(args, m, w, Some(cap), id) == HoistAll(args, m, w, None, id)
    decreases ArgCost(args, w), 1, args, 0
  {
    if args != [] {
      HoistFree(args[0], m, w, cap, id);
      var h := Hoist(args[0], m, w, None, id);
      if h.Ok? { HoistAllFree(args[1..], m, w, cap, h.value.next); }
    }
  }

  lemma {:induction false} ExpandFree(f: Ident, args: seq<Expr>, used: bool, m: InlineMap, w: Weights, cap: nat, id: nat)
    requires Weighed(w, m) && f in m && id + w[f] <= cap
    ensures Expand(f, args, used, m, w, Some(cap), id) == Expand(f, args, used, m, w, None, id)
    decreases w[f], 0
  {
    assert Heavier(f, w, m);
    RenameListCost(m[f].body, RenameMap(m[f], id), w);
    RemoveFree(RenameStmts(m[f].body, RenameMap(m[f], id)), m, w, cap, id, id + 1);
  }

  lemma {:induction false} RemoveFree(ss: seq<Stmt>, m: InlineMap, w: Weights, cap: nat, id: nat, next: nat)
    requires Weighed(w, m) && next + ListCost(ss, w) <= cap
    ensures Remove(ss, m, w, Some(cap), id, next) == Remove(ss, m, w, None, id, next)
    decreases ListCost(ss, w), 1, ss, 0
  {
    if ss != [] {
      if ss[0].Return? {
        RemoveReturnFree(ss[0], m, w, cap, id, next);
      } else if BranchReturns(ss[0]) {
        RemoveIfFree(ss[0], m, w, cap, id, next);
        var h := RemoveIf(ss[0], m, w, None, id, next);
        if h.Ok? { RemoveFree(ss[1..], m, w, cap, id, h.value.next); }
      } else {
        ExpandOneFree(ss[0], m, w, cap, next);
        var h := ExpandOne(ss[0], m, w, None, next);
        if h.Ok? { RemoveFree(ss[1..], m, w, cap, id, h.value.next); }
      }
    }
  }

  lemma {:induction false} RemoveReturnFree(s: Stmt, m: InlineMap, w: Weights, cap: nat, id: nat, next: nat)
    requires Weighed(w, m) && s.Return? && next + StmtCost(s, w) <= cap
    ensures RemoveReturn(s, m, w, Some(cap), id, next) == RemoveReturn(s, m, w, None, id, next)
    decreases StmtCost(s, w), 1, s, 1
  {
    if s.arg.Some? {
      assert s == Return(Some(s.arg.value));
      HoistFree(s.arg.value, m, w, cap, next);
    }
  }

  lemma {:induction false} RemoveIfFree(s: Stmt, m: InlineMap, w: Weights, cap: nat, id: nat, next: nat)
    requires Weighed(w, m) && s.If? && next + StmtCost(s, w) <= cap
    ensures RemoveIf(s, m, w, Some(cap), id, next) == RemoveIf(s, m, w, None, id, next)
    decreases StmtCost(s, w), 1, s, 1
  {
    HoistFree(s.c, m, w, cap, next);
    var hc := Hoist(s.c, m, w, None, next);
    if hc.Ok? {
      RemoveFree(s.thn, m, w, cap, id, hc.value.next);
      var ht := Remove(s.thn, m, w, None, id, hc.value.next);
      if ht.Ok? { RemoveFree(s.els, m, w, cap, id, ht.value.next); }
    }
  }

  lemma {:induction false} HoistInitsFree(ds: seq<Declarator>, m: InlineMap, w: Weights, cap: nat, id: nat)
    requires Weighed(w, m) && id + DeclCost(ds, w) <= cap
    ensures HoistInits(ds, m, w, Some(cap), id) == HoistInits(ds, m, w, None, id)
    decreases DeclCost(ds, w), 1, ds, 0
  {
    if ds != [] {
      assert ds decreases to ds[0];
      HoistFree(ds[0].init, m, w, cap, id);
      var h := Hoist(ds[0].init, m, w, None, id);
      if h.Ok? { HoistInitsFree(ds[1..], m, w, cap, h.value.next); }
    }
  }

  lemma {:induction false} DiscardFree(e: Expr, m: InlineMap, w: Weights, cap: nat, id: nat)
    requires Weighed(w, m) && id + Cost(e, w) <= cap && e.Call? && e.callee in m
    ensures Discard(e, m, w, Some(cap), id) == Discard(e, m, w, None, id)
    decreases Cost(e, w), 1, e, 0
  {
    HoistAllFree(e.args, m, w, cap, id);
    var h := HoistAll(e.args, m, w, None, id);
    if h.Ok? { ExpandFree(e.callee, h.value.rest, false, m, w, cap, h.value.next); }
  }

  lemma {:induction false} HoistOwnFree(s: Stmt, m: InlineMap, w: Weights, cap: nat, id: nat)
    requires Weighed(w, m) && id + OwnCost(s, w) <= cap
    ensures HoistOwn(s, m, w, Some(cap), id) == HoistOwn(s, m, w, None, id)
    decreases StmtCost(s, w), 1, s, 0
  {
    match s
    case Decl(ds) => HoistInitsFree(ds, m, w, cap, id);
    case Assign(_, e) => HoistFree(e, m, w, cap, id);
    case OpAssign(_, _, e) => HoistFree(e, m, w, cap, id);
    case Eff(e) =>
      if e.Call? && e.callee in m { DiscardFree(e, m, w, cap, id); } else { HoistFree(e, m, w, cap, id); }
    case If(c, _, _) => HoistFree(c, m, w, cap, id);
    case Return(Some(e)) => HoistFree(e, m, w, cap, id);
    case Throw(e) => HoistFree(e, m, w, cap, id);
    case _ =>
  }

  lemma {:induction false} ExpandOneFree(s: Stmt, m: InlineMap, w: Weights, cap: nat, id: nat)
    requires Weighed(w, m) && id + StmtCost(s, w) <= cap
    ensures ExpandOne(s, m, w, Some(cap), id) == ExpandOne(s, m, w, None, id)
    decreases StmtCost(s, w), 1, s, 3
  {
    HoistOwnFree(s, m, w, cap, id);
    var h := HoistOwn(s, m, w, None, id);
    if h.Ok? { ExpandNestedFree(s, h.value, m, w, cap); }
  }

  lemma {:induction false} ExpandNestedFree(s: Stmt, h: Hoisted<seq<Stmt>>, m: InlineMap, w: Weights, cap: nat)
    requires Weighed(w, m) && (s.If? ==> |h.rest| == 1 && h.rest[0].If?)
    requires h.next + (StmtCost(s, w) - OwnCost(s, w)) <= cap
    ensures ExpandNested(s, h, m, w, Some(cap)) == ExpandNested(s, h, m, w, None)
    decreases StmtCost(s, w), 1, s, 2
  {
    match s
    case If(_, thn, els) =>
      ExpandAllFree(thn, m, w, cap, h.next);
      var ht := ExpandAll(thn, m, w, None, h.next);
      if ht.Ok? { ExpandAllFree(els, m, w, cap, ht.value.next); }
    case While(_, body) => ExpandAllFree(body, m, w, cap, h.next);
    case For(_, _, _, body) => ExpandAllFree(body, m, w, cap, h.next);
    case _ =>
  }

  lemma {:induction false} ExpandAllFree(ss: seq<Stmt>, m: InlineMap, w: Weights, cap: nat, id: nat)
    requires Weighed(w, m) && id + ListCost(ss, w) <= cap
    ensures ExpandAll(ss, m, w, Some(cap), id) == ExpandAll(ss, m, w, None, id)
    decreases ListCost(ss, w), 1, ss, 0
  {
    if ss != [] {
      ExpandOneFree(ss[0], m, w, cap, id);
      var h := ExpandOne(ss[0], m, w, None, id);
      if h.Ok? { ExpandAllFree(ss[1..], m, w, cap, h.value.next); }
    }
  }

  // ----- the theorem -----

  /** What expanding a caller can take at most: a number computed from the finishing order of
      the recursion check and the bodies. */
  function Bound(ss: seq<Stmt>, order: seq<Ident>, m: InlineMap): nat {
    ListCost(ss, WeightsOf(order, m))
  }

  /** For every accepted program expansion ends without any cap, and every cap from the bound
      up gives that same result, the compiler's own included: it never says "too many". */
  lemma CapIrrelevant(ss: seq<Stmt>, order: seq<Ident>, ctx: Ctx, cap: nat, id: nat)
    requires Ordered(order, ctx)
    ensures var w := WeightsOf(order, ctx.fns);
            && Weighed(w, ctx.fns)
            && var free := ExpandAll(ss, ctx.fns, w, None, id);
               && (free.Ok? ==> free.value.next <= id + Bound(ss, order, ctx.fns))
               && (free.Err? ==> !free.error.TooManyExpansions?)
               && (id + Bound(ss, order, ctx.fns) <= cap ==> ExpandAll(ss, ctx.fns, w, Some(cap), id) == free)
               && (id + Bound(ss, order, ctx.fns) <= MAX_INLINE_EXPANSIONS ==> ExpandList(ss, ctx.fns, id) == free)
  {
    var w := WeightsOf(order, ctx.fns);
    AcceptedIsWeighed(order, ctx);
    if id + Bound(ss, order, ctx.fns) <= cap {
      ExpandAllFree(ss, ctx.fns, w, cap, id);
    }
    if id + Bound(ss, order, ctx.fns) <= MAX_INLINE_EXPANSIONS {
      ExpandAllCapped(ss, ctx.fns, w, id);
      ExpandAllFree(ss, ctx.fns, w, MAX_INLINE_EXPANSIONS, id);
    }
  }
}
