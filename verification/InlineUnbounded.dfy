/** Expansion under any cap, or none: it ends by itself because every call weighs more than
    the body it is replaced by. */
module InlineUnbounded {
  import opened Arith
  import opened Sauce
  import opened SauceNames
  import opened Inline
  import opened InlineRecursion
  import opened InlineDepth

  // ----- how many expansions a piece of code can take -----

  /** For each inline function, what one call of it can take in all. */
  type Weights = map<Ident, nat>

  function Cost(e: Expr, w: Weights): nat
    decreases e, 0
  {
    match e
    case Lit(_) => 0
    case Var(_) => 0
    case Un(_, a) => Cost(a, w)
    case Bin(_, l, r) => Cost(l, w) + Cost(r, w)
    case Logic(_, l, r) => Cost(l, w) + Cost(r, w)
    case Cond(c, t, f) => Cost(c, w) + Cost(t, w) + Cost(f, w)
    case Call(f, args) => (if f in w then w[f] else 0) + ArgCost(args, w)
  }

  function ArgCost(args: seq<Expr>, w: Weights): nat
    decreases args, 0
  {
    if args == [] then 0 else Cost(args[0], w) + ArgCost(args[1..], w)
  }

  function DeclCost(ds: seq<Declarator>, w: Weights): nat {
    if ds == [] then 0 else Cost(ds[0].init, w) + DeclCost(ds[1..], w)
  }

  function ListCost(ss: seq<Stmt>, w: Weights): nat
    decreases ss, 0
  {
    if ss == [] then 0 else StmtCost(ss[0], w) + ListCost(ss[1..], w)
  }

  function StmtCost(s: Stmt, w: Weights): nat
    decreases s, 1
  {
    match s
    case Decl(ds) => DeclCost(ds, w)
    case Assign(_, e) => Cost(e, w)
    case OpAssign(_, _, e) => Cost(e, w)
    case Eff(e) => Cost(e, w)
    case If(c, thn, els) => Cost(c, w) + ListCost(thn, w) + ListCost(els, w)
    case While(c, body) => Cost(c, w) + ListCost(body, w)
    case For(init, c, step, body) => ListCost(init, w) + Cost(c, w) + ListCost(step, w) + ListCost(body, w)
    case Return(Some(e)) => Cost(e, w)
    case Throw(e) => Cost(e, w)
    case _ => 0
  }

  /** A call weighs more than the body that replaces it. */
  ghost predicate Weighed(w: Weights, m: InlineMap) {
    forall f | f in m :: Heavier(f, w, m)
  }

  predicate Heavier(f: Ident, w: Weights, m: InlineMap)
    requires f in m
  {
    f in w && w[f] > ListCost(m[f].body, w)
  }

  /** The weights of the first `n` functions of an order in which each calls only earlier ones. */
  function WeightsUpTo(order: seq<Ident>, n: nat, m: InlineMap): Weights
    requires n <= |order|
  {
    if n == 0 then map[]
    else
      var w := WeightsUpTo(order, n - 1, m);
      if order[n - 1] in m then w[order[n - 1] := 1 + ListCost(m[order[n - 1]].body, w)] else w
  }

  function WeightsOf(order: seq<Ident>, m: InlineMap): Weights {
    WeightsUpTo(order, |order|, m)
  }

  // ----- weights do not look at names, and look only at what is called -----

  lemma {:induction false} RenameCost(e: Expr, ren: Renaming, w: Weights)
    ensures Cost(RenameExpr(e, ren), w) == Cost(e, w)
    decreases e, 0
  {
    match e
    case Un(_, a) => RenameCost(a, ren, w);
    case Bin(_, l, r) => RenameCost(l, ren, w); RenameCost(r, ren, w);
    case Logic(_, l, r) => RenameCost(l, ren, w); RenameCost(r, ren, w);
    case Cond(c, t, f) => RenameCost(c, ren, w); RenameCost(t, ren, w); RenameCost(f, ren, w);
    case Call(_, args) => RenameArgCost(args, ren, w);
    case _ =>
  }

  lemma {:induction false} RenameArgCost(args: seq<Expr>, ren: Renaming, w: Weights)
    ensures ArgCost(RenameArgs(args, ren), w) == ArgCost(args, w)
    decreases args, 0
  {
    if args != [] {
      RenameCost(args[0], ren, w);
      RenameArgCost(args[1..], ren, w);
    }
  }

  lemma {:induction false} RenameDeclCost(ds: seq<Declarator>, ren: Renaming, w: Weights)
    ensures DeclCost(RenameDecls(ds, ren), w) == DeclCost(ds, w)
  {
    if ds != [] {
      RenameCost(ds[0].init, ren, w);
      RenameDeclCost(ds[1..], ren, w);
    }
  }

  lemma {:induction false} RenameListCost(ss: seq<Stmt>, ren: Renaming, w: Weights)
    ensures ListCost(RenameStmts(ss, ren), w) == ListCost(ss, w)
    decreases ss, 0
  {
    if ss != [] {
      RenameStmtCost(ss[0], ren, w);
      RenameListCost(ss[1..], ren, w);
    }
  }

  lemma {:induction false} RenameStmtCost(s: Stmt, ren: Renaming, w: Weights)
    ensures StmtCost(RenameStmt(s, ren), w) == StmtCost(s, w)
    decreases s, 1
  {
    match s
    case Decl(ds) => RenameDeclCost(ds, ren, w);
    case Assign(_, e) => RenameCost(e, ren, w);
    case OpAssign(_, _, e) => RenameCost(e, ren, w);
    case Eff(e) => RenameCost(e, ren, w);
    case If(c, thn, els) => RenameCost(c, ren, w); RenameListCost(thn, ren, w); RenameListCost(els, ren, w);
    case Return(Some(e)) => RenameCost(e, ren, w);
    case Throw(e) => RenameCost(e, ren, w);
    case _ =>
  }

  ghost predicate AgreeOn(w: Weights, v: Weights, names: set<Ident>) {
    forall f | f in names :: (f in w <==> f in v) && (f in w ==> w[f] == v[f])
  }

  lemma {:induction false} SameCost(e: Expr, w: Weights, v: Weights)
    requires AgreeOn(w, v, Callees(e))
    ensures Cost(e, w) == Cost(e, v)
    decreases e, 0
  {
    match e
    case Un(_, a) => SameCost(a, w, v);
    case Bin(_, l, r) => SameCost(l, w, v); SameCost(r, w, v);
    case Logic(_, l, r) => SameCost(l, w, v); SameCost(r, w, v);
    case Cond(c, t, f) => SameCost(c, w, v); SameCost(t, w, v); SameCost(f, w, v);
    case Call(f, args) => assert f in Callees(e); SameArgCost(args, w, v);
    case _ =>
  }

  lemma {:induction false} SameArgCost(args: seq<Expr>, w: Weights, v: Weights)
    requires AgreeOn(w, v, ArgCallees(args))
    ensures ArgCost(args, w) == ArgCost(args, v)
    decreases args, 0
  {
    if args != [] {
      SameCost(args[0], w, v);
      SameArgCost(args[1..], w, v);
    }
  }

  lemma {:induction false} SameDeclCost(ds: seq<Declarator>, w: Weights, v: Weights)
    requires AgreeOn(w, v, DeclCallees(ds))
    ensures DeclCost(ds, w) == DeclCost(ds, v)
  {
    if ds != [] {
      SameCost(ds[0].init, w, v);
      SameDeclCost(ds[1..], w, v);
    }
  }

  lemma {:induction false} SameListCost(ss: seq<Stmt>, w: Weights, v: Weights)
    requires AgreeOn(w, v, CalleesIn(ss))
    ensures ListCost(ss, w) == ListCost(ss, v)
    decreases ss, 0
  {
    if ss != [] {
      SameStmtCost(ss[0], w, v);
      SameListCost(ss[1..], w, v);
    }
  }

  lemma {:induction false} SameStmtCost(s: Stmt, w: Weights, v: Weights)
    requires AgreeOn(w, v, StmtCallees(s))
    ensures StmtCost(s, w) == StmtCost(s, v)
    decreases s, 1
  {
    match s
    case Decl(ds) => SameDeclCost(ds, w, v);
    case Assign(_, e) => SameCost(e, w, v);
    case OpAssign(_, _, e) => SameCost(e, w, v);
    case Eff(e) => SameCost(e, w, v);
    case If(c, thn, els) => SameCost(c, w, v); SameListCost(thn, w, v); SameListCost(els, w, v);
    case While(c, body) => SameCost(c, w, v); SameListCost(body, w, v);
    case For(init, c, step, body) =>
      SameListCost(init, w, v);
      SameCost(c, w, v);
      SameListCost(step, w, v);
      SameListCost(body, w, v);
    case Return(Some(e)) => SameCost(e, w, v);
    case Throw(e) => SameCost(e, w, v);
    case _ =>
  }

  /** What a function weighs when its turn comes is what it weighs ever after. */
  lemma {:induction false} WeightSettles(order: seq<Ident>, i: nat, n: nat, m: InlineMap)
    requires i < n <= |order| && NoRepeats(order) && order[i] in m
    ensures order[i] in WeightsUpTo(order, n, m)
    ensures WeightsUpTo(order, n, m)[order[i]] == 1 + ListCost(m[order[i]].body, WeightsUpTo(order, i, m))
  {
    if i < n - 1 {
      WeightSettles(order, i, n - 1, m);
      assert order[i] != order[n - 1];
    }
  }

  /** An accepted program has weights. */
  lemma AcceptedIsWeighed(order: seq<Ident>, ctx: Ctx)
    requires Ordered(order, ctx)
    ensures Weighed(WeightsOf(order, ctx.fns), ctx.fns)
  {
    forall f | f in ctx.fns
      ensures Heavier(f, WeightsOf(order, ctx.fns), ctx.fns)
    {
      OneWeighed(order, f, ctx);
    }
  }

  lemma OneWeighed(order: seq<Ident>, f: Ident, ctx: Ctx)
    requires Ordered(order, ctx) && f in ctx.fns
    ensures Heavier(f, WeightsOf(order, ctx.fns), ctx.fns)
  {
    var m, i := ctx.fns, Rank(order, f);
    var w, at := WeightsOf(order, m), WeightsUpTo(order, i, m);
    WeightSettles(order, i, |order|, m);
    assert AgreeOn(at, w, CalleesIn(m[f].body)) by {
      forall g | g in CalleesIn(m[f].body) && g in m
        ensures g in at && g in w && at[g] == w[g]
      {
        WeightSettles(order, Rank(order, g), i, m);
        WeightSettles(order, Rank(order, g), |order|, m);
      }
      OnlyInline(order, i, m);
      OnlyInline(order, |order|, m);
    }
    SameListCost(m[f].body, at, w);
  }

  lemma {:induction false} OnlyInline(order: seq<Ident>, n: nat, m: InlineMap)
    requires n <= |order|
    ensures WeightsUpTo(order, n, m).Keys <= m.Keys
  {
    if n > 0 {
      OnlyInline(order, n - 1, m);
    }
  }

  // ----- expansion, with or without a cap -----

  /** The weights are there only to show that it ends. */
  ghost function Hoist(e: Expr, m: InlineMap, w: Weights, cap: Option<nat>, id: nat): (r: Result<Hoisted<Expr>>)
    requires Weighed(w, m)
    ensures r.Ok? ==> id <= r.value.next <= id + Cost(e, w)
    ensures r.Err? && r.error.TooManyExpansions? ==> cap.Some?
    decreases Cost(e, w), 1, e, 0
  {
    match e
    case Lit(_) => Ok(Hoisted([], e, id))
    case Var(_) => Ok(Hoisted([], e, id))
    case Un(op, e1) =>
      var h :- Hoist(e1, m, w, cap, id);
      Ok(Hoisted(h.pre, Un(op, h.rest), h.next))
    case Bin(op, l, r) =>
      var hl :- Hoist(l, m, w, cap, id);
      var hr :- Hoist(r, m, w, cap, hl.next);
      Ok(Hoisted(hl.pre + hr.pre, Bin(op, hl.rest, hr.rest), hr.next))
    case Logic(isAnd, l, r) =>
      var hl :- Hoist(l, m, w, cap, id);
      if HasCall(r, m) then Err(ShortCircuitCall)
      else Ok(Hoisted(hl.pre, Logic(isAnd, hl.rest, r), hl.next))
    case Cond(c, t, f) =>
      var hc :- Hoist(c, m, w, cap, id);
      if HasCall(t, m) || HasCall(f, m) then Err(TernaryCall)
      else Ok(Hoisted(hc.pre, Cond(hc.rest, t, f), hc.next))
    case Call(callee, args) =>
      var ha :- HoistAll(args, m, w, cap, id);
      if callee in m then
        var x :- Expand(callee, ha.rest, true, m, w, cap, ha.next);
        Ok(Hoisted(ha.pre + x.pre, Var(ResultOf(ha.next)), x.next))
      else Ok(Hoisted(ha.pre, Call(callee, ha.rest), ha.next))
  }

  ghost function HoistAll(args: seq<Expr>, m: InlineMap, w: Weights, cap: Option<nat>, id: nat)
    : (r: Result<Hoisted<seq<Expr>>>)
    requires Weighed(w, m)
    ensures r.Ok? ==> id <= r.value.next <= id + ArgCost(args, w) && |r.value.rest| == |args|
    ensures r.Err? && r.error.TooManyExpansions? ==> cap.Some?
    decreases ArgCost(args, w), 1, args, 0
  {
    if args == [] then Ok(Hoisted([], [], id))
    else
      var h :- Hoist(args[0], m, w, cap, id);
      var hs :- HoistAll(args[1..], m, w, cap, h.next);
      Ok(Hoisted(h.pre + hs.pre, [h.rest] + hs.rest, hs.next))
  }

  ghost function Expand(f: Ident, args: seq<Expr>, used: bool, m: InlineMap, w: Weights, cap: Option<nat>, id: nat)
    : (r: Result<Hoisted<()>>)
    requires Weighed(w, m) && f in m
    ensures r.Ok? ==> id <= r.value.next <= id + w[f]
    ensures r.Err? && r.error.TooManyExpansions? ==> cap.Some?
    decreases w[f], 0
  {
    var fn := m[f];
    if |args| != |fn.params| then Err(WrongArity(f))
    else if used && !AlwaysTerminates(fn.body) then Err(MayFallThrough(f))
    else if cap.Some? && id >= cap.value then Err(TooManyExpansions(f))
    else
      RenameListCost(fn.body, RenameMap(fn, id), w);
      assert Heavier(f, w, m);
      var b :- Remove(RenameStmts(fn.body, RenameMap(fn, id)), m, w, cap, id, id + 1);
      Ok(Hoisted(BindArgs(fn.params, args, id) + InitFlags(id) + b.pre, (), b.next))
  }

  /** Return elimination. */
  ghost function Remove(ss: seq<Stmt>, m: InlineMap, w: Weights, cap: Option<nat>, id: nat, next: nat)
    : (r: Result<Hoisted<()>>)
    requires Weighed(w, m)
    ensures r.Ok? ==> next <= r.value.next <= next + ListCost(ss, w)
    ensures r.Err? && r.error.TooManyExpansions? ==> cap.Some?
    decreases ListCost(ss, w), 1, ss, 0
  {
    if ss == [] then Ok(Hoisted([], (), next))
    else if ss[0].Return? then RemoveReturn(ss[0], m, w, cap, id, next)
    else if BranchReturns(ss[0]) then
      var h :- RemoveIf(ss[0], m, w, cap, id, next);
      var hr :- Remove(ss[1..], m, w, cap, id, h.next);
      Ok(Hoisted(h.pre + Guard(id, hr.pre), (), hr.next))
    else
      var h :- ExpandOne(ss[0], m, w, cap, next);
      var hr :- Remove(ss[1..], m, w, cap, id, h.next);
      Ok(Hoisted(h.pre + hr.pre, (), hr.next))
  }

  ghost function RemoveReturn(s: Stmt, m: InlineMap, w: Weights, cap: Option<nat>, id: nat, next: nat)
    : (r: Result<Hoisted<()>>)
    requires Weighed(w, m) && s.Return?
    ensures r.Ok? ==> next <= r.value.next <= next + StmtCost(s, w)
    ensures r.Err? && r.error.TooManyExpansions? ==> cap.Some?
    decreases StmtCost(s, w), 1, s, 1
  {
    match s.arg
    case None => Ok(Hoisted(SetDone(id), (), next))
    case Some(e) =>
      assert s == Return(Some(e));
      var h :- Hoist(e, m, w, cap, next);
      Ok(Hoisted(h.pre + SetResult(id, h.rest) + SetDone(id), (), h.next))
  }

  ghost function RemoveIf(s: Stmt, m: InlineMap, w: Weights, cap: Option<nat>, id: nat, next: nat)
    : (r: Result<Hoisted<()>>)
    requires Weighed(w, m) && s.If?
    ensures r.Ok? ==> next <= r.value.next <= next + StmtCost(s, w)
    ensures r.Err? && r.error.TooManyExpansions? ==> cap.Some?
    decreases StmtCost(s, w), 1, s, 1
  {
    var hc :- Hoist(s.c, m, w, cap, next);
    var ht :- Remove(s.thn, m, w, cap, id, hc.next);
    var he :- Remove(s.els, m, w, cap, id, ht.next);
    Ok(Hoisted(hc.pre + [If(hc.rest, ht.pre, he.pre)], (), he.next))
  }

  ghost function HoistInits(ds: seq<Declarator>, m: InlineMap, w: Weights, cap: Option<nat>, id: nat)
    : (r: Result<Hoisted<seq<Declarator>>>)
    requires Weighed(w, m)
    ensures r.Ok? ==> id <= r.value.next <= id + DeclCost(ds, w)
    ensures r.Err? && r.error.TooManyExpansions? ==> cap.Some?
    decreases DeclCost(ds, w), 1, ds, 0
  {
    if ds == [] then Ok(Hoisted([], [], id))
    else
      assert ds decreases to ds[0];
      var h :- Hoist(ds[0].init, m, w, cap, id);
      var hs :- HoistInits(ds[1..], m, w, cap, h.next);
      Ok(Hoisted(h.pre + hs.pre, [Declarator(ds[0].x, h.rest)] + hs.rest, hs.next))
  }

  /** What a statement's own expressions can take. */
  function OwnCost(s: Stmt, w: Weights): (c: nat)
    ensures c <= StmtCost(s, w)
  {
    match s
    case If(c, _, _) => Cost(c, w)
    case While(_, _) => 0
    case For(_, _, _, _) => 0
    case _ => StmtCost(s, w)
  }

  /** A call whose value is not used leaves no statement behind. */
  ghost function Discard(e: Expr, m: InlineMap, w: Weights, cap: Option<nat>, id: nat): (r: Result<Hoisted<seq<Stmt>>>)
    requires Weighed(w, m) && e.Call? && e.callee in m
    ensures r.Ok? ==> id <= r.value.next <= id + Cost(e, w)
    ensures r.Err? && r.error.TooManyExpansions? ==> cap.Some?
    decreases Cost(e, w), 1, e, 0
  {
    var ha :- HoistAll(e.args, m, w, cap, id);
    var x :- Expand(e.callee, ha.rest, false, m, w, cap, ha.next);
    Ok(Hoisted(ha.pre + x.pre, [], x.next))
  }

  ghost function HoistOwn(s: Stmt, m: InlineMap, w: Weights, cap: Option<nat>, id: nat): (r: Result<Hoisted<seq<Stmt>>>)
    requires Weighed(w, m)
    ensures r.Ok? ==> id <= r.value.next <= id + OwnCost(s, w)
    ensures r.Ok? && s.If? ==> |r.value.rest| == 1 && r.value.rest[0].If?
    ensures r.Err? && r.error.TooManyExpansions? ==> cap.Some?
    decreases StmtCost(s, w), 1, s, 0
  {
    match s
    case Decl(ds) =>
      var h :- HoistInits(ds, m, w, cap, id);
      Ok(Hoisted(h.pre, [Decl(h.rest)], h.next))
    case Assign(x, e) =>
      var h :- Hoist(e, m, w, cap, id);
      Ok(Hoisted(h.pre, [Assign(x, h.rest)], h.next))
    case OpAssign(x, op, e) =>
      var h :- Hoist(e, m, w, cap, id);
      Ok(Hoisted(h.pre, [OpAssign(x, op, h.rest)], h.next))
    case Update(_, _) => Ok(Hoisted([], [s], id))
    case Eff(e) =>
      if e.Call? && e.callee in m then Discard(e, m, w, cap, id)
      else
        var h :- Hoist(e, m, w, cap, id);
        Ok(Hoisted(h.pre, [Eff(h.rest)], h.next))
    case If(c, thn, els) =>
      var h :- Hoist(c, m, w, cap, id);
      Ok(Hoisted(h.pre, [If(h.rest, thn, els)], h.next))
    case While(c, _) =>
      if HasCall(c, m) then Err(LoopHeaderCall) else Ok(Hoisted([], [s], id))
    case For(init, c, step, _) =>
      if !(CalleesIn(init) !! m.Keys) || HasCall(c, m) || !(CalleesIn(step) !! m.Keys) then Err(LoopHeaderCall)
      else Ok(Hoisted([], [s], id))
    case Return(None) => Ok(Hoisted([], [s], id))
    case Return(Some(e)) =>
      var h :- Hoist(e, m, w, cap, id);
      Ok(Hoisted(h.pre, [Return(Some(h.rest))], h.next))
    case Throw(e) =>
      var h :- Hoist(e, m, w, cap, id);
      Ok(Hoisted(h.pre, [Throw(h.rest)], h.next))
    case Break => Ok(Hoisted([], [s], id))
    case Continue => Ok(Hoisted([], [s], id))
  }

  ghost function ExpandOne(s: Stmt, m: InlineMap, w: Weights, cap: Option<nat>, id: nat): (r: Result<Hoisted<()>>)
    requires Weighed(w, m)
    ensures r.Ok? ==> id <= r.value.next <= id + StmtCost(s, w)
    ensures r.Err? && r.error.TooManyExpansions? ==> cap.Some?
    decreases StmtCost(s, w), 1, s, 3
  {
    var h :- HoistOwn(s, m, w, cap, id);
    ExpandNested(s, h, m, w, cap)
  }

  /** The statement lists inside `s`, whose own expressions are already hoisted. */
  ghost function ExpandNested(s: Stmt, h: Hoisted<seq<Stmt>>, m: InlineMap, w: Weights, cap: Option<nat>)
    : (r: Result<Hoisted<()>>)
    requires Weighed(w, m) && (s.If? ==> |h.rest| == 1 && h.rest[0].If?)
    ensures r.Ok? ==> h.next <= r.value.next <= h.next + (StmtCost(s, w) - OwnCost(s, w))
    ensures r.Err? && r.error.TooManyExpansions? ==> cap.Some?
    decreases StmtCost(s, w), 1, s, 2
  {
    match s
    case If(_, thn, els) =>
      var ht :- ExpandAll(thn, m, w, cap, h.next);
      var he :- ExpandAll(els, m, w, cap, ht.next);
      Ok(Hoisted(h.pre + [If(h.rest[0].c, ht.pre, he.pre)], (), he.next))
    case While(c, body) =>
      var hb :- ExpandAll(body, m, w, cap, h.next);
      Ok(Hoisted(h.pre + [While(c, hb.pre)], (), hb.next))
    case For(init, c, step, body) =>
      var hb :- ExpandAll(body, m, w, cap, h.next);
      Ok(Hoisted(h.pre + [For(init, c, step, hb.pre)], (), hb.next))
    case _ => Ok(Hoisted(h.pre + h.rest, (), h.next))
  }

  /** Caller-mode expansion of a statement list. */
  ghost function ExpandAll(ss: seq<Stmt>, m: InlineMap, w: Weights, cap: Option<nat>, id: nat): (r: Result<Hoisted<()>>)
    requires Weighed(w, m)
    ensures r.Ok? ==> id <= r.value.next <= id + ListCost(ss, w)
    ensures r.Err? && r.error.TooManyExpansions? ==> cap.Some?
    decreases ListCost(ss, w), 1, ss, 0
  {
    if ss == [] then Ok(Hoisted([], (), id))
    else
      var h :- ExpandOne(ss[0], m, w, cap, id);
      var hs :- ExpandAll(ss[1..], m, w, cap, h.next);
      Ok(Hoisted(h.pre + hs.pre, (), hs.next))
  }
}
