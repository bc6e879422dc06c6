/** Expansion of inline (arrow-const) functions: calls are hoisted out of expressions,
    the callee's body is renamed apart and its returns become a result and a done flag. */
module Inline {
  import opened Arith
  import opened Sauce
  import opened SauceNames

  const MAX_INLINE_EXPANSIONS: nat := 4096

  type InlineMap = map<Ident, Fn>

  datatype InlineError =
    | ShortCircuitCall
    | TernaryCall
    | LoopHeaderCall
    | WrongArity(f: Ident)
    | MayFallThrough(f: Ident)
    | TooManyExpansions(f: Ident)

  datatype Result<+T> = Ok(value: T) | Err(error: InlineError) {
    predicate IsFailure() { Err? }

    function PropagateFailure<U>(): Result<U>
      requires Err?
    {
      Err(error)
    }

    function Extract(): T
      requires Ok?
    {
      value
    }
  }

  /** Hoisted code, what is left in place of the original, and the next call-site id. */
  datatype Hoisted<+T> = Hoisted(pre: seq<Stmt>, rest: T, next: nat)

  predicate HasCall(e: Expr, m: InlineMap) {
    !(Callees(e) !! m.Keys)
  }

  // ----- validation -----

  /** The statement shapes an inline body may have; nothing that loops or jumps. */
  predicate Inlineable(ss: seq<Stmt>)
    decreases ss, 0
  {
    ss == [] || (InlineableStmt(ss[0]) && Inlineable(ss[1..]))
  }

  predicate InlineableStmt(s: Stmt)
    decreases s, 1
  {
    match s
    case If(_, thn, els) => Inlineable(thn) && Inlineable(els)
    case While(_, _) => false
    case For(_, _, _, _) => false
    case Break => false
    case Continue => false
    case _ => true
  }

  predicate ContainsReturn(ss: seq<Stmt>)
    decreases ss, 0
  {
    ss != [] && (StmtContainsReturn(ss[0]) || ContainsReturn(ss[1..]))
  }

  predicate StmtContainsReturn(s: Stmt)
    decreases s, 1
  {
    match s
    case Return(_) => true
    case If(_, thn, els) => ContainsReturn(thn) || ContainsReturn(els)
    case While(_, body) => ContainsReturn(body)
    case For(init, _, step, body) => ContainsReturn(init) || ContainsReturn(step) || ContainsReturn(body)
    case _ => false
  }

  /** An `if` without `else` has an empty alternate here, which never terminates. */
  predicate AlwaysTerminates(ss: seq<Stmt>)
    decreases ss, 0
  {
    ss != [] &&
    (match ss[0]
     case Return(_) => true
     case Throw(_) => true
     case If(_, thn, els) => (AlwaysTerminates(thn) && AlwaysTerminates(els)) || AlwaysTerminates(ss[1..])
     case _ => AlwaysTerminates(ss[1..]))
  }

  // ----- renaming -----

  type Renaming = map<Name, Name>

  function RenameMap(fn: Fn, id: nat): Renaming {
    map n | n in Scope(fn) && n.User? :: if n in UserNames(fn.params) then ParamOf(id, n.s) else LocalOf(id, n.s)
  }

  function RenameName(n: Name, ren: Renaming): Name {
    if n in ren then ren[n] else n
  }

  function RenameExpr(e: Expr, ren: Renaming): Expr
    decreases e, 0
  {
    match e
    case Lit(_) => e
    case Var(x) => Var(RenameName(x, ren))
    case Un(op, e1) => Un(op, RenameExpr(e1, ren))
    case Bin(op, l, r) => Bin(op, RenameExpr(l, ren), RenameExpr(r, ren))
    case Logic(isAnd, l, r) => Logic(isAnd, RenameExpr(l, ren), RenameExpr(r, ren))
    case Cond(c, t, f) => Cond(RenameExpr(c, ren), RenameExpr(t, ren), RenameExpr(f, ren))
    case Call(callee, args) => Call(callee, RenameArgs(args, ren))
  }

  function RenameArgs(args: seq<Expr>, ren: Renaming): (r: seq<Expr>)
    ensures |r| == |args|
    decreases args, 0
  {
    if args == [] then [] else [RenameExpr(args[0], ren)] + RenameArgs(args[1..], ren)
  }

  function RenameDecls(ds: seq<Declarator>, ren: Renaming): seq<Declarator> {
    if ds == [] then []
    else [Declarator(RenameName(ds[0].x, ren), RenameExpr(ds[0].init, ren))] + RenameDecls(ds[1..], ren)
  }

  function RenameStmts(ss: seq<Stmt>, ren: Renaming): seq<Stmt>
    decreases ss, 0
  {
    if ss == [] then [] else [RenameStmt(ss[0], ren)] + RenameStmts(ss[1..], ren)
  }

  /** Loops and jumps never reach here: validation rejects them first. */
  function RenameStmt(s: Stmt, ren: Renaming): Stmt
    decreases s, 1
  {
    match s
    case Decl(ds) => Decl(RenameDecls(ds, ren))
    case Assign(x, e) => Assign(RenameName(x, ren), RenameExpr(e, ren))
    case OpAssign(x, op, e) => OpAssign(RenameName(x, ren), op, RenameExpr(e, ren))
    case Update(x, up) => Update(RenameName(x, ren), up)
    case Eff(e) => Eff(RenameExpr(e, ren))
    case If(c, thn, els) => If(RenameExpr(c, ren), RenameStmts(thn, ren), RenameStmts(els, ren))
    case Return(None) => s
    case Return(Some(e)) => Return(Some(RenameExpr(e, ren)))
    case Throw(e) => Throw(RenameExpr(e, ren))
    case _ => s
  }

  // ----- expansion -----

  function HoistExpr(e: Expr, m: InlineMap, id: nat): (r: Result<Hoisted<Expr>>)
    requires id <= MAX_INLINE_EXPANSIONS
    ensures r.Ok? ==> id <= r.value.next <= MAX_INLINE_EXPANSIONS
    decreases MAX_INLINE_EXPANSIONS - id, 1, e, 0
  {
    match e
    case Lit(_) => Ok(Hoisted([], e, id))
    case Var(_) => Ok(Hoisted([], e, id))
    case Un(op, e1) =>
      var h :- HoistExpr(e1, m, id);
      Ok(Hoisted(h.pre, Un(op, h.rest), h.next))
    case Bin(op, l, r) =>
      var hl :- HoistExpr(l, m, id);
      var hr :- HoistExpr(r, m, hl.next);
      Ok(Hoisted(hl.pre + hr.pre, Bin(op, hl.rest, hr.rest), hr.next))
    case Logic(isAnd, l, r) =>
      var hl :- HoistExpr(l, m, id);
      if HasCall(r, m) then Err(ShortCircuitCall)
      else Ok(Hoisted(hl.pre, Logic(isAnd, hl.rest, r), hl.next))
    case Cond(c, t, f) =>
      var hc :- HoistExpr(c, m, id);
      if HasCall(t, m) || HasCall(f, m) then Err(TernaryCall)
      else Ok(Hoisted(hc.pre, Cond(hc.rest, t, f), hc.next))
    case Call(callee, args) =>
      var ha :- HoistArgs(args, m, id);
      if callee in m then
        var x :- ExpandCall(callee, ha.rest, true, m, ha.next);
        Ok(Hoisted(ha.pre + x.pre, Var(ResultOf(ha.next)), x.next))
      else Ok(Hoisted(ha.pre, Call(callee, ha.rest), ha.next))
  }

  function HoistArgs(args: seq<Expr>, m: InlineMap, id: nat): (r: Result<Hoisted<seq<Expr>>>)
    requires id <= MAX_INLINE_EXPANSIONS
    ensures r.Ok? ==> id <= r.value.next <= MAX_INLINE_EXPANSIONS && |r.value.rest| == |args|
    decreases MAX_INLINE_EXPANSIONS - id, 1, args, 0
  {
    if args == [] then Ok(Hoisted([], [], id))
    else
      var h :- HoistExpr(args[0], m, id);
      var hs :- HoistArgs(args[1..], m, h.next);
      Ok(Hoisted(h.pre + hs.pre, [h.rest] + hs.rest, hs.next))
  }

  function BindArgs(params: seq<Ident>, args: seq<Expr>, id: nat): seq<Stmt>
    requires |params| == |args|
  {
    if params == [] then []
    else
      BindArgs(params[..|params| - 1], args[..|args| - 1], id) +
      [Decl([Declarator(ParamOf(id, params[|params| - 1]), args[|args| - 1])])]
  }

  function InitFlags(id: nat): seq<Stmt> {
    [Decl([Declarator(ResultOf(id), Lit(0))]), Decl([Declarator(DoneOf(id), Lit(0))])]
  }

  /** The code of one call; its value is then in `ResultOf(id)`. */
  function ExpandCall(f: Ident, args: seq<Expr>, used: bool, m: InlineMap, id: nat): (r: Result<Hoisted<()>>)
    requires f in m && id <= MAX_INLINE_EXPANSIONS
    ensures r.Ok? ==> id < r.value.next <= MAX_INLINE_EXPANSIONS
    ensures r.Ok? ==> |args| == |m[f].params|
    decreases MAX_INLINE_EXPANSIONS - id, 0
  {
    var fn := m[f];
    if |args| != |fn.params| then Err(WrongArity(f))
    else if used && !AlwaysTerminates(fn.body) then Err(MayFallThrough(f))
    else if id >= MAX_INLINE_EXPANSIONS then Err(TooManyExpansions(f))
    else
      var b :- Eliminate(RenameStmts(fn.body, RenameMap(fn, id)), m, id, id + 1);
      Ok(Hoisted(BindArgs(fn.params, args, id) + InitFlags(id) + b.pre, (), b.next))
  }

  function SetResult(id: nat, e: Expr): seq<Stmt> {
    [Assign(ResultOf(id), e)]
  }

  function SetDone(id: nat): seq<Stmt> {
    [Assign(DoneOf(id), Lit(1))]
  }

  function Guard(id: nat, ss: seq<Stmt>): seq<Stmt> {
    if ss == [] then [] else [If(Bin(Eq, Var(DoneOf(id)), Lit(0)), ss, [])]
  }

  predicate BranchReturns(s: Stmt) {
    s.If? && (ContainsReturn(s.thn) || ContainsReturn(s.els))
  }

  /** Replaces returns by assignments to the result and done variables of call site `id`.
      What follows a return is dropped; what follows a branch that may have returned is
      guarded by the done flag. Validation has already rejected loops. */
  function Eliminate(ss: seq<Stmt>, m: InlineMap, id: nat, next: nat): (r: Result<Hoisted<()>>)
    requires next <= MAX_INLINE_EXPANSIONS
    ensures r.Ok? ==> next <= r.value.next <= MAX_INLINE_EXPANSIONS
    decreases MAX_INLINE_EXPANSIONS - next, 1, ss, 0
  {
    if ss == [] then Ok(Hoisted([], (), next))
    else if ss[0].Return? then EliminateReturn(ss[0], m, id, next)
    else if BranchReturns(ss[0]) then
      var h :- EliminateIf(ss[0], m, id, next);
      var hr :- Eliminate(ss[1..], m, id, h.next);
      Ok(Hoisted(h.pre + Guard(id, hr.pre), (), hr.next))
    else
      var h :- ExpandStmt(ss[0], m, next);
      var hr :- Eliminate(ss[1..], m, id, h.next);
      Ok(Hoisted(h.pre + hr.pre, (), hr.next))
  }

  function EliminateReturn(s: Stmt, m: InlineMap, id: nat, next: nat): (r: Result<Hoisted<()>>)
    requires next <= MAX_INLINE_EXPANSIONS && s.Return?
    ensures r.Ok? ==> next <= r.value.next <= MAX_INLINE_EXPANSIONS
    decreases MAX_INLINE_EXPANSIONS - next, 1, s, 1
  {
    match s.arg
    case None => Ok(Hoisted(SetDone(id), (), next))
    case Some(e) =>
      assert s == Return(Some(e));
      var h :- HoistExpr(e, m, next);
      Ok(Hoisted(h.pre + SetResult(id, h.rest) + SetDone(id), (), h.next))
  }

  function EliminateIf(s: Stmt, m: InlineMap, id: nat, next: nat): (r: Result<Hoisted<()>>)
    requires next <= MAX_INLINE_EXPANSIONS && s.If?
    ensures r.Ok? ==> next <= r.value.next <= MAX_INLINE_EXPANSIONS
    decreases MAX_INLINE_EXPANSIONS - next, 1, s, 1
  {
    var hc :- HoistExpr(s.c, m, next);
    var ht :- Eliminate(s.thn, m, id, hc.next);
    var he :- Eliminate(s.els, m, id, ht.next);
    Ok(Hoisted(hc.pre + [If(hc.rest, ht.pre, he.pre)], (), he.next))
  }

  function HoistDecls(ds: seq<Declarator>, m: InlineMap, id: nat): (r: Result<Hoisted<seq<Declarator>>>)
    requires id <= MAX_INLINE_EXPANSIONS
    ensures r.Ok? ==> id <= r.value.next <= MAX_INLINE_EXPANSIONS
    decreases MAX_INLINE_EXPANSIONS - id, 1, ds, 0
  {
    if ds == [] then Ok(Hoisted([], [], id))
    else
      assert ds decreases to ds[0];
      var h :- HoistExpr(ds[0].init, m, id);
      var hs :- HoistDecls(ds[1..], m, h.next);
      Ok(Hoisted(h.pre + hs.pre, [Declarator(ds[0].x, h.rest)] + hs.rest, hs.next))
  }

  /** A statement's own expressions, not its nested lists. A discarded inline call leaves
      no statement behind. */
  function HoistStmt(s: Stmt, m: InlineMap, id: nat): (r: Result<Hoisted<seq<Stmt>>>)
    requires id <= MAX_INLINE_EXPANSIONS
    ensures r.Ok? ==> id <= r.value.next <= MAX_INLINE_EXPANSIONS
    decreases MAX_INLINE_EXPANSIONS - id, 1, s, 0
  {
    match s
    case Decl(ds) =>
      var h :- HoistDecls(ds, m, id);
      Ok(Hoisted(h.pre, [Decl(h.rest)], h.next))
    case Assign(x, e) =>
      var h :- HoistExpr(e, m, id);
      Ok(Hoisted(h.pre, [Assign(x, h.rest)], h.next))
    case OpAssign(x, op, e) =>
      var h :- HoistExpr(e, m, id);
      Ok(Hoisted(h.pre, [OpAssign(x, op, h.rest)], h.next))
    case Update(_, _) => Ok(Hoisted([], [s], id))
    case Eff(e) =>
      if e.Call? && e.callee in m then
        var ha :- HoistArgs(e.args, m, id);
        var x :- ExpandCall(e.callee, ha.rest, false, m, ha.next);
        Ok(Hoisted(ha.pre + x.pre, [], x.next))
      else
        var h :- HoistExpr(e, m, id);
        Ok(Hoisted(h.pre, [Eff(h.rest)], h.next))
    case If(c, thn, els) =>
      var h :- HoistExpr(c, m, id);
      Ok(Hoisted(h.pre, [If(h.rest, thn, els)], h.next))
    case While(c, _) =>
      if HasCall(c, m) then Err(LoopHeaderCall) else Ok(Hoisted([], [s], id))
    case For(init, c, step, _) =>
      if !(CalleesIn(init) !! m.Keys) || HasCall(c, m) || !(CalleesIn(step) !! m.Keys) then Err(LoopHeaderCall)
      else Ok(Hoisted([], [s], id))
    case Return(None) => Ok(Hoisted([], [s], id))
    case Return(Some(e)) =>
      var h :- HoistExpr(e, m, id);
      Ok(Hoisted(h.pre, [Return(Some(h.rest))], h.next))
    case Throw(e) =>
      var h :- HoistExpr(e, m, id);
      Ok(Hoisted(h.pre, [Throw(h.rest)], h.next))
    case Break => Ok(Hoisted([], [s], id))
    case Continue => Ok(Hoisted([], [s], id))
  }

  /** One statement of a caller, nested lists included. */
  function ExpandStmt(s: Stmt, m: InlineMap, id: nat): (r: Result<Hoisted<()>>)
    requires id <= MAX_INLINE_EXPANSIONS
    ensures r.Ok? ==> id <= r.value.next <= MAX_INLINE_EXPANSIONS
    decreases MAX_INLINE_EXPANSIONS - id, 1, s, 1
  {
    var h :- HoistStmt(s, m, id);
    match s
    case If(_, thn, els) =>
      var ht :- ExpandList(thn, m, h.next);
      var he :- ExpandList(els, m, ht.next);
      Ok(Hoisted(h.pre + [If(h.rest[0].c, ht.pre, he.pre)], (), he.next))
    case While(c, body) =>
      var hb :- ExpandList(body, m, h.next);
      Ok(Hoisted(h.pre + [While(c, hb.pre)], (), hb.next))
    case For(init, c, step, body) =>
      var hb :- ExpandList(body, m, h.next);
      Ok(Hoisted(h.pre + [For(init, c, step, hb.pre)], (), hb.next))
    case _ => Ok(Hoisted(h.pre + h.rest, (), h.next))
  }

  /** Caller-mode expansion of a statement list. */
  function ExpandList(ss: seq<Stmt>, m: InlineMap, id: nat): (r: Result<Hoisted<()>>)
    requires id <= MAX_INLINE_EXPANSIONS
    ensures r.Ok? ==> id <= r.value.next <= MAX_INLINE_EXPANSIONS
    decreases MAX_INLINE_EXPANSIONS - id, 1, ss, 0
  {
    if ss == [] then Ok(Hoisted([], (), id))
    else
      var h :- ExpandStmt(ss[0], m, id);
      var hs :- ExpandList(ss[1..], m, h.next);
      Ok(Hoisted(h.pre + hs.pre, (), hs.next))
  }
}
