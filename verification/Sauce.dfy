/** SauceScript after parsing: the statements and expressions the compiler accepts,
    and what running them means. Scope is flat across `if` and `while`; a `for` drops
    the names it created. Every value is an integer word. */
module Sauce {
  import opened Arith

  type Ident = string

  /** Source names, and the four families of names expansion invents for call site `id`.
      The invented spellings start with `#`, which no source identifier can. */
  datatype Name =
    | User(s: Ident)
    | ParamOf(id: nat, s: Ident)
    | LocalOf(id: nat, s: Ident)
    | ResultOf(id: nat)
    | DoneOf(id: nat)

  datatype Expr =
    | Lit(v: int)
    | Var(x: Name)
    | Un(op: UnOp, e: Expr)
    | Bin(bop: BinOp, l: Expr, r: Expr)
    | Logic(isAnd: bool, l: Expr, r: Expr)
    | Cond(c: Expr, t: Expr, f: Expr)
    | Call(callee: Ident, args: seq<Expr>)

  datatype Declarator = Declarator(x: Name, init: Expr)

  datatype Stmt =
    | Decl(ds: seq<Declarator>)
    | Assign(x: Name, e: Expr)
    | OpAssign(x: Name, bop: BinOp, e: Expr)
    | Update(x: Name, up: bool)
    | Eff(e: Expr)
    | If(c: Expr, thn: seq<Stmt>, els: seq<Stmt>)
    | While(c: Expr, body: seq<Stmt>)
    | For(init: seq<Stmt>, c: Expr, step: seq<Stmt>, body: seq<Stmt>)
    | Return(arg: Option<Expr>)
    | Throw(e: Expr)
    | Break
    | Continue

  datatype Fn = Fn(params: seq<Ident>, body: seq<Stmt>)

  datatype Event = Event(callee: Ident, args: seq<int>, reply: int)
  type Trace = seq<Event>
  type Vars = map<Name, int>

  /** What a run depends on: the declared functions, the top-level constants, the total
      meaning of each operator, and the outside world, whose answer to a call may depend
      on every earlier call. `None` from the world is a revert. */
  datatype Ctx = Ctx(
    fns: map<Ident, Fn>,
    consts: Vars,
    un: (UnOp, int) -> int,
    bin: (BinOp, int, int) -> int,
    world: (Ident, seq<int>, Trace) -> Option<int>,
    limit: nat)

  /** Stuck: a local read before it is assigned, a wrong argument count, or the depth
      budget spent. A revert undoes its effects, so Thrown carries no trace. */
  datatype EvalResult = Val(v: int, tr: Trace) | EThrown | EStuck
  datatype ArgsResult = Vals(vs: seq<int>, tr: Trace) | AThrown | AStuck
  datatype Outcome =
    | Normal(vars: Vars, tr: Trace)
    | Broke(vars: Vars, tr: Trace)
    | Continued(vars: Vars, tr: Trace)
    | Returned(v: int, vars: Vars, tr: Trace)
    | Thrown
    | Diverged
    | Stuck

  // ----- names -----

  function DeclaredBy(ds: seq<Declarator>): set<Name> {
    set d | d in ds :: d.x
  }

  function StmtLexical(s: Stmt): set<Name>
    decreases s, 0
  {
    match s
    case Decl(ds) => DeclaredBy(ds)
    case If(_, thn, els) => Lexical(thn) + Lexical(els)
    case While(_, body) => Lexical(body)
    case For(init, _, step, body) => Lexical(init) + Lexical(step) + Lexical(body)
    case _ => {}
  }

  /** Every name declared anywhere in a statement list. */
  function Lexical(ss: seq<Stmt>): set<Name>
    decreases ss, 1
  {
    if ss == [] then {} else StmtLexical(ss[0]) + Lexical(ss[1..])
  }

  function UserNames(ids: seq<Ident>): set<Name> {
    set p | p in ids :: User(p)
  }

  function Scope(fn: Fn): set<Name> {
    UserNames(fn.params) + Lexical(fn.body)
  }

  // ----- running -----

  function Bind(params: seq<Ident>, vs: seq<int>): Vars
    requires |params| == |vs|
  {
    if params == [] then map[]
    else Bind(params[..|params| - 1], vs[..|vs| - 1])[User(params[|params| - 1]) := vs[|vs| - 1]]
  }

  /** `k` holds the constants that no name of the running function hides. */
  function Eval(e: Expr, vars: Vars, k: Vars, tr: Trace, ctx: Ctx, depth: nat): EvalResult
    decreases depth, 1, e, 0, 0, 0
  {
    match e
    case Lit(v) => Val(v, tr)
    case Var(x) => if x in vars then Val(vars[x], tr) else if x in k then Val(k[x], tr) else EStuck
    case Un(op, e1) =>
      (match Eval(e1, vars, k, tr, ctx, depth)
       case Val(v, tr1) => Val(ctx.un(op, v), tr1)
       case r => r)
    case Bin(op, l, r) =>
      (match Eval(l, vars, k, tr, ctx, depth)
       case Val(v1, tr1) =>
         (match Eval(r, vars, k, tr1, ctx, depth)
          case Val(v2, tr2) => Val(ctx.bin(op, v1, v2), tr2)
          case r2 => r2)
       case r1 => r1)
    case Logic(isAnd, l, r) =>
      (match Eval(l, vars, k, tr, ctx, depth)
       case Val(v1, tr1) =>
         if isAnd == (v1 == 0) then Val(Bool(!isAnd), tr1)
         else
           (match Eval(r, vars, k, tr1, ctx, depth)
            case Val(v2, tr2) => Val(Bool(v2 != 0), tr2)
            case r2 => r2)
       case r1 => r1)
    case Cond(c, t, f) =>
      (match Eval(c, vars, k, tr, ctx, depth)
       case Val(v, tr1) => Eval(if v != 0 then t else f, vars, k, tr1, ctx, depth)
       case r => r)
    case Call(callee, args) =>
      match EvalArgs(args, vars, k, tr, ctx, depth)
      case AThrown => EThrown
      case AStuck => EStuck
      case Vals(vs, tr1) => Invoke(callee, vs, tr1, ctx, depth)
  }

  function EvalArgs(args: seq<Expr>, vars: Vars, k: Vars, tr: Trace, ctx: Ctx, depth: nat): (r: ArgsResult)
    ensures r.Vals? ==> |r.vs| == |args|
    decreases depth, 1, args, 0, 0, 0
  {
    if args == [] then Vals([], tr)
    else
      match Eval(args[0], vars, k, tr, ctx, depth)
      case EThrown => AThrown
      case EStuck => AStuck
      case Val(v, tr1) =>
        match EvalArgs(args[1..], vars, k, tr1, ctx, depth)
        case Vals(vs, tr2) => Vals([v] + vs, tr2)
        case r => r
  }

  /** A declared function runs in a fresh frame; any other name is asked of the world.
      Falling off the end, like a bare `return`, leaves the zero word. */
  function Invoke(callee: Ident, vs: seq<int>, tr: Trace, ctx: Ctx, depth: nat): EvalResult
    decreases depth, 0
  {
    if callee !in ctx.fns then
      match ctx.world(callee, vs, tr)
      case None => EThrown
      case Some(v) => Val(v, tr + [Event(callee, vs, v)])
    else
      var fn := ctx.fns[callee];
      if depth == 0 || |vs| != |fn.params| then EStuck
      else CallResult(Exec(fn.body, Bind(fn.params, vs), ctx.consts - Scope(fn), tr, ctx, depth - 1))
  }

  function CallResult(o: Outcome): EvalResult {
    match o
    case Normal(_, tr) => Val(0, tr)
    case Returned(v, _, tr) => Val(v, tr)
    case Thrown => EThrown
    case _ => EStuck
  }

  function FromEval(r: EvalResult): Outcome {
    if r.EThrown? then Thrown else Stuck
  }

  function ExecDecls(ds: seq<Declarator>, vars: Vars, k: Vars, tr: Trace, ctx: Ctx, depth: nat): Outcome
    decreases depth, 1, ds, 0, 0, 0
  {
    if ds == [] then Normal(vars, tr)
    else
      assert ds decreases to ds[0];
      match Eval(ds[0].init, vars, k, tr, ctx, depth)
      case Val(v, tr1) => ExecDecls(ds[1..], vars[ds[0].x := v], k, tr1, ctx, depth)
      case r => FromEval(r)
  }

  function Exec(ss: seq<Stmt>, vars: Vars, k: Vars, tr: Trace, ctx: Ctx, depth: nat): Outcome
    decreases depth, 1, ss, 0, 0, 0
  {
    if ss == [] then Normal(vars, tr)
    else
      match ExecStmt(ss[0], vars, k, tr, ctx, depth)
      case Normal(vars1, tr1) => Exec(ss[1..], vars1, k, tr1, ctx, depth)
      case o => o
  }

  function ExecStmt(s: Stmt, vars: Vars, k: Vars, tr: Trace, ctx: Ctx, depth: nat): Outcome
    decreases depth, 1, s, 1, 0, 0
  {
    match s
    case Decl(ds) => ExecDecls(ds, vars, k, tr, ctx, depth)
    case Assign(x, e) =>
      (match Eval(e, vars, k, tr, ctx, depth)
       case Val(v, tr1) => if x in vars then Normal(vars[x := v], tr1) else Stuck
       case r => FromEval(r))
    case OpAssign(x, op, e) =>
      (match Eval(e, vars, k, tr, ctx, depth)
       case Val(v, tr1) => if x in vars then Normal(vars[x := ctx.bin(op, vars[x], v)], tr1) else Stuck
       case r => FromEval(r))
    case Update(x, up) =>
      if x in vars then Normal(vars[x := ctx.bin(if up then Add else Sub, vars[x], 1)], tr) else Stuck
    case Eff(e) =>
      (match Eval(e, vars, k, tr, ctx, depth)
       case Val(_, tr1) => Normal(vars, tr1)
       case r => FromEval(r))
    case If(c, thn, els) =>
      (match Eval(c, vars, k, tr, ctx, depth)
       case Val(v, tr1) =>
         if v != 0 then Exec(thn, vars, k, tr1, ctx, depth) else Exec(els, vars, k, tr1, ctx, depth)
       case r => FromEval(r))
    case While(_, _) => ExecLoop(s, vars, k, tr, ctx, depth, ctx.limit)
    case For(init, _, _, _) =>
      (match Exec(init, vars, k, tr, ctx, depth)
       case Normal(vars1, tr1) => CloseScope(vars, ExecLoop(s, vars1, k, tr1, ctx, depth, ctx.limit))
       case o => CloseScope(vars, o))
    case Return(None) => Returned(0, vars, tr)
    case Return(Some(e)) =>
      (match Eval(e, vars, k, tr, ctx, depth)
       case Val(v, tr1) => Returned(v, vars, tr1)
       case r => FromEval(r))
    case Throw(e) =>
      (match Eval(e, vars, k, tr, ctx, depth)
       case Val(_, _) => Thrown
       case r => FromEval(r))
    case Break => Broke(vars, tr)
    case Continue => Continued(vars, tr)
  }

  function StepOf(s: Stmt): seq<Stmt> {
    if s.For? then s.step else []
  }

  /** At most `n` more iterations; a loop still wanting to run then diverges. */
  function ExecLoop(s: Stmt, vars: Vars, k: Vars, tr: Trace, ctx: Ctx, depth: nat, n: nat): Outcome
    requires s.While? || s.For?
    decreases depth, 1, s, 0, n, 0
  {
    match Eval(s.c, vars, k, tr, ctx, depth)
    case EThrown => Thrown
    case EStuck => Stuck
    case Val(v, tr1) =>
      if v == 0 then Normal(vars, tr1)
      else if n == 0 then Diverged
      else
        match Exec(s.body, vars, k, tr1, ctx, depth)
        case Broke(vars2, tr2) => Normal(vars2, tr2)
        case Normal(vars2, tr2) => ExecNext(s, vars2, k, tr2, ctx, depth, n)
        case Continued(vars2, tr2) => ExecNext(s, vars2, k, tr2, ctx, depth, n)
        case o => o
  }

  function ExecNext(s: Stmt, vars: Vars, k: Vars, tr: Trace, ctx: Ctx, depth: nat, n: nat): Outcome
    requires (s.While? || s.For?) && n > 0
    decreases depth, 1, s, 0, n - 1, 1
  {
    match if s.For? then Exec(s.step, vars, k, tr, ctx, depth) else Normal(vars, tr)
    case Normal(vars3, tr3) => ExecLoop(s, vars3, k, tr3, ctx, depth, n - 1)
    case o => o
  }

  /** Names a `for` created are gone after it. */
  function CloseScope(before: Vars, o: Outcome): Outcome {
    match o
    case Normal(vars, tr) => Normal(Keep(vars, before.Keys), tr)
    case Broke(vars, tr) => Broke(Keep(vars, before.Keys), tr)
    case Continued(vars, tr) => Continued(Keep(vars, before.Keys), tr)
    case Returned(v, vars, tr) => Returned(v, Keep(vars, before.Keys), tr)
    case _ => o
  }

  function Keep(vars: Vars, names: set<Name>): Vars {
    vars - (vars.Keys - names)
  }
}
