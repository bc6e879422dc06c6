/** Which declared functions return a dynamic (heap) value: a flow-insensitive walk of each
    body, repeated until no function is newly found dynamic. */
module ReturnKind {
  import opened Arith

  type Ident = string

  datatype Kind = Scalar | Dynamic

  /** A contract is its methods, each with the kinds of its outputs. */
  type Contract = map<Ident, seq<Kind>>
  type Contracts = map<Ident, Contract>

  /** `generic` is what the context-free evaluator says of the expression. */
  datatype Expr =
    | Id(x: Ident)
    | Call(f: Ident)
    | Member(recv: Ident, m: Ident, generic: Kind)
    | Chain(contract: Ident, binding: Ident, oneAddress: bool, m: Ident, generic: Kind)
    | Other(generic: Kind)

  datatype Declarator =
    | Named(x: Ident, init: Option<Expr>)
    | Pattern(names: seq<Option<Ident>>, call: Expr)

  /** A single statement as a body is a list of one; a missing `else` is an empty list. */
  datatype Stmt =
    | Block(body: seq<Stmt>)
    | If(thn: seq<Stmt>, els: seq<Stmt>)
    | Loop(body: seq<Stmt>)
    | Declare(ds: seq<Declarator>)
    | Set(x: Ident, e: Expr)
    | Return(arg: Option<Expr>)
    | Skip

  datatype Error = UnknownContract(c: Ident) | UnknownMethod(m: Ident)

  datatype Result<+T> = Ok(value: T) | Err(error: Error) {
    predicate IsFailure() { Err? }

    function PropagateFailure<U>(): Result<U>
      requires Err?
    {
      Err(error)
    }

    function Extract(): T
      requires Ok?
    {
      value
    }
  }

  type Locals = map<Ident, Kind>
  type Bound = map<Ident, Contract>

  /** What the walk knows: kinds of locals, contract bindings, and whether a dynamic return
      has been seen. */
  datatype State = State(locals: Locals, bound: Bound, dynamic: bool)

  /** Everything fixed while one body is walked: the declared names, those known dynamic. */
  datatype Env = Env(declared: set<Ident>, known: set<Ident>, contracts: Contracts)

  // ----- expressions -----

  predicate IsBinding(m: Ident) {
    m == "at" || m == "view" || m == "lib"
  }

  /** `X.at(addr).m(...)`, if the expression has that shape. */
  function ChainTarget(e: Expr, contracts: Contracts): Result<Option<seq<Kind>>> {
    if !e.Chain? || !IsBinding(e.binding) || !e.oneAddress then Ok(None)
    else if e.contract !in contracts then Err(UnknownContract(e.contract))
    else if e.m !in contracts[e.contract] then Err(UnknownMethod(e.m))
    else Ok(Some(contracts[e.contract][e.m]))
  }

  function Target(e: Expr, contracts: Contracts, bound: Bound): Result<Option<seq<Kind>>> {
    match e
    case Member(o, m, _) =>
      if o !in bound then Ok(None)
      else if m !in bound[o] then Err(UnknownMethod(m))
      else Ok(Some(bound[o][m]))
    case _ => ChainTarget(e, contracts)
  }

  function KindOf(e: Expr, st: State, env: Env): Result<Kind> {
    match e
    case Id(x) => Ok(if x in st.locals then st.locals[x] else Scalar)
    case Call(f) => Ok(if f in env.declared && f in env.known then Dynamic else Scalar)
    case Other(generic) => Ok(generic)
    case _ =>
      var target :- Target(e, env.contracts, st.bound);
      Ok(if target == Some([Dynamic]) then Dynamic else e.generic)
  }

  /** `X.at(addr)` on its own names a contract to bind. */
  function Standalone(e: Expr, contracts: Contracts): Option<Contract> {
    if e.Member? && IsBinding(e.m) && e.recv in contracts then Some(contracts[e.recv]) else None
  }

  // ----- statements -----

  function WithName(st: State, x: Ident, kind: Kind, e: Expr, env: Env): State {
    match Standalone(e, env.contracts)
    case Some(c) => st.(locals := st.locals[x := kind], bound := st.bound[x := c])
    case None => st.(locals := st.locals[x := kind])
  }

  /** Promotes only; a binding that is not one any more is forgotten. */
  function WithSet(st: State, x: Ident, kind: Kind, e: Expr, env: Env): State {
    var locals := if kind == Dynamic then st.locals[x := Dynamic] else st.locals;
    match Standalone(e, env.contracts)
    case Some(c) => st.(locals := locals, bound := st.bound[x := c])
    case None => st.(locals := locals, bound := st.bound - {x})
  }

  /** Names bound by position to the outputs of a call; unresolvable means dynamic. */
  function WithPattern(locals: Locals, names: seq<Option<Ident>>, outputs: Option<seq<Kind>>): Locals {
    if names == [] then locals
    else
      var n := |names| - 1;
      var before := WithPattern(locals, names[..n], outputs);
      match names[n]
      case None => before
      case Some(x) =>
        before[x := if outputs.Some? && n < |outputs.value| then outputs.value[n] else Dynamic]
  }

  function WalkDecls(ds: seq<Declarator>, st: State, env: Env): Result<State> {
    if ds == [] then Ok(st)
    else
      match ds[0]
      case Named(x, None) => WalkDecls(ds[1..], st, env)
      case Named(x, Some(e)) =>
        var kind :- KindOf(e, st, env);
        WalkDecls(ds[1..], WithName(st, x, kind, e, env), env)
      case Pattern(names, e) =>
        var outputs :- ChainTarget(e, env.contracts);
        WalkDecls(ds[1..], st.(locals := WithPattern(st.locals, names, outputs)), env)
  }

  function Walk(ss: seq<Stmt>, st: State, env: Env): Result<State>
    decreases ss, 0
  {
    if ss == [] then Ok(st)
    else
      var next :- WalkStmt(ss[0], st, env);
      Walk(ss[1..], next, env)
  }

  function WalkStmt(s: Stmt, st: State, env: Env): Result<State>
    decreases s, 1
  {
    match s
    case Block(body) => Walk(body, st, env)
    case If(thn, els) =>
      var next :- Walk(thn, st, env);
      Walk(els, next, env)
    case Loop(body) => Walk(body, st, env)
    case Declare(ds) => WalkDecls(ds, st, env)
    case Set(x, e) =>
      var kind :- KindOf(e, st, env);
      Ok(WithSet(st, x, kind, e, env))
    case Return(None) => Ok(st)
    case Return(Some(e)) =>
      var kind :- KindOf(e, st, env);
      Ok(st.(dynamic := st.dynamic || kind == Dynamic))
    case Skip => Ok(st)
  }

  const START := State(map[], map[], false)

  /** Whether a body returns something dynamic, given the functions known to. */
  function ReturnsDynamic(body: seq<Stmt>, env: Env): Result<bool> {
    var end :- Walk(body, START, env);
    Ok(end.dynamic)
  }

  // ----- the walk as it runs -----

  class Walker {
    const env: Env
    var locals: Locals
    var bound: Bound

    constructor (env: Env)
      ensures this.env == env && locals == map[] && bound == map[]
    {
      this.env := env;
      locals, bound := map[], map[];
    }

    method WalkStatements(ss: seq<Stmt>) returns (r: Result<bool>)
      modifies this
      ensures var end := Walk(ss, State(old(locals), old(bound), false), env);
              if end.Err? then r == Err(end.error)
              else r == Ok(end.value.dynamic) && locals == end.value.locals && bound == end.value.bound
      decreases ss, 0
    {
      var dynamic := false;
      ghost var start := State(locals, bound, false);
      var i := 0;
      while i < |ss|
        invariant 0 <= i <= |ss|
        invariant Walk(ss, start, env) == Walk(ss[i..], State(locals, bound, dynamic), env)
      {
        assert ss[i..][0] == ss[i] && ss[i..][1..] == ss[i + 1..];
        DynamicAdds(ss[i], locals, bound, dynamic, env);
        var one := WalkStatement(ss[i]);
        if one.Err? {
          return one;
        }
        if one.value {
          dynamic := true;
        }
        i := i + 1;
      }
      return Ok(dynamic);
    }

    method WalkStatement(s: Stmt) returns (r: Result<bool>)
      modifies this
      ensures var end := WalkStmt(s, State(old(locals), old(bound), false), env);
              if end.Err? then r == Err(end.error)
              else r == Ok(end.value.dynamic) && locals == end.value.locals && bound == end.value.bound
      decreases s, 1
    {
      match s
      case Block(body) => r := WalkStatements(body);
      case If(thn, els) =>
        r := WalkStatements(thn);
        if r.Err? {
          return;
        }
        var consequent := r.value;
        ListDynamicAdds(els, locals, bound, consequent, env);
        r := WalkStatements(els);
        if r.Ok? {
          r := Ok(consequent || r.value);
        }
      case Loop(body) => r := WalkStatements(body);
      case Declare(ds) =>
        ghost var start := State(locals, bound, false);
        for i := 0 to |ds|
          invariant WalkDecls(ds, start, env) == WalkDecls(ds[i..], State(locals, bound, false), env)
        {
          assert ds[i..][0] == ds[i] && ds[i..][1..] == ds[i + 1..];
          var d := ds[i];
          if d.Named? && d.init.Some? {
            var kind := KindOf(d.init.value, State(locals, bound, false), env);
            if kind.Err? {
              return Err(kind.error);
            }
            locals := locals[d.x := kind.value];
            var contract := Standalone(d.init.value, env.contracts);
            if contract.Some? {
              bound := bound[d.x := contract.value];
            }
          } else if d.Pattern? {
            var outputs := ChainTarget(d.call, env.contracts);
            if outputs.Err? {
              return Err(outputs.error);
            }
            ApplyDestructuringKinds(d.names, outputs.value);
          }
        }
        r := Ok(false);
      case Set(x, e) =>
        var kind := KindOf(e, State(locals, bound, false), env);
        if kind.Err? {
          return Err(kind.error);
        }
        if kind.value == Dynamic {
          locals := locals[x := Dynamic];
        }
        var contract := Standalone(e, env.contracts);
        bound := if contract.Some? then bound[x := contract.value] else bound - {x};
        r := Ok(false);
      case Return(None) => r := Ok(false);
      case Return(Some(e)) =>
        var kind := KindOf(e, State(locals, bound, false), env);
        r := if kind.Err? then Err(kind.error) else Ok(kind.value == Dynamic);
      case Skip => r := Ok(false);
    }

    method ApplyDestructuringKinds(names: seq<Option<Ident>>, outputs: Option<seq<Kind>>)
      modifies this`locals
      ensures locals == WithPattern(old(locals), names, outputs)
    {
      for i := 0 to |names|
        invariant locals == WithPattern(old(locals), names[..i], outputs)
      {
        assert names[..i + 1][..i] == names[..i];
        if names[i].Some? {
          var known := outputs.Some? && i < |outputs.value|;
          locals := locals[names[i].value := if known then outputs.value[i] else Dynamic];
        }
      }
      assert names[..|names|] == names;
    }
  }

  method FunctionReturnsDynamic(body: seq<Stmt>, env: Env) returns (r: Result<bool>)
    ensures r == ReturnsDynamic(body, env)
  {
    var walker := new Walker(env);
    r := walker.WalkStatements(body);
  }

  /** A dynamic return seen before a statement only adds to what the statement reports. */
  lemma {:induction false} DynamicAdds(s: Stmt, locals: Locals, bound: Bound, dynamic: bool, env: Env)
    ensures WalkStmt(s, State(locals, bound, dynamic), env) ==
            Seen(WalkStmt(s, State(locals, bound, false), env), dynamic)
    decreases s, 1
  {
    match s
    case Block(body) => ListDynamicAdds(body, locals, bound, dynamic, env);
    case If(thn, els) =>
      ListDynamicAdds(thn, locals, bound, dynamic, env);
      var mid := Walk(thn, State(locals, bound, false), env);
      if mid.Ok? {
        ListDynamicAdds(els, mid.value.locals, mid.value.bound, mid.value.dynamic, env);
        ListDynamicAdds(els, mid.value.locals, mid.value.bound, mid.value.dynamic || dynamic, env);
      }
    case Loop(body) => ListDynamicAdds(body, locals, bound, dynamic, env);
    case Declare(ds) => DeclsDynamicAdds(ds, locals, bound, dynamic, env);
    case _ =>
  }

  lemma {:induction false} ListDynamicAdds(ss: seq<Stmt>, locals: Locals, bound: Bound, dynamic: bool, env: Env)
    ensures Walk(ss, State(locals, bound, dynamic), env) == Seen(Walk(ss, State(locals, bound, false), env), dynamic)
    decreases ss, 0
  {
    if ss != [] {
      DynamicAdds(ss[0], locals, bound, dynamic, env);
      var mid := WalkStmt(ss[0], State(locals, bound, false), env);
      if mid.Ok? {
        ListDynamicAdds(ss[1..], mid.value.locals, mid.value.bound, mid.value.dynamic, env);
        ListDynamicAdds(ss[1..], mid.value.locals, mid.value.bound, mid.value.dynamic || dynamic, env);
      }
    }
  }

  lemma {:induction false} DeclsDynamicAdds(ds: seq<Declarator>, locals: Locals, bound: Bound, dynamic: bool, env: Env)
    ensures WalkDecls(ds, State(locals, bound, dynamic), env) ==
            Seen(WalkDecls(ds, State(locals, bound, false), env), dynamic)
  {
    if ds != [] {
      var st, su := State(locals, bound, false), State(locals, bound, dynamic);
      match ds[0]
      case Named(_, None) => DeclsDynamicAdds(ds[1..], locals, bound, dynamic, env);
      case Named(x, Some(e)) =>
        var kind := KindOf(e, st, env);
        assert KindOf(e, su, env) == kind;
        if kind.Ok? {
          var next := WithName(st, x, kind.value, e, env);
          assert WithName(su, x, kind.value, e, env) == next.(dynamic := dynamic);
          DeclsDynamicAdds(ds[1..], next.locals, next.bound, dynamic, env);
        }
      case Pattern(names, e) =>
        var outputs := ChainTarget(e, env.contracts);
        if outputs.Ok? {
          DeclsDynamicAdds(ds[1..], WithPattern(locals, names, outputs.value), bound, dynamic, env);
        }
    }
  }

  function Seen(r: Result<State>, dynamic: bool): Result<State> {
    match r
    case Ok(st) => Ok(st.(dynamic := st.dynamic || dynamic))
    case Err(e) => Err(e)
  }
}
