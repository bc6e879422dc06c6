/** How a dynamic value reaches a `return`, told as a relation on bodies: the walk finds exactly
    that, and fails exactly where a contract or method it names does not exist. */
module ReturnKindReason {
  import opened Arith
  import opened ReturnKind
  import opened ReturnKindFixpoint

  // ----- a body as the steps it is read in -----

  /** Blocks, branches and loops add nothing of their own: each part is read once, in order. */
  datatype Step = Named(x: Ident, e: Expr) | Pattern(names: seq<Option<Ident>>, call: Expr) | Assigned(x: Ident, e: Expr) | Result(e: Expr)

  function DeclSteps(ds: seq<Declarator>): seq<Step> {
    if ds == [] then []
    else
      (match ds[0]
       case Named(x, Some(e)) => [Step.Named(x, e)]
       case Named(_, None) => []
       case Pattern(names, call) => [Step.Pattern(names, call)]) + DeclSteps(ds[1..])
  }

  function Steps(ss: seq<Stmt>): seq<Step>
    decreases ss, 0
  {
    if ss == [] then [] else StmtSteps(ss[0]) + Steps(ss[1..])
  }

  function StmtSteps(s: Stmt): seq<Step>
    decreases s, 1
  {
    match s
    case Block(body) => Steps(body)
    case If(thn, els) => Steps(thn) + Steps(els)
    case Loop(body) => Steps(body)
    case Declare(ds) => DeclSteps(ds)
    case Set(x, e) => [Assigned(x, e)]
    case Return(Some(e)) => [Step.Result(e)]
    case _ => []
  }

  // ----- which contract a name stands for -----

  /** `C.at`, `C.view` or `C.lib` of a contract: what a name given it is bound to. */
  predicate Names(e: Expr, c: Contract, contracts: Contracts) {
    e.Member? && (e.m == "at" || e.m == "view" || e.m == "lib") && e.recv in contracts && contracts[e.recv] == c
  }

  predicate NamesSome(e: Expr, contracts: Contracts) {
    e.Member? && (e.m == "at" || e.m == "view" || e.m == "lib") && e.recv in contracts
  }

  predicate Binds(p: Step, x: Ident, c: Contract, contracts: Contracts) {
    (p.Named? || p.Assigned?) && p.x == x && Names(p.e, c, contracts)
  }

  /** A declaration rebinds only; any assignment that does not bind forgets. */
  predicate Rebinds(p: Step, x: Ident, contracts: Contracts) {
    (p.Named? && p.x == x && NamesSome(p.e, contracts)) || (p.Assigned? && p.x == x)
  }

  /** Before step `i`, `x` stands for contract `c`. */
  ghost predicate BoundTo(x: Ident, c: Contract, ps: seq<Step>, i: nat, contracts: Contracts)
    requires i <= |ps|
  {
    exists j :: BoundAt(x, c, ps, i, j, contracts)
  }

  ghost predicate BoundAt(x: Ident, c: Contract, ps: seq<Step>, i: nat, j: int, contracts: Contracts)
    requires i <= |ps|
  {
    0 <= j < i && Binds(ps[j], x, c, contracts) && forall k | j < k < i :: !Rebinds(ps[k], x, contracts)
  }

  // ----- which values are dynamic -----

  /** `C.at(a).m` with one address. */
  predicate Shaped(e: Expr) {
    e.Chain? && (e.binding == "at" || e.binding == "view" || e.binding == "lib") && e.oneAddress
  }

  /** The outputs of the method an expression calls, where it resolves to one. */
  ghost predicate Outputs(e: Expr, outputs: seq<Kind>, ps: seq<Step>, i: nat, contracts: Contracts)
    requires i <= |ps|
  {
    if e.Member? then exists c :: BoundTo(e.recv, c, ps, i, contracts) && e.m in c && c[e.m] == outputs
    else Shaped(e) && e.contract in contracts && e.m in contracts[e.contract] && contracts[e.contract][e.m] == outputs
  }

  /** Before step `i` the expression gives a dynamic value: it is one whatever the context; or a
      call of a declared function known to return one; or of a method whose single output is
      one; or a name that holds one. */
  ghost predicate Gives(e: Expr, ps: seq<Step>, i: nat, env: Env)
    requires i <= |ps|
    decreases i, 2
  {
    match e
    case Other(generic) => generic == Dynamic
    case Call(f) => f in env.declared && f in env.known
    case Id(x) => Holds(x, ps, i, env)
    case _ => e.generic == Dynamic || Outputs(e, [Dynamic], ps, i, env.contracts)
  }

  /** Before step `i` the name holds a dynamic value: an earlier step made it so, and none since
      has made it scalar again. */
  ghost predicate Holds(x: Ident, ps: seq<Step>, i: nat, env: Env)
    requires i <= |ps|
    decreases i, 1
  {
    exists j :: HoldsSince(x, ps, i, j, env)
  }

  ghost predicate HoldsSince(x: Ident, ps: seq<Step>, i: nat, j: int, env: Env)
    requires i <= |ps|
    decreases i, 0
  {
    0 <= j < i && Makes(x, ps, j, env) && forall k | j < k < i :: !Unmakes(x, ps, k, env)
  }

  /** By declaration, by assignment, or by its place in a pattern. */
  ghost predicate Makes(x: Ident, ps: seq<Step>, j: nat, env: Env)
    requires j < |ps|
    decreases j, 3
  {
    match ps[j]
    case Named(y, e) => y == x && Gives(e, ps, j, env)
    case Assigned(y, e) => y == x && Gives(e, ps, j, env)
    case Pattern(names, call) => exists n :: LastAt(names, x, n) && PlaceDynamic(call, n, env.contracts)
    case Result(_) => false
  }

  /** Assignments only promote. */
  ghost predicate Unmakes(x: Ident, ps: seq<Step>, j: nat, env: Env)
    requires j < |ps|
    decreases j, 3
  {
    match ps[j]
    case Named(y, e) => y == x && !Gives(e, ps, j, env)
    case Pattern(names, call) => exists n :: LastAt(names, x, n) && !PlaceDynamic(call, n, env.contracts)
    case _ => false
  }

  predicate LastAt(names: seq<Option<Ident>>, x: Ident, n: int) {
    0 <= n < |names| && names[n] == Some(x) && forall m | n < m < |names| :: names[m] != Some(x)
  }

  /** A place in a pattern is dynamic if its output is, or if nothing is known of it. */
  predicate PlaceDynamic(call: Expr, n: nat, contracts: Contracts) {
    if Shaped(call) && call.contract in contracts && call.m in contracts[call.contract] then
      n >= |contracts[call.contract][call.m]| || contracts[call.contract][call.m][n] == Dynamic
    else true
  }

  /** Some `return` in the body is of a dynamic value. */
  ghost predicate Reaches(body: seq<Stmt>, env: Env) {
    exists i :: ReturnAt(Steps(body), i, env)
  }

  ghost predicate ReturnAt(ps: seq<Step>, i: int, env: Env) {
    0 <= i < |ps| && ps[i].Result? && Gives(ps[i].e, ps, i, env)
  }

  // ----- where it fails -----

  ghost predicate Raises(ps: seq<Step>, i: nat, env: Env)
    requires i < |ps|
  {
    if ps[i].Pattern? then Unresolved(ps[i].call, env.contracts)
    else Unresolved(ps[i].e, env.contracts) || MissesMethod(ps[i].e, ps, i, env.contracts)
  }

  /** A chain to a contract, or to a method of one, that does not exist. */
  predicate Unresolved(e: Expr, contracts: Contracts) {
    Shaped(e) && (e.contract !in contracts || e.m !in contracts[e.contract])
  }

  ghost predicate MissesMethod(e: Expr, ps: seq<Step>, i: nat, contracts: Contracts)
    requires i <= |ps|
  {
    e.Member? && exists c :: BoundTo(e.recv, c, ps, i, contracts) && e.m !in c
  }

  function Read(p: Step): Expr {
    if p.Pattern? then p.call else p.e
  }

  function Complaint(e: Expr, contracts: Contracts): Error
    requires e.Member? || e.Chain?
  {
    if e.Chain? && e.contract !in contracts then UnknownContract(e.contract) else UnknownMethod(e.m)
  }

  /** The first step that fails, among the first `i`, and what it says. */
  ghost predicate FailsFirst(ps: seq<Step>, i: nat, j: int, error: Error, env: Env)
    requires i <= |ps|
  {
    && 0 <= j < i && Raises(ps, j, env) && (forall k: nat | k < j :: !Raises(ps, k, env))
    && error == Complaint(Read(ps[j]), env.contracts)
  }

  // ----- the walk takes those steps -----

  function Take(p: Step, st: State, env: Env): ReturnKind.Result<State> {
    match p
    case Named(x, e) =>
      var kind :- KindOf(e, st, env);
      Ok(WithName(st, x, kind, e, env))
    case Pattern(names, e) =>
      var outputs :- ChainTarget(e, env.contracts);
      Ok(st.(locals := WithPattern(st.locals, names, outputs)))
    case Assigned(x, e) =>
      var kind :- KindOf(e, st, env);
      Ok(WithSet(st, x, kind, e, env))
    case Result(e) =>
      var kind :- KindOf(e, st, env);
      Ok(st.(dynamic := st.dynamic || kind == Dynamic))
  }

  function TakeAll(ps: seq<Step>, st: State, env: Env): ReturnKind.Result<State> {
    if ps == [] then Ok(st)
    else
      var next :- Take(ps[0], st, env);
      TakeAll(ps[1..], next, env)
  }

  lemma {:induction false} TakeConcat(a: seq<Step>, b: seq<Step>, st: State, env: Env)
    ensures TakeAll(a + b, st, env) ==
            match TakeAll(a, st, env) case Ok(next) => TakeAll(b, next, env) case Err(e) => Err(e)
  {
    if a == [] {
      assert a + b == b;
    } else {
      assert (a + b)[0] == a[0] && (a + b)[1..] == a[1..] + b;
      var next := Take(a[0], st, env);
      if next.Ok? {
        TakeConcat(a[1..], b, next.value, env);
      }
    }
  }

  lemma TakeOne(p: Step, st: State, env: Env)
    ensures TakeAll([p], st, env) == Take(p, st, env)
  {
    assert [p][1..] == [];
  }

  lemma {:induction false} DeclsTaken(ds: seq<Declarator>, st: State, env: Env)
    ensures WalkDecls(ds, st, env) == TakeAll(DeclSteps(ds), st, env)
  {
    if ds != [] {
      var first := DeclSteps(ds[..1]);
      var rest := DeclSteps(ds[1..]);
      match ds[0]
      case Named(_, None) =>
        assert [] + rest == rest;
        DeclsTaken(ds[1..], st, env);
      case Named(x, Some(e)) =>
        var p := Step.Named(x, e);
        TakeConcat([p], rest, st, env);
        TakeOne(p, st, env);
        if Take(p, st, env).Ok? {
          DeclsTaken(ds[1..], Take(p, st, env).value, env);
        }
      case Pattern(names, call) =>
        var p := Step.Pattern(names, call);
        TakeConcat([p], rest, st, env);
        TakeOne(p, st, env);
        if Take(p, st, env).Ok? {
          DeclsTaken(ds[1..], Take(p, st, env).value, env);
        }
    }
  }

  lemma {:induction false} ListTaken(ss: seq<Stmt>, st: State, env: Env)
    ensures Walk(ss, st, env) == TakeAll(Steps(ss), st, env)
    decreases ss, 0
  {
    if ss != [] {
      StmtTaken(ss[0], st, env);
      TakeConcat(StmtSteps(ss[0]), Steps(ss[1..]), st, env);
      var next := WalkStmt(ss[0], st, env);
      if next.Ok? {
        ListTaken(ss[1..], next.value, env);
      }
    }
  }

  lemma {:induction false} StmtTaken(s: Stmt, st: State, env: Env)
    ensures WalkStmt(s, st, env) == TakeAll(StmtSteps(s), st, env)
    decreases s, 1
  {
    match s
    case Block(body) => ListTaken(body, st, env);
    case If(thn, els) =>
      ListTaken(thn, st, env);
      TakeConcat(Steps(thn), Steps(els), st, env);
      var next := Walk(thn, st, env);
      if next.Ok? {
        ListTaken(els, next.value, env);
      }
    case Loop(body) => ListTaken(body, st, env);
    case Declare(ds) => DeclsTaken(ds, st, env);
    case Set(x, e) => TakeOne(Assigned(x, e), st, env);
    case Return(Some(e)) => TakeOne(Step.Result(e), st, env);
    case _ =>
  }

  // ----- and knows, before each step, what the relation says -----

  predicate Bound(st: State, x: Ident, c: Contract) {
    x in st.bound && st.bound[x] == c
  }

  ghost predicate Knows(st: State, ps: seq<Step>, i: nat, env: Env)
    requires i <= |ps|
  {
    && (forall x :: Dyn(st, x) <==> Holds(x, ps, i, env))
    && (forall x, c :: Bound(st, x, c) <==> BoundTo(x, c, ps, i, env.contracts))
    && (st.dynamic <==> exists j | 0 <= j < i :: ReturnAt(ps, j, env))
  }

  lemma BoundStep(x: Ident, c: Contract, ps: seq<Step>, i: nat, contracts: Contracts)
    requires i < |ps|
    ensures BoundTo(x, c, ps, i + 1, contracts) <==>
            Binds(ps[i], x, c, contracts) || (BoundTo(x, c, ps, i, contracts) && !Rebinds(ps[i], x, contracts))
  {
    if Binds(ps[i], x, c, contracts) {
      assert BoundAt(x, c, ps, i + 1, i, contracts);
    } else if BoundTo(x, c, ps, i, contracts) && !Rebinds(ps[i], x, contracts) {
      var j :| BoundAt(x, c, ps, i, j, contracts);
      assert BoundAt(x, c, ps, i + 1, j, contracts);
    }
    if BoundTo(x, c, ps, i + 1, contracts) && !Binds(ps[i], x, c, contracts) {
      var j :| BoundAt(x, c, ps, i + 1, j, contracts);
      assert BoundAt(x, c, ps, i, j, contracts);
    }
  }

  lemma SinceWhen(x: Ident, ps: seq<Step>, i: nat, env: Env) returns (j: int)
    requires i <= |ps| && Holds(x, ps, i, env)
    ensures HoldsSince(x, ps, i, j, env)
  {
    j :| HoldsSince(x, ps, i, j, env);
  }

  lemma HoldsStep(x: Ident, ps: seq<Step>, i: nat, env: Env)
    requires i < |ps|
    ensures Holds(x, ps, i + 1, env) <==> Makes(x, ps, i, env) || (Holds(x, ps, i, env) && !Unmakes(x, ps, i, env))
  {
    if Makes(x, ps, i, env) {
      assert HoldsSince(x, ps, i + 1, i, env);
    } else if Holds(x, ps, i, env) && !Unmakes(x, ps, i, env) {
      var j := SinceWhen(x, ps, i, env);
      assert HoldsSince(x, ps, i + 1, j, env);
    }
    if Holds(x, ps, i + 1, env) && !Makes(x, ps, i, env) {
      var j := SinceWhen(x, ps, i + 1, env);
      assert HoldsSince(x, ps, i, j, env);
    }
  }

  lemma TargetKnows(e: Expr, st: State, ps: seq<Step>, i: nat, env: Env)
    requires i <= |ps| && Knows(st, ps, i, env) && (e.Member? || e.Chain?)
    ensures var r := Target(e, env.contracts, st.bound);
            && (r.Err? <==> Unresolved(e, env.contracts) || MissesMethod(e, ps, i, env.contracts))
            && (r.Err? ==> r.error == Complaint(e, env.contracts))
            && (r.Ok? ==> (r.value == Some([Dynamic]) <==> Outputs(e, [Dynamic], ps, i, env.contracts)))
  {
    if e.Member? && e.recv in st.bound {
      assert Bound(st, e.recv, st.bound[e.recv]);
    }
  }

  lemma KindKnows(e: Expr, st: State, ps: seq<Step>, i: nat, env: Env)
    requires i <= |ps| && Knows(st, ps, i, env)
    ensures var r := KindOf(e, st, env);
            && (r.Err? <==> Unresolved(e, env.contracts) || MissesMethod(e, ps, i, env.contracts))
            && (r.Err? ==> (e.Member? || e.Chain?) && r.error == Complaint(e, env.contracts))
            && (r.Ok? ==> (r.value == Dynamic <==> Gives(e, ps, i, env)))
  {
    if e.Member? || e.Chain? {
      TargetKnows(e, st, ps, i, env);
    } else if e.Id? {
      assert Dyn(st, e.x) <==> Holds(e.x, ps, i, env);
    }
  }

  lemma {:induction false} PatternKnows(locals: Locals, names: seq<Option<Ident>>, outputs: Option<seq<Kind>>, x: Ident)
    ensures var after := WithPattern(locals, names, outputs);
            if exists n :: LastAt(names, x, n) then
              x in after && forall n | LastAt(names, x, n) ::
                after[x] == if outputs.Some? && n < |outputs.value| then outputs.value[n] else Dynamic
            else (x in after <==> x in locals) && (x in after ==> after[x] == locals[x])
  {
    if names != [] {
      var n := |names| - 1;
      PatternKnows(locals, names[..n], outputs, x);
      if names[n] == Some(x) {
        assert LastAt(names, x, n);
      } else {
        assert forall m | 0 <= m < n :: names[..n][m] == names[m];
        assert forall m :: LastAt(names, x, m) <==> LastAt(names[..n], x, m);
      }
    }
  }

  lemma BoundKnows(st: State, next: State, ps: seq<Step>, i: nat, env: Env)
    requires i < |ps| && Knows(st, ps, i, env)
    requires forall x, c :: Bound(next, x, c) <==>
               Binds(ps[i], x, c, env.contracts) || (Bound(st, x, c) && !Rebinds(ps[i], x, env.contracts))
    ensures forall x, c :: Bound(next, x, c) <==> BoundTo(x, c, ps, i + 1, env.contracts)
  {
    forall x, c
      ensures Bound(next, x, c) <==> BoundTo(x, c, ps, i + 1, env.contracts)
    {
      BoundStep(x, c, ps, i, env.contracts);
      assert Bound(st, x, c) <==> BoundTo(x, c, ps, i, env.contracts);
    }
  }

  lemma HeldKnows(st: State, next: State, ps: seq<Step>, i: nat, env: Env)
    requires i < |ps| && Knows(st, ps, i, env)
    requires forall x :: Dyn(next, x) <==> Makes(x, ps, i, env) || (Dyn(st, x) && !Unmakes(x, ps, i, env))
    ensures forall x :: Dyn(next, x) <==> Holds(x, ps, i + 1, env)
  {
    forall x
      ensures Dyn(next, x) <==> Holds(x, ps, i + 1, env)
    {
      HoldsStep(x, ps, i, env);
      assert Dyn(st, x) <==> Holds(x, ps, i, env);
    }
  }

  lemma ReturnKnows(st: State, next: State, ps: seq<Step>, i: nat, env: Env)
    requires i < |ps| && Knows(st, ps, i, env)
    requires next.dynamic <==> st.dynamic || ReturnAt(ps, i, env)
    ensures next.dynamic <==> exists j | 0 <= j < i + 1 :: ReturnAt(ps, j, env)
  {
  }

  lemma StepKnows(st: State, ps: seq<Step>, i: nat, env: Env)
    requires i < |ps| && Knows(st, ps, i, env)
    ensures var r := Take(ps[i], st, env);
            && (r.Err? <==> Raises(ps, i, env))
            && (r.Err? ==> r.error == Complaint(Read(ps[i]), env.contracts))
            && (r.Ok? ==> Knows(r.value, ps, i + 1, env))
  {
    var r := Take(ps[i], st, env);
    if !ps[i].Pattern? {
      KindKnows(ps[i].e, st, ps, i, env);
    }
    if r.Ok? {
      match ps[i]
      case Pattern(names, call) => PatternTaken(st, ps, i, env);
      case Named(x, e) => NamedTaken(st, ps, i, env);
      case Assigned(x, e) => AssignedTaken(st, ps, i, env);
      case Result(e) => ResultTaken(st, ps, i, env);
    }
  }

  lemma NamedTaken(st: State, ps: seq<Step>, i: nat, env: Env)
    requires i < |ps| && Knows(st, ps, i, env) && ps[i].Named? && Take(ps[i], st, env).Ok?
    ensures Knows(Take(ps[i], st, env).value, ps, i + 1, env)
  {
    var next := Take(ps[i], st, env).value;
    KindKnows(ps[i].e, st, ps, i, env);
    BoundKnows(st, next, ps, i, env);
    HeldKnows(st, next, ps, i, env);
    ReturnKnows(st, next, ps, i, env);
  }

  lemma AssignedTaken(st: State, ps: seq<Step>, i: nat, env: Env)
    requires i < |ps| && Knows(st, ps, i, env) && ps[i].Assigned? && Take(ps[i], st, env).Ok?
    ensures Knows(Take(ps[i], st, env).value, ps, i + 1, env)
  {
    var next := Take(ps[i], st, env).value;
    KindKnows(ps[i].e, st, ps, i, env);
    BoundKnows(st, next, ps, i, env);
    HeldKnows(st, next, ps, i, env);
    ReturnKnows(st, next, ps, i, env);
  }

  lemma ResultTaken(st: State, ps: seq<Step>, i: nat, env: Env)
    requires i < |ps| && Knows(st, ps, i, env) && ps[i].Result? && Take(ps[i], st, env).Ok?
    ensures Knows(Take(ps[i], st, env).value, ps, i + 1, env)
  {
    var next := Take(ps[i], st, env).value;
    KindKnows(ps[i].e, st, ps, i, env);
    BoundKnows(st, next, ps, i, env);
    HeldKnows(st, next, ps, i, env);
    ReturnKnows(st, next, ps, i, env);
  }

  lemma PatternTaken(st: State, ps: seq<Step>, i: nat, env: Env)
    requires i < |ps| && Knows(st, ps, i, env) && ps[i].Pattern? && Take(ps[i], st, env).Ok?
    ensures Knows(Take(ps[i], st, env).value, ps, i + 1, env)
  {
    var next := Take(ps[i], st, env).value;
    forall x
      ensures Dyn(next, x) <==> Makes(x, ps, i, env) || (Dyn(st, x) && !Unmakes(x, ps, i, env))
    {
      PatternKnows(st.locals, ps[i].names, ChainTarget(ps[i].call, env.contracts).value, x);
    }
    BoundKnows(st, next, ps, i, env);
    HeldKnows(st, next, ps, i, env);
    ReturnKnows(st, next, ps, i, env);
  }

  lemma {:induction false} PrefixKnows(ps: seq<Step>, i: nat, env: Env)
    requires i <= |ps|
    ensures var r := TakeAll(ps[..i], START, env);
            && (r.Err? ==> exists j :: FailsFirst(ps, i, j, r.error, env))
            && (r.Ok? ==> forall j: nat | j < i :: !Raises(ps, j, env))
            && (r.Ok? ==> Knows(r.value, ps, i, env))
    decreases i
  {
    if i > 0 {
      PrefixKnows(ps, i - 1, env);
      assert ps[..i] == ps[..i - 1] + [ps[i - 1]];
      TakeConcat(ps[..i - 1], [ps[i - 1]], START, env);
      var r := TakeAll(ps[..i - 1], START, env);
      if r.Ok? {
        TakeOne(ps[i - 1], r.value, env);
        StepKnows(r.value, ps, i - 1, env);
        var more := Take(ps[i - 1], r.value, env);
        assert more.Err? ==> FailsFirst(ps, i, i - 1, more.error, env);
      } else {
        var j :| FailsFirst(ps, i - 1, j, r.error, env);
        assert FailsFirst(ps, i, j, r.error, env);
      }
    }
  }

  /** What the walk of a body finds: it fails exactly where some step names a contract or method
      that does not exist, and otherwise finds the body dynamic exactly when a dynamic value
      reaches one of its returns. */
  lemma DynamicExactly(body: seq<Stmt>, env: Env)
    ensures var r := ReturnsDynamic(body, env);
            && (r.Err? ==> exists i :: FailsFirst(Steps(body), |Steps(body)|, i, r.error, env))
            && (r.Ok? ==> forall i: nat | i < |Steps(body)| :: !Raises(Steps(body), i, env))
            && (r.Ok? ==> (r.value <==> Reaches(body, env)))
  {
    var ps := Steps(body);
    ListTaken(body, START, env);
    PrefixKnows(ps, |ps|, env);
    assert ps[..|ps|] == ps;
  }

  // ----- so for whole programs -----

  /** The least fixpoint is the least set of functions whose bodies hand a dynamic value back. */
  lemma LeastReaches(known: set<Ident>, fns: Table, contracts: Contracts, f: Ident)
    requires Least(known, fns, contracts) && Sane(fns, contracts)
    ensures f in known <==> f in fns && Reaches(fns[f], Env(fns.Keys, known, contracts))
  {
    if f in fns {
      VerdictGrows(f, fns, {}, known, contracts);
      DynamicExactly(fns[f], Env(fns.Keys, known, contracts));
    }
    assert f in known <==> f in ReturnKindFixpoint.Step(known, fns, contracts);
  }

  /** A function that returns what a dynamic one does is dynamic. */
  lemma ReturnedCallIsDynamic(known: set<Ident>, fns: Table, contracts: Contracts, f: Ident, g: Ident, i: nat)
    requires Least(known, fns, contracts) && Sane(fns, contracts) && f in known && g in fns
    requires i < |Steps(fns[g])| && Steps(fns[g])[i] == Step.Result(Call(f))
    ensures g in known
  {
    var env := Env(fns.Keys, known, contracts);
    assert f in fns by { assert f in ReturnKindFixpoint.Step(known, fns, contracts); }
    assert ReturnAt(Steps(fns[g]), i, env);
    LeastReaches(known, fns, contracts, g);
  }
}
