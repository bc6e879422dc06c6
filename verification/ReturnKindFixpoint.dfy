/** The repeated walk ends in the least fixpoint, within one round more than there are
    functions, whatever order they are declared in. */
module ReturnKindFixpoint {
  import opened Arith
  import opened ReturnKind

  // ----- one body: what is found from two sets together is found from one of them -----

  predicate Dyn(st: State, x: Ident) {
    x in st.locals && st.locals[x] == Dynamic
  }

  ghost predicate Joined(a: State, b: State, c: State) {
    && a.bound == b.bound == c.bound && (c.dynamic <==> a.dynamic || b.dynamic)
    && forall x :: Dyn(c, x) <==> Dyn(a, x) || Dyn(b, x)
  }

  ghost predicate JoinedResult(a: Result<State>, b: Result<State>, c: Result<State>) {
    if c.Err? then a == c && b == c else a.Ok? && b.Ok? && Joined(a.value, b.value, c.value)
  }

  function With(env: Env, known: set<Ident>): Env {
    env.(known := known)
  }

  lemma KindJoins(e: Expr, a: State, b: State, c: State, env: Env, k: set<Ident>, l: set<Ident>)
    requires Joined(a, b, c)
    ensures var p, q, r := KindOf(e, a, With(env, k)), KindOf(e, b, With(env, l)), KindOf(e, c, With(env, k + l));
            if r.Err? then p == r && q == r
            else p.Ok? && q.Ok? && (r.value == Dynamic <==> p.value == Dynamic || q.value == Dynamic)
  {
    if e.Id? {
      assert Dyn(c, e.x) <==> Dyn(a, e.x) || Dyn(b, e.x);
    }
  }

  lemma {:induction false} PatternJoins(a: State, b: State, c: State, names: seq<Option<Ident>>, outputs: Option<seq<Kind>>)
    requires Joined(a, b, c)
    ensures Joined(a.(locals := WithPattern(a.locals, names, outputs)), b.(locals := WithPattern(b.locals, names, outputs)),
                   c.(locals := WithPattern(c.locals, names, outputs)))
  {
    if names != [] {
      var n := |names| - 1;
      PatternJoins(a, b, c, names[..n], outputs);
      if names[n].Some? {
        var kind := if outputs.Some? && n < |outputs.value| then outputs.value[n] else Dynamic;
        SetJoins(a.(locals := WithPattern(a.locals, names[..n], outputs)), b.(locals := WithPattern(b.locals, names[..n], outputs)),
                 c.(locals := WithPattern(c.locals, names[..n], outputs)), names[n].value, kind, kind, kind);
      }
    }
  }

  lemma SetJoins(a: State, b: State, c: State, x: Ident, p: Kind, q: Kind, r: Kind)
    requires Joined(a, b, c) && (r == Dynamic <==> p == Dynamic || q == Dynamic)
    ensures Joined(a.(locals := a.locals[x := p]), b.(locals := b.locals[x := q]), c.(locals := c.locals[x := r]))
  {
    var a', b', c' := a.(locals := a.locals[x := p]), b.(locals := b.locals[x := q]), c.(locals := c.locals[x := r]);
    forall y
      ensures Dyn(c', y) <==> Dyn(a', y) || Dyn(b', y)
    {
      assert Dyn(c, y) <==> Dyn(a, y) || Dyn(b, y);
    }
  }

  lemma PromoteJoins(a: State, b: State, c: State, x: Ident, p: Kind, q: Kind, r: Kind, e: Expr, env: Env, k: set<Ident>, l: set<Ident>)
    requires Joined(a, b, c) && (r == Dynamic <==> p == Dynamic || q == Dynamic)
    ensures Joined(WithSet(a, x, p, e, With(env, k)), WithSet(b, x, q, e, With(env, l)), WithSet(c, x, r, e, With(env, k + l)))
  {
    LocalsSet(a, x, p, e, With(env, k));
    LocalsSet(b, x, q, e, With(env, l));
    LocalsSet(c, x, r, e, With(env, k + l));
  }

  lemma LocalsSet(st: State, x: Ident, kind: Kind, e: Expr, env: Env)
    ensures forall y :: Dyn(WithSet(st, x, kind, e, env), y) <==> Dyn(st, y) || (y == x && kind == Dynamic)
    ensures WithSet(st, x, kind, e, env).dynamic == st.dynamic
  {
  }

  lemma NameJoins(a: State, b: State, c: State, x: Ident, p: Kind, q: Kind, r: Kind, e: Expr, env: Env)
    requires Joined(a, b, c) && (r == Dynamic <==> p == Dynamic || q == Dynamic)
    ensures Joined(WithName(a, x, p, e, env), WithName(b, x, q, e, env), WithName(c, x, r, e, env))
  {
    SetJoins(a, b, c, x, p, q, r);
    forall y
      ensures Dyn(WithName(c, x, r, e, env), y) <==> Dyn(WithName(a, x, p, e, env), y) || Dyn(WithName(b, x, q, e, env), y)
    {
      assert Dyn(c.(locals := c.locals[x := r]), y) <==>
             Dyn(a.(locals := a.locals[x := p]), y) || Dyn(b.(locals := b.locals[x := q]), y);
    }
  }

  lemma {:induction false} DeclsJoin(ds: seq<Declarator>, a: State, b: State, c: State, env: Env, k: set<Ident>, l: set<Ident>)
    requires Joined(a, b, c)
    ensures JoinedResult(WalkDecls(ds, a, With(env, k)), WalkDecls(ds, b, With(env, l)), WalkDecls(ds, c, With(env, k + l)))
  {
    if ds != [] {
      match ds[0]
      case Named(_, None) => DeclsJoin(ds[1..], a, b, c, env, k, l);
      case Named(x, Some(e)) =>
        KindJoins(e, a, b, c, env, k, l);
        var p, q, r := KindOf(e, a, With(env, k)), KindOf(e, b, With(env, l)), KindOf(e, c, With(env, k + l));
        if r.Ok? {
          NameJoins(a, b, c, x, p.value, q.value, r.value, e, env);
          DeclsJoin(ds[1..], WithName(a, x, p.value, e, env), WithName(b, x, q.value, e, env),
                    WithName(c, x, r.value, e, env), env, k, l);
        }
      case Pattern(names, e) =>
        var outputs := ChainTarget(e, env.contracts);
        if outputs.Ok? {
          PatternJoins(a, b, c, names, outputs.value);
          DeclsJoin(ds[1..], a.(locals := WithPattern(a.locals, names, outputs.value)),
                    b.(locals := WithPattern(b.locals, names, outputs.value)),
                    c.(locals := WithPattern(c.locals, names, outputs.value)), env, k, l);
        }
    }
  }

  lemma {:induction false} WalkJoins(ss: seq<Stmt>, a: State, b: State, c: State, env: Env, k: set<Ident>, l: set<Ident>)
    requires Joined(a, b, c)
    ensures JoinedResult(Walk(ss, a, With(env, k)), Walk(ss, b, With(env, l)), Walk(ss, c, With(env, k + l)))
    decreases ss, 0
  {
    if ss != [] {
      StmtJoins(ss[0], a, b, c, env, k, l);
      var p, q, r := WalkStmt(ss[0], a, With(env, k)), WalkStmt(ss[0], b, With(env, l)), WalkStmt(ss[0], c, With(env, k + l));
      if r.Ok? {
        WalkJoins(ss[1..], p.value, q.value, r.value, env, k, l);
      }
    }
  }

  lemma {:induction false} StmtJoins(s: Stmt, a: State, b: State, c: State, env: Env, k: set<Ident>, l: set<Ident>)
    requires Joined(a, b, c)
    ensures JoinedResult(WalkStmt(s, a, With(env, k)), WalkStmt(s, b, With(env, l)), WalkStmt(s, c, With(env, k + l)))
    decreases s, 1
  {
    match s
    case Block(body) => WalkJoins(body, a, b, c, env, k, l);
    case If(thn, els) =>
      WalkJoins(thn, a, b, c, env, k, l);
      var p, q, r := Walk(thn, a, With(env, k)), Walk(thn, b, With(env, l)), Walk(thn, c, With(env, k + l));
      if r.Ok? {
        WalkJoins(els, p.value, q.value, r.value, env, k, l);
      }
    case Loop(body) => WalkJoins(body, a, b, c, env, k, l);
    case Declare(ds) => DeclsJoin(ds, a, b, c, env, k, l);
    case Set(x, e) =>
      KindJoins(e, a, b, c, env, k, l);
      var p, q, r := KindOf(e, a, With(env, k)), KindOf(e, b, With(env, l)), KindOf(e, c, With(env, k + l));
      if r.Ok? {
        PromoteJoins(a, b, c, x, p.value, q.value, r.value, e, env, k, l);
      }
    case Return(Some(e)) =>
      KindJoins(e, a, b, c, env, k, l);
      var p, q, r := KindOf(e, a, With(env, k)), KindOf(e, b, With(env, l)), KindOf(e, c, With(env, k + l));
      if r.Ok? {
        ReturnJoins(a, b, c, p.value == Dynamic, q.value == Dynamic, r.value == Dynamic);
      }
    case _ =>
  }

  lemma ReturnJoins(a: State, b: State, c: State, p: bool, q: bool, r: bool)
    requires Joined(a, b, c) && (r <==> p || q)
    ensures Joined(a.(dynamic := a.dynamic || p), b.(dynamic := b.dynamic || q), c.(dynamic := c.dynamic || r))
  {
    var a', b', c' := a.(dynamic := a.dynamic || p), b.(dynamic := b.dynamic || q), c.(dynamic := c.dynamic || r);
    forall x
      ensures Dyn(c', x) <==> Dyn(a', x) || Dyn(b', x)
    {
      assert Dyn(c, x) <==> Dyn(a, x) || Dyn(b, x);
    }
  }

  // ----- all the functions -----

  type Table = map<Ident, seq<Stmt>>

  function Verdict(f: Ident, fns: Table, known: set<Ident>, contracts: Contracts): Result<bool>
    requires f in fns
  {
    ReturnsDynamic(fns[f], Env(fns.Keys, known, contracts))
  }

  /** Two sets together show nothing that neither shows alone, and errors do not depend on them. */
  lemma VerdictJoins(f: Ident, fns: Table, k: set<Ident>, l: set<Ident>, contracts: Contracts)
    requires f in fns
    ensures var p, q, r := Verdict(f, fns, k, contracts), Verdict(f, fns, l, contracts), Verdict(f, fns, k + l, contracts);
            if r.Err? then p == r && q == r else p.Ok? && q.Ok? && (r.value <==> p.value || q.value)
  {
    var env := Env(fns.Keys, {}, contracts);
    assert Joined(START, START, START);
    WalkJoins(fns[f], START, START, START, env, k, l);
  }

  lemma VerdictGrows(f: Ident, fns: Table, k: set<Ident>, l: set<Ident>, contracts: Contracts)
    requires f in fns && k <= l
    ensures var p, r := Verdict(f, fns, k, contracts), Verdict(f, fns, l, contracts);
            if r.Err? then p == r else p.Ok? && (p.value ==> r.value)
  {
    assert k + l == l;
    VerdictJoins(f, fns, k, l, contracts);
  }

  function Step(known: set<Ident>, fns: Table, contracts: Contracts): set<Ident> {
    set f | f in fns && Verdict(f, fns, known, contracts) == Ok(true)
  }

  ghost predicate UnderAll(known: set<Ident>, fns: Table, contracts: Contracts) {
    forall k | Step(k, fns, contracts) <= k :: known <= k
  }

  /** The least set of functions closed under what the bodies show. */
  ghost predicate Least(known: set<Ident>, fns: Table, contracts: Contracts) {
    Step(known, fns, contracts) == known && UnderAll(known, fns, contracts)
  }

  lemma LeastUnique(k: set<Ident>, l: set<Ident>, fns: Table, contracts: Contracts)
    requires Least(k, fns, contracts) && Least(l, fns, contracts)
    ensures k == l
  {
  }

  datatype Declaration = Declaration(name: Option<Ident>, body: seq<Stmt>)

  function TableOf(ds: seq<Declaration>): Table {
    if ds == [] then map[]
    else
      var d := ds[|ds| - 1];
      if d.name == None then TableOf(ds[..|ds| - 1]) else TableOf(ds[..|ds| - 1])[d.name.value := d.body]
  }

  ghost predicate Sane(fns: Table, contracts: Contracts) {
    forall f | f in fns :: Verdict(f, fns, {}, contracts).Ok?
  }

  function DynamicIn(kinds: map<Ident, Kind>): set<Ident> {
    set f | f in kinds && kinds[f] == Dynamic
  }

  ghost predicate Started(known: set<Ident>, fns: Table, contracts: Contracts) {
    known <= fns.Keys && known <= Step(known, fns, contracts) && UnderAll(known, fns, contracts)
  }

  /** A function newly found dynamic belongs to every closed set, and stays found. */
  lemma Promote(known: set<Ident>, f: Ident, fns: Table, contracts: Contracts)
    requires Started(known, fns, contracts) && f in fns && Verdict(f, fns, known, contracts) == Ok(true)
    ensures Started(known + {f}, fns, contracts)
  {
    forall g | g in known + {f}
      ensures g in Step(known + {f}, fns, contracts)
    {
      assert g in Step(known, fns, contracts);
      VerdictGrows(g, fns, known, known + {f}, contracts);
    }
    forall k | Step(k, fns, contracts) <= k
      ensures known + {f} <= k
    {
      VerdictGrows(f, fns, known, k, contracts);
      assert f in Step(k, fns, contracts);
    }
  }

  /** Nothing known yet is wrong, and the first `n` functions are settled if nothing has changed. */
  ghost predicate Midway(kinds: map<Ident, Kind>, before: map<Ident, Kind>, changed: bool, order: seq<Ident>, n: nat,
                         fns: Table, contracts: Contracts) {
    && kinds.Keys == fns.Keys && Started(DynamicIn(kinds), fns, contracts)
    && if changed then |DynamicIn(kinds)| > |DynamicIn(before)|
       else kinds == before && Settled(order, n, DynamicIn(kinds), fns, contracts)
  }

  /** One pass over the functions, using what it finds as it goes. */
  method Round(order: seq<Ident>, start: map<Ident, Kind>, fns: Table, contracts: Contracts)
    returns (r: Result<map<Ident, Kind>>, changed: bool)
    requires forall f :: f in order <==> f in fns
    requires start.Keys == fns.Keys && Started(DynamicIn(start), fns, contracts)
    ensures r.Ok? ==> Midway(r.value, start, changed, order, |order|, fns, contracts)
    ensures r.Err? ==> exists f | f in fns :: Verdict(f, fns, {}, contracts) == Err(r.error)
  {
    var kinds := start;
    changed := false;
    for j := 0 to |order|
      invariant Midway(kinds, start, changed, order, j, fns, contracts)
    {
      var name := order[j];
      assert name in order;
      if kinds[name] != Dynamic {
        var verdict := FunctionReturnsDynamic(fns[name], Env(fns.Keys, DynamicIn(kinds), contracts));
        assert verdict == Verdict(name, fns, DynamicIn(kinds), contracts);
        if verdict.Err? {
          VerdictGrows(name, fns, {}, DynamicIn(kinds), contracts);
          return Err(verdict.error), changed;
        }
        if verdict.value {
          PromoteKind(kinds, name, fns, contracts);
          kinds := kinds[name := Dynamic];
          changed := true;
        }
      }
    }
    return Ok(kinds), changed;
  }

  lemma PromoteKind(kinds: map<Ident, Kind>, f: Ident, fns: Table, contracts: Contracts)
    requires f in fns && f in kinds && kinds[f] != Dynamic
    requires Started(DynamicIn(kinds), fns, contracts) && Verdict(f, fns, DynamicIn(kinds), contracts) == Ok(true)
    ensures Started(DynamicIn(kinds[f := Dynamic]), fns, contracts)
    ensures |DynamicIn(kinds[f := Dynamic])| == |DynamicIn(kinds)| + 1
  {
    assert DynamicIn(kinds[f := Dynamic]) == DynamicIn(kinds) + {f};
    Promote(DynamicIn(kinds), f, fns, contracts);
  }

  method Seed(declarations: seq<Declaration>) returns (fns: Table, order: seq<Ident>, kinds: map<Ident, Kind>)
    ensures fns == TableOf(declarations)
    ensures |order| == |fns| && forall f :: f in order <==> f in fns
    ensures kinds.Keys == fns.Keys && DynamicIn(kinds) == {}
  {
    fns, order, kinds := map[], [], map[];
    for i := 0 to |declarations|
      invariant fns == TableOf(declarations[..i])
      invariant |order| == |fns| && forall f :: f in order <==> f in fns
      invariant kinds.Keys == fns.Keys && DynamicIn(kinds) == {}
    {
      assert declarations[..i + 1][..i] == declarations[..i];
      var d := declarations[i];
      if d.name.Some? {
        if d.name.value !in fns {
          order := order + [d.name.value];
        }
        fns := fns[d.name.value := d.body];
        kinds := kinds[d.name.value := Scalar];
      }
    }
    assert declarations[..|declarations|] == declarations;
  }

  /** The analysis: within the round cap it ends at the least fixpoint, or with an error that
      some body has whatever is known. */
  method AnalyzeFunctionReturnKinds(declarations: seq<Declaration>, contracts: Contracts)
    returns (r: Result<map<Ident, Kind>>)
    ensures r.Ok? <==> Sane(TableOf(declarations), contracts)
    ensures r.Ok? ==> r.value.Keys == TableOf(declarations).Keys
                      && Least(DynamicIn(r.value), TableOf(declarations), contracts)
    ensures r.Err? ==> exists f | f in TableOf(declarations) ::
              Verdict(f, TableOf(declarations), {}, contracts) == Err(r.error)
  {
    var fns, order, kinds := Seed(declarations);
    var maxIterations := |fns| + 1;
    var iteration, changed := 0, true;
    while iteration < maxIterations && changed
      invariant 0 <= iteration <= maxIterations
      invariant kinds.Keys == fns.Keys && Started(DynamicIn(kinds), fns, contracts)
      invariant if changed then iteration <= |DynamicIn(kinds)|
                else Settled(order, |order|, DynamicIn(kinds), fns, contracts)
    {
      var after, more := Round(order, kinds, fns, contracts);
      if after.Err? {
        return after;
      }
      kinds, changed := after.value, more;
      iteration := iteration + 1;
    }
    SubsetSize(DynamicIn(kinds), fns.Keys);
    AllSettled(order, DynamicIn(kinds), fns, contracts);
    return Ok(kinds);
  }

  /** The first `n` functions are dynamic already or not shown to be. */
  ghost predicate Settled(order: seq<Ident>, n: nat, known: set<Ident>, fns: Table, contracts: Contracts) {
    n <= |order| && forall i | 0 <= i < n :: order[i] in fns && (order[i] in known || Verdict(order[i], fns, known, contracts) == Ok(false))
  }

  lemma AllSettled(order: seq<Ident>, known: set<Ident>, fns: Table, contracts: Contracts)
    requires Settled(order, |order|, known, fns, contracts) && Started(known, fns, contracts)
    requires forall f :: f in order <==> f in fns
    ensures Least(known, fns, contracts) && Sane(fns, contracts)
  {
    forall f | f in fns
      ensures Verdict(f, fns, {}, contracts).Ok? && (Verdict(f, fns, known, contracts) == Ok(true) ==> f in known)
    {
      var i :| 0 <= i < |order| && order[i] == f;
      assert f in known ==> f in Step(known, fns, contracts);
      VerdictGrows(f, fns, {}, known, contracts);
    }
  }

  lemma {:induction false} SubsetSize<T>(a: set<T>, b: set<T>)
    requires a <= b
    ensures |a| <= |b|
  {
    if a != {} {
      var x :| x in a;
      SubsetSize(a - {x}, b - {x});
    }
  }

  /** Reordering declarations changes no answer. */
  lemma OrderIrrelevant(a: seq<Declaration>, b: seq<Declaration>, contracts: Contracts, p: map<Ident, Kind>, q: map<Ident, Kind>)
    requires TableOf(a) == TableOf(b)
    requires p.Keys == TableOf(a).Keys && Least(DynamicIn(p), TableOf(a), contracts)
    requires q.Keys == TableOf(b).Keys && Least(DynamicIn(q), TableOf(b), contracts)
    ensures p == q
  {
    LeastUnique(DynamicIn(p), DynamicIn(q), TableOf(a), contracts);
    forall f | f in p
      ensures p[f] == q[f]
    {
      assert f in DynamicIn(p) <==> f in DynamicIn(q);
    }
  }

  // ----- why a function is dynamic -----

  /** A chain of reasons: each function is shown dynamic by the next one alone, the last by none. */
  predicate Reasons(p: seq<Ident>, fns: Table, contracts: Contracts) {
    p != [] && p[0] in fns &&
    Verdict(p[0], fns, if |p| > 1 then {p[1]} else {}, contracts) == Ok(true) &&
    (|p| > 1 ==> Reasons(p[1..], fns, contracts))
  }

  ghost predicate Explained(f: Ident, fns: Table, contracts: Contracts) {
    exists p :: Reasons(p, fns, contracts) && p[0] == f
  }

  /** If a set shows it, one member of the set does, or none is needed. */
  lemma {:induction false} OneSuffices(f: Ident, fns: Table, known: set<Ident>, contracts: Contracts) returns (g: Option<Ident>)
    requires f in fns && Verdict(f, fns, known, contracts) == Ok(true)
    ensures g.Some? ==> g.value in known
    ensures Verdict(f, fns, if g.Some? then {g.value} else {}, contracts) == Ok(true)
  {
    if known == {} {
      g := None;
    } else {
      var x :| x in known;
      VerdictJoins(f, fns, {x}, known - {x}, contracts);
      assert {x} + (known - {x}) == known;
      if Verdict(f, fns, {x}, contracts) == Ok(true) {
        g := Some(x);
      } else {
        g := OneSuffices(f, fns, known - {x}, contracts);
      }
    }
  }

  lemma {:induction false} ReasonsKnown(p: seq<Ident>, fns: Table, k: set<Ident>, contracts: Contracts)
    requires Reasons(p, fns, contracts) && Step(k, fns, contracts) <= k
    ensures p[0] in k
  {
    if |p| > 1 {
      ReasonsKnown(p[1..], fns, k, contracts);
    }
    VerdictGrows(p[0], fns, if |p| > 1 then {p[1]} else {}, k, contracts);
    assert p[0] in Step(k, fns, contracts);
  }

  /** The functions found are exactly those with a finite chain of reasons: a cycle of calls
      is not a reason for itself. */
  lemma DynamicIffExplained(known: set<Ident>, fns: Table, contracts: Contracts, f: Ident)
    requires Least(known, fns, contracts)
    ensures f in known <==> Explained(f, fns, contracts)
  {
    if f in known {
      var k := set g | g in known && Explained(g, fns, contracts);
      forall g | g in Step(k, fns, contracts)
        ensures g in k
      {
        VerdictGrows(g, fns, k, known, contracts);
        assert g in Step(known, fns, contracts);
        var h := OneSuffices(g, fns, k, contracts);
        if h.Some? {
          var p :| Reasons(p, fns, contracts) && p[0] == h.value;
          assert ([g] + p)[1..] == p;
          assert Reasons([g] + p, fns, contracts) && ([g] + p)[0] == g;
        } else {
          assert Reasons([g], fns, contracts) && [g][0] == g;
        }
      }
      assert known <= k;
    }
    if Explained(f, fns, contracts) {
      var p :| Reasons(p, fns, contracts) && p[0] == f;
      ReasonsKnown(p, fns, known, contracts);
    }
  }
}
