/** What each operation on scopes does to names and slots, and when it is refused. */
module SlotNames {
  import opened Arith
  import opened Slots

  // ----- when an operation is refused -----

  /** A name may be declared anywhere but twice in one scope, and reserved names nowhere; every
      scope but the outermost may be closed. */
  lemma RefusedExactly(s: State, op: Op, reserved: set<string>)
    requires s.scopes != []
    ensures var top, r := s.scopes[|s.scopes| - 1], Apply(s, op, reserved);
            && (r == Failed(ReservedName) <==> op.Declare? && op.name in reserved)
            && (r == Failed(AlreadyDeclared) <==>
                  op.Declare? && op.name !in reserved && exists j :: 0 <= j < |top| && top[j].name == op.name)
            && (r == Failed(CannotPopGlobal) <==> op.Pop? && |s.scopes| == 1)
  {
    var top := s.scopes[|s.scopes| - 1];
    assert op.Declare? ==> (Declares(top, op.name) <==> exists j :: 0 <= j < |top| && top[j].name == op.name);
  }

  // ----- what a declaration changes -----

  /** The new variable comes last in the innermost scope. A parameter gets no slot; any other
      takes the slot handed back last, or the next fresh one when none is, and the other kind is
      left alone. */
  lemma DeclaredExactly(s: State, name: string, scalar: bool, isParam: bool, reserved: set<string>)
    requires s.scopes != [] && Apply(s, Declare(name, scalar, isParam), reserved).Next?
    ensures var n, t, p := |s.scopes| - 1, Apply(s, Declare(name, scalar, isParam), reserved).s, PoolOf(s, scalar);
            && |t.scopes| == n + 1 && t.scopes[..n] == s.scopes[..n]
            && |t.scopes[n]| == |s.scopes[n]| + 1 && t.scopes[n][..|s.scopes[n]|] == s.scopes[n]
            && (var v, q := t.scopes[n][|s.scopes[n]|], PoolOf(t, scalar);
                && v.name == name && v.scalar == scalar
                && PoolOf(t, !scalar) == PoolOf(s, !scalar)
                && (if isParam then v.slot == -1 && q == p
                    else if |p.free| > 0 then
                      p.free == q.free + [v.slot] && q.next == p.next && q.max == (if v.slot >= p.max then v.slot + 1 else p.max)
                    else v.slot == p.next && q.free == [] && q.next == p.next + 1
                         && q.max == (if v.slot >= p.max then v.slot + 1 else p.max)))
  {
    var n, p := |s.scopes| - 1, PoolOf(s, scalar);
    if |p.free| > 0 {
      assert p.free == p.free[..|p.free| - 1] + [p.free[|p.free| - 1]];
    }
  }

  /** Closing a scope hands back its slots, kind by kind and in order of declaration: those of
      `a + [v] + b` are those of `a`, then that of `v` if it has one of the kind, then those of `b`. */
  lemma {:induction false} SlotsInOrder(a: seq<Variable>, v: Variable, b: seq<Variable>, scalar: bool)
    ensures SlotsOf([v], scalar) == if v.scalar == scalar && v.slot >= 0 then [v.slot] else []
    ensures SlotsOf(a + [v] + b, scalar) == SlotsOf(a, scalar) + SlotsOf([v], scalar) + SlotsOf(b, scalar)
  {
    assert [v][..0] == [];
    if b == [] {
      assert a + [v] + b == a + [v] && (a + [v])[..|a|] == a;
    } else {
      var n := |b| - 1;
      assert (a + [v] + b)[..|a| + 1 + n] == a + [v] + b[..n];
      SlotsInOrder(a, v, b[..n], scalar);
    }
  }

  // ----- what a name means afterwards -----

  /** The name just declared means the variable just declared, and every other name what it meant. */
  lemma DeclaredMeans(s: State, name: string, scalar: bool, isParam: bool, reserved: set<string>, other: string)
    requires s.scopes != [] && Apply(s, Declare(name, scalar, isParam), reserved).Next? && other != name
    ensures var t := Apply(s, Declare(name, scalar, isParam), reserved).s;
            var n := |s.scopes| - 1;
            && Lookup(t.scopes, name) == Some(t.scopes[n][|s.scopes[n]|])
            && Lookup(t.scopes, other) == Lookup(s.scopes, other)
  {
    var n := |s.scopes| - 1;
    var t := Apply(s, Declare(name, scalar, isParam), reserved).s;
    var v := t.scopes[n][|s.scopes[n]|];
    assert t.scopes[n] == s.scopes[n] + [v] && t.scopes[..n] == s.scopes[..n];
    FindLast(s.scopes[n], v, name);
    FindLast(s.scopes[n], v, other);
    FindIn(s.scopes[n], other);
  }

  lemma {:induction false} FindLast(vs: seq<Variable>, v: Variable, name: string)
    ensures Find(vs + [v], name) ==
            if Declares(vs, name) then Find(vs, name) else if v.name == name then Some(v) else None
  {
    if vs == [] {
      assert vs + [v] == [v] && [v][1..] == [];
    } else {
      assert (vs + [v])[0] == vs[0] && (vs + [v])[1..] == vs[1..] + [v];
      FindLast(vs[1..], v, name);
      FindIn(vs, name);
      FindIn(vs[1..], name);
    }
  }

  /** Opening a scope changes no meaning; closing one brings back what the scopes around it say. */
  lemma ScopesMean(s: State, reserved: set<string>, name: string)
    requires s.scopes != []
    ensures Lookup(Apply(s, Push, reserved).s.scopes, name) == Lookup(s.scopes, name)
    ensures |s.scopes| > 1 ==> Lookup(Apply(s, Pop, reserved).s.scopes, name) == Lookup(s.scopes[..|s.scopes| - 1], name)
  {
    assert (s.scopes + [[]])[..|s.scopes|] == s.scopes;
  }

  // ----- no scope has a name twice -----

  ghost predicate Once(vs: seq<Variable>) {
    forall i, j | 0 <= i < j < |vs| :: vs[i].name != vs[j].name
  }

  ghost predicate AllOnce(scopes: seq<seq<Variable>>) {
    forall i | 0 <= i < |scopes| :: Once(scopes[i])
  }

  lemma StepOnce(s: State, op: Op, reserved: set<string>)
    requires s.scopes != [] && AllOnce(s.scopes) && Apply(s, op, reserved).Next?
    ensures AllOnce(Apply(s, op, reserved).s.scopes)
  {
    var t, n := Apply(s, op, reserved).s, |s.scopes| - 1;
    forall i | 0 <= i < |t.scopes|
      ensures Once(t.scopes[i])
    {
      if i < |s.scopes| {
        assert Once(s.scopes[i]);
      }
    }
  }

  lemma {:induction false} RunOnce(ops: seq<Op>, reserved: set<string>)
    requires Run(ops, reserved).Next?
    ensures AllOnce(Run(ops, reserved).s.scopes)
  {
    if ops != [] {
      var n := |ops| - 1;
      RunOnce(ops[..n], reserved);
      StepOnce(Run(ops[..n], reserved).s, ops[n], reserved);
    }
  }

  /** So in every run a name means a variable exactly when that variable stands under it in some
      scope and no deeper one has the name. */
  lemma MeansExactly(ops: seq<Op>, reserved: set<string>, name: string, v: Variable)
    requires Run(ops, reserved).Next?
    ensures var scopes := Run(ops, reserved).s.scopes;
            Lookup(scopes, name) == Some(v) <==> exists i :: StandsAt(scopes, name, v, i)
  {
    var scopes := Run(ops, reserved).s.scopes;
    RunOnce(ops, reserved);
    LookupInnermost(scopes, name);
    if i :| StandsAt(scopes, name, v, i) {
      var j :| 0 <= j < |scopes[i]| && scopes[i][j] == v;
      assert Declares(scopes[i], name);
      var w := Lookup(scopes, name).value;
      var k :| StandsAt(scopes, name, w, k);
      var l :| 0 <= l < |scopes[k]| && scopes[k][l] == w;
      assert Declares(scopes[k], name) && Once(scopes[i]);
    }
  }
}
