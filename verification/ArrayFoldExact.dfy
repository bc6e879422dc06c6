/** Which arrays fold: exactly those filled, element by element, before anything else mentions
    them, and afterwards only read where the element is known. */
module ArrayFoldExact {
  import opened Arith
  import opened TsLang
  import opened ArrayFold
  import opened ArrayFoldUses

  // ----- the construction -----

  /** `let x = new Array(n)` with a constant of 1 to 256. */
  predicate Creates(st: Stmt, x: Name, site: nat, n: nat, t: Outer) {
    && st.Let? && |st.ds| == 1 && st.ds[0].x == x && st.ds[0].init.Some?
    && st.ds[0].init.value.NewArr? && st.ds[0].init.value.site == site
    && ConstOf(st.ds[0].init.value.size, t) == Some(n) && 1 <= n <= 256
  }

  /** `x[k] = v`, both constant, and no array of the function in either. */
  predicate Fills(st: Stmt, x: Name, k: nat, v: int, names: set<Name>, t: Outer) {
    && st.Do? && st.e.SetAt? && st.e.base == Var(x) && st.e.aop == None
    && ConstOf(st.e.idx, t) == Some(k) && ConstOf(st.e.rhs, t) == Some(v)
    && (Mentions(st.e.idx) + Callees(st.e.idx) + Mentions(st.e.rhs) + Callees(st.e.rhs)) !! names
  }

  ghost predicate FillsSome(st: Stmt, x: Name, elems: seq<int>, names: set<Name>, t: Outer) {
    exists k: nat :: k < |elems| && Fills(st, x, k, elems[k], names, t)
  }

  /** From its declaration on, only statements that fill it mention the array, each element is
      filled once, and statement `last` fills the last one missing. */
  ghost predicate Built(ss: seq<Stmt>, d: nat, last: nat, x: Name, elems: seq<int>, names: set<Name>, t: Outer) {
    && d < last < |ss| && FillsSome(ss[last], x, elems, names, t)
    && (forall j | d < j <= last :: Refers(ss[j], x) ==> FillsSome(ss[j], x, elems, names, t))
    && (forall k: nat | k < |elems| :: exists j :: d < j <= last && Fills(ss[j], x, k, elems[k], names, t))
    && (forall i, j, k: nat | d < i < j <= last && k < |elems| ::
          !(Fills(ss[i], x, k, elems[k], names, t) && Fills(ss[j], x, k, elems[k], names, t)))
  }

  lemma FillIsWrite(st: Stmt, x: Name, k: nat, v: int, names: set<Name>, t: Outer)
    ensures Fills(st, x, k, v, names, t) <==> RoleOf(st, x, names, t) == Write(k, v)
    ensures Fills(st, x, k, v, names, t) ==> Refers(st, x)
  {
    if st.Do? && st.e.SetAt? && st.e.base.Var? {
      assert Mentions(st.e.base) == {st.e.base.x};
      var inside := Mentions(st.e.idx) + Callees(st.e.idx) + Mentions(st.e.rhs) + Callees(st.e.rhs);
      assert forall y :: y in inside && y in names <==> y in inside * names;
    }
  }

  /** The same, of roles, with some elements already there. */
  ghost predicate Completes(roles: seq<Role>, j: nat, got: seq<Option<int>>, last: nat, elems: seq<int>) {
    && j <= last < |roles| && |elems| == |got| && roles[last].Write?
    && (forall i | j <= i <= last :: Permitted(roles[i], got, elems))
    && (forall k | 0 <= k < |got| :: if got[k].Some? then got[k].value == elems[k] else WrittenIn(roles, j, last, k))
    && (forall h, i | j <= h < i <= last && roles[h].Write? && roles[i].Write? :: roles[h].k != roles[i].k)
  }

  predicate Permitted(r: Role, got: seq<Option<int>>, elems: seq<int>)
    requires |elems| == |got|
  {
    !r.Mention? && (r.Write? ==> r.k < |got| && got[r.k] == None && elems[r.k] == r.v)
  }

  ghost predicate WrittenIn(roles: seq<Role>, j: nat, last: nat, k: nat)
    requires j <= last < |roles|
  {
    exists i :: j <= i <= last && roles[i].Write? && roles[i].k == k
  }

  lemma {:induction false} ClassifyExactly(roles: seq<Role>, j: nat, got: seq<Option<int>>, last: nat, elems: seq<int>)
    requires !Full(got)
    ensures Classify(roles, j, got) == Some((last, elems)) <==> Completes(roles, j, got, last, elems)
    decreases |roles| - j
  {
    if j < |roles| {
      match roles[j]
      case Mention =>
      case Apart =>
        ClassifyExactly(roles, j + 1, got, last, elems);
        ApartStep(roles, j, got, last, elems);
      case Write(k, v) =>
        if k < |got| && got[k] == None {
          var more := got[k := Some(v)];
          if Full(more) {
            LastStep(roles, j, got, last, elems);
          } else {
            ClassifyExactly(roles, j + 1, more, last, elems);
            WriteStep(roles, j, got, last, elems);
          }
        }
    }
  }

  lemma ApartStep(roles: seq<Role>, j: nat, got: seq<Option<int>>, last: nat, elems: seq<int>)
    requires j < |roles| && roles[j].Apart?
    ensures Completes(roles, j, got, last, elems) <==> Completes(roles, j + 1, got, last, elems)
  {
    if Completes(roles, j + 1, got, last, elems) {
      forall k | 0 <= k < |got| && got[k] == None
        ensures WrittenIn(roles, j, last, k)
      {
        assert WrittenIn(roles, j + 1, last, k);
      }
    }
    if Completes(roles, j, got, last, elems) {
      forall k | 0 <= k < |got| && got[k] == None
        ensures WrittenIn(roles, j + 1, last, k)
      {
        assert WrittenIn(roles, j, last, k);
      }
    }
  }

  lemma LastStep(roles: seq<Role>, j: nat, got: seq<Option<int>>, last: nat, elems: seq<int>)
    requires j < |roles| && roles[j].Write? && roles[j].k < |got| && got[roles[j].k] == None
    requires Full(got[roles[j].k := Some(roles[j].v)])
    ensures Completes(roles, j, got, last, elems) <==> last == j && elems == Gathered(got[roles[j].k := Some(roles[j].v)])
  {
    var k, more := roles[j].k, got[roles[j].k := Some(roles[j].v)];
    forall i | 0 <= i < |got|
      ensures i != k ==> got[i].Some?
    {
      assert more[i].Some?;
    }
    if last == j && elems == Gathered(more) {
      assert WrittenIn(roles, j, j, k);
    }
    if Completes(roles, j, got, last, elems) {
      assert Permitted(roles[j], got, elems) && Permitted(roles[last], got, elems);
      assert elems == Gathered(more);
    }
  }

  lemma WriteStep(roles: seq<Role>, j: nat, got: seq<Option<int>>, last: nat, elems: seq<int>)
    requires j < |roles| && roles[j].Write? && roles[j].k < |got| && got[roles[j].k] == None
    requires !Full(got[roles[j].k := Some(roles[j].v)])
    ensures Completes(roles, j, got, last, elems) <==>
            Completes(roles, j + 1, got[roles[j].k := Some(roles[j].v)], last, elems)
  {
    var more := got[roles[j].k := Some(roles[j].v)];
    if Completes(roles, j + 1, more, last, elems) {
      WriteBack(roles, j, got, last, elems);
    }
    if Completes(roles, j, got, last, elems) {
      WriteOn(roles, j, got, last, elems);
    }
  }

  lemma WriteBack(roles: seq<Role>, j: nat, got: seq<Option<int>>, last: nat, elems: seq<int>)
    requires j < |roles| && roles[j].Write? && roles[j].k < |got| && got[roles[j].k] == None
    requires Completes(roles, j + 1, got[roles[j].k := Some(roles[j].v)], last, elems)
    ensures Completes(roles, j, got, last, elems)
  {
    var k, more := roles[j].k, got[roles[j].k := Some(roles[j].v)];
    assert more[k] == Some(roles[j].v);
    forall i | j <= i <= last
      ensures Permitted(roles[i], got, elems)
    {
      assert i > j ==> Permitted(roles[i], more, elems);
    }
    forall i | 0 <= i < |got| && got[i] == None
      ensures WrittenIn(roles, j, last, i)
    {
      if i == k {
        assert roles[j].Write? && roles[j].k == k;
      } else {
        assert more[i] == None && WrittenIn(roles, j + 1, last, i);
      }
    }
    forall i | j < i <= last && roles[i].Write?
      ensures roles[i].k != k
    {
      assert Permitted(roles[i], more, elems);
    }
  }

  lemma WriteOn(roles: seq<Role>, j: nat, got: seq<Option<int>>, last: nat, elems: seq<int>)
    requires j < |roles| && roles[j].Write? && roles[j].k < |got| && got[roles[j].k] == None
    requires !Full(got[roles[j].k := Some(roles[j].v)]) && Completes(roles, j, got, last, elems)
    ensures Completes(roles, j + 1, got[roles[j].k := Some(roles[j].v)], last, elems)
  {
    var k, more := roles[j].k, got[roles[j].k := Some(roles[j].v)];
    assert Permitted(roles[j], got, elems);
    var u :| 0 <= u < |more| && more[u] == None;
    assert WrittenIn(roles, j, last, u);
    forall i | j + 1 <= i <= last
      ensures Permitted(roles[i], more, elems)
    {
      assert Permitted(roles[i], got, elems);
    }
    forall i | 0 <= i < |more| && more[i] == None
      ensures WrittenIn(roles, j + 1, last, i)
    {
      assert WrittenIn(roles, j, last, i) && i != k;
    }
  }

  /** Roles and statements say the same. */
  lemma BuiltIsComplete(ss: seq<Stmt>, d: nat, last: nat, x: Name, elems: seq<int>, names: set<Name>, t: Outer)
    requires |elems| > 0
    ensures Built(ss, d, last, x, elems, names, t) <==>
            Completes(Roles(ss, x, names, t), d + 1, Unwritten(|elems|), last, elems)
  {
    var roles := Roles(ss, x, names, t);
    forall j, k: nat, v | 0 <= j < |ss|
      ensures Fills(ss[j], x, k, v, names, t) <==> roles[j] == Write(k, v)
    {
      FillIsWrite(ss[j], x, k, v, names, t);
    }
    if Built(ss, d, last, x, elems, names, t) {
      BuiltCompletes(ss, d, last, x, elems, names, t);
    }
    if Completes(roles, d + 1, Unwritten(|elems|), last, elems) {
      CompletesBuilt(ss, d, last, x, elems, names, t);
    }
  }

  lemma BuiltCompletes(ss: seq<Stmt>, d: nat, last: nat, x: Name, elems: seq<int>, names: set<Name>, t: Outer)
    requires Built(ss, d, last, x, elems, names, t)
    ensures Completes(Roles(ss, x, names, t), d + 1, Unwritten(|elems|), last, elems)
  {
    var roles, from := Roles(ss, x, names, t), d + 1;
    BuiltPermits(ss, d, last, x, elems, names, t);
    LastWrites(ss, d, last, x, elems, names, t);
    forall k | 0 <= k < |elems|
      ensures WrittenIn(roles, from, last, k)
    {
      BuiltWrites(ss, d, last, x, elems, names, t, k);
    }
    forall h, i | d + 1 <= h < i <= last && roles[h].Write? && roles[i].Write?
      ensures roles[h].k != roles[i].k
    {
      FilledRole(ss[h], x, elems, names, t);
      FilledRole(ss[i], x, elems, names, t);
    }
  }

  lemma BuiltPermits(ss: seq<Stmt>, d: nat, last: nat, x: Name, elems: seq<int>, names: set<Name>, t: Outer)
    requires Built(ss, d, last, x, elems, names, t)
    ensures forall i | d + 1 <= i <= last :: Permitted(Roles(ss, x, names, t)[i], Unwritten(|elems|), elems)
  {
    forall i | d + 1 <= i <= last
      ensures Permitted(Roles(ss, x, names, t)[i], Unwritten(|elems|), elems)
    {
      FilledRole(ss[i], x, elems, names, t);
    }
  }

  lemma BuiltWrites(ss: seq<Stmt>, d: nat, last: nat, x: Name, elems: seq<int>, names: set<Name>, t: Outer, k: nat)
    requires Built(ss, d, last, x, elems, names, t) && k < |elems|
    ensures WrittenIn(Roles(ss, x, names, t), d + 1, last, k)
  {
    var j :| d < j <= last && Fills(ss[j], x, k, elems[k], names, t);
    FillIsWrite(ss[j], x, k, elems[k], names, t);
    assert Roles(ss, x, names, t)[j] == Write(k, elems[k]);
  }

  lemma LastWrites(ss: seq<Stmt>, d: nat, last: nat, x: Name, elems: seq<int>, names: set<Name>, t: Outer)
    requires Built(ss, d, last, x, elems, names, t)
    ensures Roles(ss, x, names, t)[last].Write?
  {
    var k: nat :| k < |elems| && Fills(ss[last], x, k, elems[k], names, t);
    FillIsWrite(ss[last], x, k, elems[k], names, t);
  }

  lemma FilledRole(st: Stmt, x: Name, elems: seq<int>, names: set<Name>, t: Outer)
    requires Refers(st, x) ==> FillsSome(st, x, elems, names, t)
    ensures var r := RoleOf(st, x, names, t);
            !r.Mention? && (r.Write? ==> r.k < |elems| && r.v == elems[r.k] && Fills(st, x, r.k, elems[r.k], names, t))
  {
    var r := RoleOf(st, x, names, t);
    if r.Write? {
      FillIsWrite(st, x, r.k, r.v, names, t);
    }
    if Refers(st, x) {
      var k: nat :| k < |elems| && Fills(st, x, k, elems[k], names, t);
      FillIsWrite(st, x, k, elems[k], names, t);
    }
  }

  lemma CompletesBuilt(ss: seq<Stmt>, d: nat, last: nat, x: Name, elems: seq<int>, names: set<Name>, t: Outer)
    requires Completes(Roles(ss, x, names, t), d + 1, Unwritten(|elems|), last, elems)
    ensures Built(ss, d, last, x, elems, names, t)
  {
    var roles := Roles(ss, x, names, t);
    forall j | d < j <= last && roles[j].Write?
      ensures roles[j].k < |elems| && Fills(ss[j], x, roles[j].k, elems[roles[j].k], names, t)
    {
      assert Permitted(roles[j], Unwritten(|elems|), elems);
      FillIsWrite(ss[j], x, roles[j].k, roles[j].v, names, t);
    }
    forall j | d < j <= last && Refers(ss[j], x)
      ensures FillsSome(ss[j], x, elems, names, t)
    {
      assert Permitted(roles[j], Unwritten(|elems|), elems);
      assert roles[j].Write?;
    }
    forall k: nat | k < |elems|
      ensures exists j :: d < j <= last && Fills(ss[j], x, k, elems[k], names, t)
    {
      assert Unwritten(|elems|)[k] == None;
      assert WrittenIn(roles, d + 1, last, k);
      var j :| d + 1 <= j <= last && roles[j].Write? && roles[j].k == k;
    }
    forall i, j, k: nat | d < i < j <= last && k < |elems|
      ensures !(Fills(ss[i], x, k, elems[k], names, t) && Fills(ss[j], x, k, elems[k], names, t))
    {
      FillIsWrite(ss[i], x, k, elems[k], names, t);
      FillIsWrite(ss[j], x, k, elems[k], names, t);
    }
  }

  // ----- the plan -----

  /** Unmentioned before it is created, built by its fills, and used as allowed after. */
  ghost predicate Folding(ss: seq<Stmt>, a: Cand, names: set<Name>, t: Outer, isMain: bool) {
    && a.raw.decl < |ss| && Creates(ss[a.raw.decl], a.raw.x, a.raw.site, a.raw.size, t)
    && |a.elems| == a.raw.size && Built(ss, a.raw.decl, a.last, a.raw.x, a.elems, names, t)
    && (forall j | 0 <= j < a.raw.decl :: !Refers(ss[j], a.raw.x))
    && (forall j | a.last < j < |ss| :: AcceptsStmt(ss[j], a, t, isMain))
  }

  lemma CreatesIsRaw(st: Stmt, j: nat, r: Raw, t: Outer)
    ensures RawDecl(st, j, t) == Some(r) <==> r.decl == j && Creates(st, r.x, r.site, r.size, t)
  {
  }

  lemma {:induction false} RawsExactly(ss: seq<Stmt>, n: nat, t: Outer, r: Raw)
    requires n <= |ss|
    ensures r in RawsAmong(ss, n, t) <==> r.decl < n && Creates(ss[r.decl], r.x, r.site, r.size, t)
  {
    if n > 0 {
      RawsExactly(ss, n - 1, t, r);
      CreatesIsRaw(ss[n - 1], n - 1, r, t);
    }
  }

  lemma {:induction false} SelectExactly(ss: seq<Stmt>, rs: seq<Raw>, n: nat, names: set<Name>, t: Outer, isMain: bool, a: Cand)
    requires n <= |rs|
    ensures a in Select(ss, rs, n, names, t, isMain) <==>
            a.raw in rs[..n] && Construct(ss, a.raw, names, t) == Some(a) && Survives(ss, a, names, t, isMain)
  {
    if n > 0 {
      SelectExactly(ss, rs, n - 1, names, t, isMain, a);
      assert rs[..n] == rs[..n - 1] + [rs[n - 1]];
    }
  }

  lemma NotFullYet(n: nat)
    requires n > 0
    ensures !Full(Unwritten(n))
  {
    assert Unwritten(n)[0] == None;
  }

  lemma ConstructExactly(ss: seq<Stmt>, a: Cand, names: set<Name>, t: Outer)
    requires a.raw.size > 0
    ensures Construct(ss, a.raw, names, t) == Some(a) <==>
            |a.elems| == a.raw.size && Built(ss, a.raw.decl, a.last, a.raw.x, a.elems, names, t)
  {
    NotFullYet(a.raw.size);
    ClassifyExactly(Roles(ss, a.raw.x, names, t), a.raw.decl + 1, Unwritten(a.raw.size), a.last, a.elems);
    if |a.elems| == a.raw.size {
      BuiltIsComplete(ss, a.raw.decl, a.last, a.raw.x, a.elems, names, t);
    }
  }

  lemma SurvivesExactly(ss: seq<Stmt>, a: Cand, names: set<Name>, t: Outer, isMain: bool)
    requires Creates(Get(ss, a.raw.decl), a.raw.x, a.raw.site, a.raw.size, t) && a.raw.decl < |ss|
    requires Built(ss, a.raw.decl, a.last, a.raw.x, a.elems, names, t)
    ensures Survives(ss, a, names, t, isMain) <==>
            && (forall j | 0 <= j < a.raw.decl :: !Refers(ss[j], a.raw.x))
            && (forall j | a.last < j < |ss| :: AcceptsStmt(ss[j], a, t, isMain))
  {
    if Survives(ss, a, names, t, isMain) {
      forall j | a.last < j < |ss|
        ensures AcceptsStmt(ss[j], a, t, isMain)
      {
        assert !Own(ss, j, a, names, t);
      }
    }
    if (forall j | 0 <= j < a.raw.decl :: !Refers(ss[j], a.raw.x)) && (forall j | a.last < j < |ss| :: AcceptsStmt(ss[j], a, t, isMain)) {
      forall j | 0 <= j < |ss|
        ensures Own(ss, j, a, names, t) || AcceptsStmt(ss[j], a, t, isMain)
      {
        if a.raw.decl < j <= a.last && Refers(ss[j], a.raw.x) {
          var k: nat :| k < |a.elems| && Fills(ss[j], a.raw.x, k, a.elems[k], names, t);
          FillIsWrite(ss[j], a.raw.x, k, a.elems[k], names, t);
        } else if j != a.raw.decl && j <= a.last {
          ApartStmtAccepted(ss[j], a, t, isMain);
        }
      }
    }
  }

  function Get(ss: seq<Stmt>, j: nat): Stmt {
    if j < |ss| then ss[j] else Break
  }

  /** An array of the body folds exactly when it is so built and so used. */
  lemma PlanExactly(ss: seq<Stmt>, t: Outer, isMain: bool, a: Cand)
    ensures a in Plan(ss, t, isMain) <==> Folding(ss, a, RawNames(RawDecls(ss, t)), t, isMain)
  {
    var rs := RawDecls(ss, t);
    var names := RawNames(rs);
    SelectExactly(ss, rs, |rs|, names, t, isMain, a);
    assert rs[..|rs|] == rs;
    RawsExactly(ss, |ss|, t, a.raw);
    if a.raw in rs {
      ConstructExactly(ss, a, names, t);
      if Built(ss, a.raw.decl, a.last, a.raw.x, a.elems, names, t) {
        SurvivesExactly(ss, a, names, t, isMain);
      }
    }
  }
}
