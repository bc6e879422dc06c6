/** A function whose local arrays are folded away gives the same result on every run. */
module ArrayFoldTheorem {
  import opened Arith
  import opened TsLang
  import opened TsConst
  import opened TsRewrite
  import opened TsRewriteStmts
  import opened TsFrame
  import opened LocalConst
  import opened ArrayFold
  import opened ArrayFoldSound

  // ----- one construction statement -----

  lemma DeclStep(k: Know, c: Ctx, st: Stmt, raw: Raw, t: Outer, j: nat, s: State)
    requires Knows(k, c, s) && RawDecl(st, j, t) == Some(raw)
    requires k.known == t.consts && k.shadowed == t.shadowed && k.funcs == t.funcs && StmtCallees(st) <= k.called
    requires raw.x in k.hidden && raw.site in k.sites && raw.x !in k.arrays && (raw.x in k.known ==> raw.x in k.shadowed)
    requires forall l | l in k.held :: l.site != raw.site
    ensures var l := PlaceOf(raw, s);
            var k2 := k.(arrays := k.arrays[raw.x := l], held := k.held[l := Blanks(raw.size, c.blank)]);
            var o := ExecStmt(c, st, s);
            o.Normal? && Knows(k2, c, o.s) && Hide(k2, o.s) == Hide(k, s)
  {
    DeclEffect(k, c, st, raw, t, j, s);
    NewKnown(k, c, raw, s);
  }

  lemma NewKnown(k: Know, c: Ctx, raw: Raw, s: State)
    requires Knows(k, c, s)
    requires raw.x in k.hidden && raw.site in k.sites && raw.x !in k.arrays && (raw.x in k.known ==> raw.x in k.shadowed)
    requires forall l | l in k.held :: l.site != raw.site
    ensures var l := PlaceOf(raw, s);
            var k2 := k.(arrays := k.arrays[raw.x := l], held := k.held[l := Blanks(raw.size, c.blank)]);
            Knows(k2, c, AfterNew(s, raw, c.blank)) && Hide(k2, AfterNew(s, raw, c.blank)) == Hide(k, s)
  {
    var s2 := AfterNew(s, raw, c.blank);
    NewHidden(k, raw, s, c.blank);
    assert forall y | y != raw.x :: Lookup(c, s2, y) == Lookup(c, s, y);
  }

  lemma NewHidden(k: Know, raw: Raw, s: State, blank: int)
    requires raw.x in k.hidden && raw.site in k.sites
    ensures Hide(k, AfterNew(s, raw, blank)) == Hide(k, s)
  {
    HiddenChange(k, s, AfterNew(s, raw, blank));
  }

  /** A fresh array, bound to the candidate's name. */
  function AfterNew(s: State, raw: Raw, blank: int): State {
    var l := PlaceOf(raw, s);
    s.(vars := s.vars[raw.x := Ref(l)], heap := s.heap[l := Blanks(raw.size, blank)],
       count := s.count[raw.site := l.k + 1])
  }

  function PlaceOf(raw: Raw, s: State): Loc {
    Loc(raw.site, if raw.site in s.count then s.count[raw.site] else 0)
  }

  lemma DeclEffect(k: Know, c: Ctx, st: Stmt, raw: Raw, t: Outer, j: nat, s: State)
    requires Knows(k, c, s) && RawDecl(st, j, t) == Some(raw)
    requires k.known == t.consts && k.shadowed == t.shadowed && k.funcs == t.funcs && StmtCallees(st) <= k.called
    ensures ExecStmt(c, st, s) == Normal(AfterNew(s, raw, c.blank))
  {
    var e, s2 := st.ds[0].init.value, AfterNew(s, raw, c.blank);
    assert st.ds[1..] == [];
    assert Callees(e.size) <= k.called by {
      assert LetCallees(st.ds) == OptCallees(st.ds[0].init) + LetCallees([]);
    }
    assert Constant(k, e.size) == ConstOf(e.size, t);
    ConstantSame(k, c, e.size, s);
    assert Eval(c, e, s) == Val(Ref(PlaceOf(raw, s)), s2.(vars := s.vars));
    assert ExecLets(c, [], s2) == Normal(s2);
  }

  /** A change confined to hidden names and arrays does not show. */
  lemma HiddenChange(k: Know, s: State, t: State)
    requires s.shared == t.shared && s.trace == t.trace
    requires forall y | y !in k.hidden :: Kept(s, t, y)
    requires forall l: Loc | l.site !in k.sites :: SameAt(s.heap, t.heap, l)
    requires forall n: nat | n !in k.sites :: SameCount(s.count, t.count, n)
    ensures Hide(k, t) == Hide(k, s)
  {
    assert forall y :: y in s.vars - k.hidden <==> y in t.vars - k.hidden by {
      assert forall y | y !in k.hidden :: Kept(s, t, y);
    }
    assert s.vars - k.hidden == t.vars - k.hidden;
    assert Outlying(s.heap, k.sites) == Outlying(t.heap, k.sites);
    assert s.count - k.sites == t.count - k.sites;
  }

  ghost predicate SameAt(h: map<Loc, seq<int>>, h2: map<Loc, seq<int>>, l: Loc) {
    (l in h <==> l in h2) && (l in h ==> h[l] == h2[l])
  }

  ghost predicate SameCount(h: map<nat, nat>, h2: map<nat, nat>, n: nat) {
    (n in h <==> n in h2) && (n in h ==> h[n] == h2[n])
  }

  lemma WriteStep(k: Know, c: Ctx, st: Stmt, x: Name, names: set<Name>, t: Outer, s: State)
    requires Knows(k, c, s) && RoleOf(st, x, names, t).Write? && x in k.arrays && k.arrays[x] in k.held
    requires k.known == t.consts && k.shadowed == t.shadowed && k.funcs == t.funcs && StmtCallees(st) <= k.called
    requires k.arrays[x].site in k.sites
    requires RoleOf(st, x, names, t).k < |k.held[k.arrays[x]]|
    requires forall y | y in k.arrays && y != x :: k.arrays[y] != k.arrays[x]
    ensures var r, l := RoleOf(st, x, names, t), k.arrays[x];
            var k2 := k.(held := k.held[l := k.held[l][r.k := r.v]]);
            var o := ExecStmt(c, st, s);
            o.Normal? && Knows(k2, c, o.s) && Hide(k2, o.s) == Hide(k, s)
  {
    var e, l := st.e, k.arrays[x];
    var r := RoleOf(st, x, names, t);
    assert Constant(k, e.idx) == Some(r.k) && Constant(k, e.rhs) == Some(r.v);
    ConstantSame(k, c, e.idx, s);
    ConstantSame(k, c, e.rhs, s);
    assert Eval(c, e.base, s) == Val(Ref(l), s);
    assert Eval(c, e, s) == Val(Int(r.v), s.(heap := s.heap[l := s.heap[l][r.k := r.v]]));
    WrittenKnown(k, c, x, r.k, r.v, s);
  }

  lemma WrittenKnown(k: Know, c: Ctx, x: Name, i: nat, v: int, s: State)
    requires Knows(k, c, s) && x in k.arrays && k.arrays[x] in k.held && k.arrays[x].site in k.sites
    requires i < |k.held[k.arrays[x]]|
    ensures var l := k.arrays[x];
            var k2, s2 := k.(held := k.held[l := k.held[l][i := v]]), s.(heap := s.heap[l := s.heap[l][i := v]]);
            Knows(k2, c, s2) && Hide(k2, s2) == Hide(k, s)
  {
    var l := k.arrays[x];
    var s2 := s.(heap := s.heap[l := s.heap[l][i := v]]);
    HiddenChange(k, s, s2);
    assert forall y :: Lookup(c, s2, y) == Lookup(c, s, y);
  }

  // ----- what each statement is to each folded array -----

  lemma AcceptedIsNoWrite(st: Stmt, a: Cand, names: set<Name>, t: Outer, isMain: bool)
    requires AcceptsStmt(st, a, t, isMain)
    ensures !RoleOf(st, a.raw.x, names, t).Write?
  {
    match st
    case Do(SetAt(Var(y), _, _, _)) => assert y == a.raw.x ==> !Accepts(st.e.base, y, |a.elems|, t);
    case _ =>
  }

  /** Past its declaration, a statement that is not the array's own does not write it. */
  lemma OthersDoNotWrite(ss: seq<Stmt>, a: Cand, names: set<Name>, t: Outer, isMain: bool, j: nat)
    requires Survives(ss, a, names, t, isMain) && j < |ss| && !Own(ss, j, a, names, t)
    ensures !RoleOf(ss[j], a.raw.x, names, t).Write?
  {
    AcceptedIsNoWrite(ss[j], a, names, t, isMain);
  }

  function Held(ss: seq<Stmt>, a: Cand, names: set<Name>, t: Outer, j: nat, blank: int): seq<int>
    requires j <= |ss|
  {
    Built(Roles(ss, a.raw.x, names, t), a.raw.decl, a.raw.size, j, blank)
  }

  /** After its last write the array holds its elements for good. */
  lemma {:induction false} HeldComplete(ss: seq<Stmt>, a: Cand, names: set<Name>, t: Outer, isMain: bool, j: nat, blank: int)
    requires Good(ss, a, names, t, isMain, blank) && a.last < j <= |ss|
    ensures Held(ss, a, names, t, j, blank) == a.elems
  {
    if j > a.last + 1 {
      HeldComplete(ss, a, names, t, isMain, j - 1, blank);
      OthersDoNotWrite(ss, a, names, t, isMain, j - 1);
    }
  }

  /** A kept statement either does not mention the array, or comes when it is complete. */
  lemma KeptIsUsable(ss: seq<Stmt>, a: Cand, names: set<Name>, t: Outer, isMain: bool, j: nat, k: Know, blank: int)
    requires Good(ss, a, names, t, isMain, blank) && j < |ss| && !Own(ss, j, a, names, t)
    requires j > a.last ==> Ready(k, a)
    ensures UsableStmt(k, a, t, isMain, ss[j])
  {
    if j < a.raw.decl {
      assert !Refers(ss[j], a.raw.x);
    } else if j <= a.last {
      var roles := Roles(ss, a.raw.x, names, t);
      assert InRegion(roles[j], a.raw.size);
    }
  }

  // ----- the whole body -----

  ghost predicate Stage(ss: seq<Stmt>, a: Cand, names: set<Name>, t: Outer, j: nat, k: Know, blank: int)
    requires j <= |ss|
  {
    var x := a.raw.x;
    if j <= a.raw.decl then x !in k.arrays
    else
      && x in k.arrays && k.arrays[x].site == a.raw.site
      && k.arrays[x] in k.held && k.held[k.arrays[x]] == Held(ss, a, names, t, j, blank)
  }

  /** The fixed part of what is known: the names and sites of the plan. */
  ghost predicate Base(ss: seq<Stmt>, plan: seq<Cand>, t: Outer, k: Know) {
    && Hides(k, TableOf(plan), t)
    && (forall i | 0 <= i < |plan| :: plan[i].raw.site in k.sites)
    && (forall n | n in k.sites :: exists i :: 0 <= i < |plan| && plan[i].raw.site == n)
    && CalleesIn(ss) <= k.called
  }

  /** Before statement `j`: every array of the plan is as far as it should be. */
  ghost predicate Fits(ss: seq<Stmt>, plan: seq<Cand>, names: set<Name>, t: Outer, j: nat, k: Know, blank: int)
    requires j <= |ss|
  {
    Base(ss, plan, t, k) && Stages(ss, plan, names, t, j, k, blank) && AllOwned(plan, j, k)
  }

  ghost predicate Stages(ss: seq<Stmt>, plan: seq<Cand>, names: set<Name>, t: Outer, j: nat, k: Know, blank: int)
    requires j <= |ss|
  {
    forall i | 0 <= i < |plan| :: Stage(ss, plan[i], names, t, j, k, blank)
  }

  ghost predicate AllOwned(plan: seq<Cand>, j: nat, k: Know) {
    forall l | l in k.held :: Owned(plan, j, k, l)
  }

  ghost predicate Owner(a: Cand, j: nat, k: Know, l: Loc) {
    a.raw.decl < j && a.raw.x in k.arrays && k.arrays[a.raw.x] == l
  }

  /** Some array of the plan that is already declared lives there. */
  ghost predicate Owned(plan: seq<Cand>, j: nat, k: Know, l: Loc) {
    exists i :: 0 <= i < |plan| && Owner(plan[i], j, k, l)
  }

  /** What the parser and the file guarantee: each `new Array` is a node of its own, and the
      function assigns no constant of the file. */
  ghost predicate Lawful(ss: seq<Stmt>, t: Outer) {
    && (forall i, j | 0 <= i < |ss| && 0 <= j < |ss| && i != j :: StmtSites(ss[i]) !! StmtSites(ss[j]))
    && (forall y | y in WritesIn(ss) && y in t.consts :: y in t.shadowed)
  }

  lemma {:induction false} Member(ss: seq<Stmt>, j: nat)
    requires j < |ss|
    ensures StmtWrites(ss[j]) <= WritesIn(ss) && StmtCallees(ss[j]) <= CalleesIn(ss)
  {
    if j > 0 {
      Member(ss[1..], j - 1);
    }
  }

  lemma DeclParts(st: Stmt, j: nat, raw: Raw, t: Outer)
    requires RawDecl(st, j, t) == Some(raw)
    ensures raw.x in StmtWrites(st) && raw.x in StmtNamesIn(st) && raw.site in StmtSites(st)
    ensures forall x, names :: !RoleOf(st, x, names, t).Write?
    ensures forall a: Cand, isMain :: a.raw.x == raw.x ==> !AcceptsStmt(st, a, t, isMain)
  {
    assert st.ds[0].x == raw.x;
  }

  /** Two folded arrays share neither name nor site. */
  lemma PlanApart(ss: seq<Stmt>, a: Cand, b: Cand, names: set<Name>, t: Outer, isMain: bool, blank: int)
    requires Good(ss, a, names, t, isMain, blank) && Good(ss, b, names, t, isMain, blank)
    requires a.raw.decl != b.raw.decl && Lawful(ss, t)
    ensures a.raw.x != b.raw.x && a.raw.site != b.raw.site
  {
    DeclParts(ss[b.raw.decl], b.raw.decl, b.raw, t);
    DeclParts(ss[a.raw.decl], a.raw.decl, a.raw, t);
    assert !Own(ss, b.raw.decl, a, names, t);
    assert AcceptsStmt(ss[b.raw.decl], a, t, isMain);
  }

  /** The plan of a lawful body, as one bundle. */
  ghost predicate Planned(ss: seq<Stmt>, plan: seq<Cand>, names: set<Name>, t: Outer, isMain: bool, blank: int) {
    && plan == Plan(ss, t, isMain) && names == RawNames(RawDecls(ss, t))
    && Lawful(ss, t)
  }

  lemma PlanFacts(ss: seq<Stmt>, plan: seq<Cand>, names: set<Name>, t: Outer, isMain: bool, blank: int, i: nat, i2: nat)
    requires Planned(ss, plan, names, t, isMain, blank) && i < |plan| && i2 < |plan|
    ensures Good(ss, plan[i], names, t, isMain, blank)
    ensures i != i2 ==> plan[i].raw.decl != plan[i2].raw.decl && plan[i].raw.x != plan[i2].raw.x
                        && plan[i].raw.site != plan[i2].raw.site
  {
    PlanMember(ss, t, isMain, i, blank);
    PlanMember(ss, t, isMain, i2, blank);
    PlanOrdered(ss, t, isMain);
    if i != i2 {
      PlanApart(ss, plan[i], plan[i2], names, t, isMain, blank);
    }
  }

  /** An array that is not touched by statement `j` stays at its stage. */
  lemma StageKept(ss: seq<Stmt>, a: Cand, names: set<Name>, t: Outer, j: nat, k: Know, k2: Know, blank: int)
    requires j < |ss| && Stage(ss, a, names, t, j, k, blank) && j != a.raw.decl
    requires j > a.raw.decl ==> !RoleOf(ss[j], a.raw.x, names, t).Write?
    requires a.raw.x in k2.arrays <==> a.raw.x in k.arrays
    requires a.raw.x in k.arrays ==>
               k2.arrays[a.raw.x] == k.arrays[a.raw.x]
               && (k.arrays[a.raw.x] in k.held ==> k.arrays[a.raw.x] in k2.held
                                                   && k2.held[k.arrays[a.raw.x]] == k.held[k.arrays[a.raw.x]])
    ensures Stage(ss, a, names, t, j + 1, k2, blank)
  {
    if j > a.raw.decl {
      assert Roles(ss, a.raw.x, names, t)[j] == RoleOf(ss[j], a.raw.x, names, t);
    }
  }

  function AfterDecl(k: Know, raw: Raw, l: Loc, blank: int): Know {
    k.(arrays := k.arrays[raw.x := l], held := k.held[l := Blanks(raw.size, blank)])
  }

  /** No folded array made so far comes from the same `new Array`. */
  lemma FreshPlace(ss: seq<Stmt>, plan: seq<Cand>, names: set<Name>, t: Outer, isMain: bool, i: nat, k: Know, blank: int, l: Loc)
    requires Planned(ss, plan, names, t, isMain, blank) && i < |plan| && plan[i].raw.decl < |ss|
    requires Fits(ss, plan, names, t, plan[i].raw.decl, k, blank) && l in k.held
    ensures l.site != plan[i].raw.site
  {
    var j := plan[i].raw.decl;
    assert Owned(plan, j, k, l);
    var i2 :| 0 <= i2 < |plan| && Owner(plan[i2], j, k, l);
    assert Stage(ss, plan[i2], names, t, j, k, blank);
    PlanFacts(ss, plan, names, t, isMain, blank, i, i2);
  }

  lemma DeclRuns(ss: seq<Stmt>, plan: seq<Cand>, names: set<Name>, t: Outer, isMain: bool, i: nat, k: Know, c: Ctx, s: State)
    requires Planned(ss, plan, names, t, isMain, c.blank) && i < |plan| && plan[i].raw.decl < |ss|
    requires Fits(ss, plan, names, t, plan[i].raw.decl, k, c.blank) && Knows(k, c, s)
    ensures var raw := plan[i].raw;
            var k2, o := AfterDecl(k, raw, PlaceOf(raw, s), c.blank), ExecStmt(c, ss[raw.decl], s);
            o.Normal? && Knows(k2, c, o.s) && Hide(k2, o.s) == Hide(k, s)
  {
    var a, j := plan[i], plan[i].raw.decl;
    PlanFacts(ss, plan, names, t, isMain, c.blank, i, i);
    DeclParts(ss[j], j, a.raw, t);
    Member(ss, j);
    assert Stage(ss, a, names, t, j, k, c.blank);
    forall l | l in k.held
      ensures l.site != a.raw.site
    {
      FreshPlace(ss, plan, names, t, isMain, i, k, c.blank, l);
    }
    InTable(plan, i);
    DeclStep(k, c, ss[j], a.raw, t, j, s);
  }

  lemma DeclStage(ss: seq<Stmt>, plan: seq<Cand>, names: set<Name>, t: Outer, isMain: bool, i: nat, i2: nat, k: Know, blank: int, l: Loc)
    requires Planned(ss, plan, names, t, isMain, blank) && i < |plan| && i2 < |plan| && plan[i].raw.decl < |ss|
    requires Fits(ss, plan, names, t, plan[i].raw.decl, k, blank) && l.site == plan[i].raw.site
    ensures Stage(ss, plan[i2], names, t, plan[i].raw.decl + 1, AfterDecl(k, plan[i].raw, l, blank), blank)
  {
    var j, k2 := plan[i].raw.decl, AfterDecl(k, plan[i].raw, l, blank);
    PlanFacts(ss, plan, names, t, isMain, blank, i, i2);
    assert Stage(ss, plan[i2], names, t, j, k, blank);
    if i2 != i {
      DeclParts(ss[j], j, plan[i].raw, t);
      StageKept(ss, plan[i2], names, t, j, k, k2, blank);
    }
  }

  lemma DeclStages(ss: seq<Stmt>, plan: seq<Cand>, names: set<Name>, t: Outer, isMain: bool, i: nat, k: Know, blank: int, l: Loc)
    requires Planned(ss, plan, names, t, isMain, blank) && i < |plan| && plan[i].raw.decl < |ss|
    requires Fits(ss, plan, names, t, plan[i].raw.decl, k, blank) && l.site == plan[i].raw.site
    ensures Stages(ss, plan, names, t, plan[i].raw.decl + 1, AfterDecl(k, plan[i].raw, l, blank), blank)
  {
    forall i2: nat | i2 < |plan|
      ensures Stage(ss, plan[i2], names, t, plan[i].raw.decl + 1, AfterDecl(k, plan[i].raw, l, blank), blank)
    {
      DeclStage(ss, plan, names, t, isMain, i, i2, k, blank, l);
    }
  }

  lemma DeclOwned(plan: seq<Cand>, i: nat, k: Know, blank: int, l: Loc)
    requires i < |plan| && plan[i].raw.x !in k.arrays && AllOwned(plan, plan[i].raw.decl, k)
    ensures AllOwned(plan, plan[i].raw.decl + 1, AfterDecl(k, plan[i].raw, l, blank))
  {
    forall l2 | l2 in AfterDecl(k, plan[i].raw, l, blank).held
      ensures Owned(plan, plan[i].raw.decl + 1, AfterDecl(k, plan[i].raw, l, blank), l2)
    {
      OwnedAfterDecl(plan, i, k, blank, l, l2);
    }
  }

  /** The declaration of `plan[i]`. */
  lemma DeclFits(ss: seq<Stmt>, plan: seq<Cand>, names: set<Name>, t: Outer, isMain: bool, i: nat, k: Know, blank: int, l: Loc)
    requires Planned(ss, plan, names, t, isMain, blank) && i < |plan| && plan[i].raw.decl < |ss|
    requires Fits(ss, plan, names, t, plan[i].raw.decl, k, blank) && l.site == plan[i].raw.site
    ensures Fits(ss, plan, names, t, plan[i].raw.decl + 1, AfterDecl(k, plan[i].raw, l, blank), blank)
  {
    assert Stage(ss, plan[i], names, t, plan[i].raw.decl, k, blank);
    DeclStages(ss, plan, names, t, isMain, i, k, blank, l);
    DeclOwned(plan, i, k, blank, l);
  }

  lemma OwnedAfterDecl(plan: seq<Cand>, i: nat, k: Know, blank: int, l: Loc, l2: Loc)
    requires i < |plan| && l2 in AfterDecl(k, plan[i].raw, l, blank).held
    requires plan[i].raw.x !in k.arrays && (l2 in k.held ==> Owned(plan, plan[i].raw.decl, k, l2))
    ensures Owned(plan, plan[i].raw.decl + 1, AfterDecl(k, plan[i].raw, l, blank), l2)
  {
    var j, k2 := plan[i].raw.decl, AfterDecl(k, plan[i].raw, l, blank);
    if l2 == l {
      assert Owner(plan[i], j + 1, k2, l2);
    } else {
      var i2 :| 0 <= i2 < |plan| && Owner(plan[i2], j, k, l2);
      assert Owner(plan[i2], j + 1, k2, l2);
    }
  }

  lemma StillOwned(ss: seq<Stmt>, plan: seq<Cand>, names: set<Name>, t: Outer, j: nat, k: Know, k2: Know, blank: int, l: Loc, x: Name)
    requires j <= |ss| && Fits(ss, plan, names, t, j, k, blank) && l in k.held
    requires forall y | y in k.arrays && y != x :: y in k2.arrays && k2.arrays[y] == k.arrays[y]
    requires x in k.arrays ==> x in k2.arrays && k2.arrays[x] == k.arrays[x]
    ensures Owned(plan, j + 1, k2, l)
  {
    assert Owned(plan, j, k, l);
    var i2 :| 0 <= i2 < |plan| && Owner(plan[i2], j, k, l);
    assert Owner(plan[i2], j + 1, k2, l);
  }

  lemma {:induction false} InTable(plan: seq<Cand>, i: nat)
    requires i < |plan|
    ensures plan[i].raw.x in TableOf(plan)
  {
    var n := |plan| - 1;
    if i < n {
      InTable(plan[..n], i);
      assert plan[..n][i] == plan[i];
    }
  }

  /** Different folded arrays live in different places. */
  lemma OtherPlace(ss: seq<Stmt>, plan: seq<Cand>, names: set<Name>, t: Outer, isMain: bool, i: nat, j: nat, k: Know, blank: int, y: Name)
    requires Planned(ss, plan, names, t, isMain, blank) && i < |plan| && j <= |ss| && plan[i].raw.decl < j
    requires Fits(ss, plan, names, t, j, k, blank) && k.arrays.Keys <= k.hidden
    requires y in k.arrays && y != plan[i].raw.x
    ensures k.arrays[y] != k.arrays[plan[i].raw.x]
  {
    var b := TableOf(plan)[y];
    var i2 :| 0 <= i2 < |plan| && plan[i2] == b;
    PlanFacts(ss, plan, names, t, isMain, blank, i, i2);
    assert Stage(ss, plan[i], names, t, j, k, blank);
    assert Stage(ss, plan[i2], names, t, j, k, blank);
  }

  lemma OtherStage(ss: seq<Stmt>, plan: seq<Cand>, names: set<Name>, t: Outer, isMain: bool, i: nat, i2: nat, j: nat,
                   k: Know, k2: Know, blank: int)
    requires Planned(ss, plan, names, t, isMain, blank) && i < |plan| && i2 < |plan| && i != i2 && j < |ss|
    requires plan[i].raw.decl < j && RoleOf(ss[j], plan[i].raw.x, names, t).Write?
    requires Fits(ss, plan, names, t, j, k, blank)
    requires k2 == k.(held := k2.held)
    requires forall l | l in k.held && l != k.arrays[plan[i].raw.x] :: l in k2.held && k2.held[l] == k.held[l]
    ensures Stage(ss, plan[i2], names, t, j + 1, k2, blank)
  {
    PlanFacts(ss, plan, names, t, isMain, blank, i, i2);
    PlanFacts(ss, plan, names, t, isMain, blank, i2, i2);
    assert Stage(ss, plan[i], names, t, j, k, blank);
    assert Stage(ss, plan[i2], names, t, j, k, blank);
    DeclParts(ss[plan[i2].raw.decl], plan[i2].raw.decl, plan[i2].raw, t);
    StageKept(ss, plan[i2], names, t, j, k, k2, blank);
  }

  function AfterWrite(k: Know, x: Name, r: Role): Know
    requires r.Write? && x in k.arrays && k.arrays[x] in k.held && r.k < |k.held[k.arrays[x]]|
  {
    var l := k.arrays[x];
    k.(held := k.held[l := k.held[l][r.k := r.v]])
  }

  ghost predicate Writing(ss: seq<Stmt>, plan: seq<Cand>, names: set<Name>, t: Outer, isMain: bool, i: nat, j: nat, k: Know, blank: int) {
    && Planned(ss, plan, names, t, isMain, blank) && i < |plan| && j < |ss|
    && plan[i].raw.decl < j <= plan[i].last && RoleOf(ss[j], plan[i].raw.x, names, t).Write?
    && Fits(ss, plan, names, t, j, k, blank)
  }

  lemma WriteInside(ss: seq<Stmt>, plan: seq<Cand>, names: set<Name>, t: Outer, isMain: bool, i: nat, j: nat, k: Know, blank: int)
    requires Writing(ss, plan, names, t, isMain, i, j, k, blank)
    ensures var x := plan[i].raw.x;
            && x in k.arrays && k.arrays[x] in k.held && k.arrays[x].site in k.sites
            && |k.held[k.arrays[x]]| == plan[i].raw.size && RoleOf(ss[j], x, names, t).k < plan[i].raw.size
  {
    var a := plan[i];
    PlanFacts(ss, plan, names, t, isMain, blank, i, i);
    assert Stage(ss, a, names, t, j, k, blank);
    assert InRegion(Roles(ss, a.raw.x, names, t)[j], a.raw.size);
  }

  lemma WriteRuns(ss: seq<Stmt>, plan: seq<Cand>, names: set<Name>, t: Outer, isMain: bool, i: nat, j: nat, k: Know, c: Ctx, s: State)
    requires Writing(ss, plan, names, t, isMain, i, j, k, c.blank) && Knows(k, c, s)
    ensures var x := plan[i].raw.x;
            && x in k.arrays && k.arrays[x] in k.held && RoleOf(ss[j], x, names, t).k < |k.held[k.arrays[x]]|
            && var k2, o := AfterWrite(k, x, RoleOf(ss[j], x, names, t)), ExecStmt(c, ss[j], s);
               o.Normal? && Knows(k2, c, o.s) && Hide(k2, o.s) == Hide(k, s)
  {
    var x := plan[i].raw.x;
    WriteInside(ss, plan, names, t, isMain, i, j, k, c.blank);
    Member(ss, j);
    forall y | y in k.arrays && y != x
      ensures k.arrays[y] != k.arrays[x]
    {
      OtherPlace(ss, plan, names, t, isMain, i, j, k, c.blank, y);
    }
    WriteStep(k, c, ss[j], x, names, t, s);
  }

  /** A write to `plan[i]`. */
  lemma WriteFits(ss: seq<Stmt>, plan: seq<Cand>, names: set<Name>, t: Outer, isMain: bool, i: nat, j: nat, k: Know, blank: int)
    requires Writing(ss, plan, names, t, isMain, i, j, k, blank)
    ensures var x := plan[i].raw.x;
            && x in k.arrays && k.arrays[x] in k.held && RoleOf(ss[j], x, names, t).k < |k.held[k.arrays[x]]|
            && Fits(ss, plan, names, t, j + 1, AfterWrite(k, x, RoleOf(ss[j], x, names, t)), blank)
  {
    WriteInside(ss, plan, names, t, isMain, i, j, k, blank);
    var x := plan[i].raw.x;
    var k2 := AfterWrite(k, x, RoleOf(ss[j], x, names, t));
    forall i2: nat | i2 < |plan|
      ensures Stage(ss, plan[i2], names, t, j + 1, k2, blank)
    {
      assert Stage(ss, plan[i2], names, t, j, k, blank);
      if i2 != i {
        OtherStage(ss, plan, names, t, isMain, i, i2, j, k, k2, blank);
      }
    }
    forall l | l in k2.held
      ensures Owned(plan, j + 1, k2, l)
    {
      StillOwned(ss, plan, names, t, j, k, k2, blank, l, x);
    }
  }

  // ----- kept statements -----

  lemma KeptStage(ss: seq<Stmt>, plan: seq<Cand>, names: set<Name>, t: Outer, isMain: bool, i: nat, j: nat, k: Know, blank: int)
    requires Planned(ss, plan, names, t, isMain, blank) && i < |plan| && j < |ss|
    requires Fits(ss, plan, names, t, j, k, blank) && !Own(ss, j, plan[i], names, t)
    ensures Stage(ss, plan[i], names, t, j + 1, k, blank) && UsableStmt(k, plan[i], t, isMain, ss[j])
  {
    PlanFacts(ss, plan, names, t, isMain, blank, i, i);
    assert Stage(ss, plan[i], names, t, j, k, blank);
    OthersDoNotWrite(ss, plan[i], names, t, isMain, j);
    StageKept(ss, plan[i], names, t, j, k, k, blank);
    if j > plan[i].last {
      HeldComplete(ss, plan[i], names, t, isMain, j, blank);
    }
    KeptIsUsable(ss, plan[i], names, t, isMain, j, k, blank);
  }

  lemma KeptFits(ss: seq<Stmt>, plan: seq<Cand>, names: set<Name>, t: Outer, isMain: bool, j: nat, k: Know, blank: int)
    requires Planned(ss, plan, names, t, isMain, blank) && j < |ss|
    requires Fits(ss, plan, names, t, j, k, blank) && !Deleted(ss, j, plan, names, t)
    ensures Fits(ss, plan, names, t, j + 1, k, blank)
  {
    forall i: nat | i < |plan|
      ensures Stage(ss, plan[i], names, t, j + 1, k, blank)
    {
      KeptStage(ss, plan, names, t, isMain, i, j, k, blank);
    }
    forall l | l in k.held
      ensures Owned(plan, j + 1, k, l)
    {
      StillOwned(ss, plan, names, t, j, k, k, blank, l, "");
    }
  }

  lemma KeptSites(ss: seq<Stmt>, plan: seq<Cand>, names: set<Name>, t: Outer, isMain: bool, j: nat, k: Know, blank: int)
    requires Planned(ss, plan, names, t, isMain, blank) && j < |ss|
    requires Base(ss, plan, t, k) && !Deleted(ss, j, plan, names, t)
    ensures StmtSites(ss[j]) !! k.sites
  {
    forall n | n in k.sites
      ensures n !in StmtSites(ss[j])
    {
      var i :| 0 <= i < |plan| && plan[i].raw.site == n;
      PlanFacts(ss, plan, names, t, isMain, blank, i, i);
      var d := plan[i].raw.decl;
      DeclParts(ss[d], d, plan[i].raw, t);
      assert !Own(ss, j, plan[i], names, t);
      assert StmtSites(ss[d]) !! StmtSites(ss[j]);
    }
  }

  lemma KeptRefines(ss: seq<Stmt>, plan: seq<Cand>, names: set<Name>, t: Outer, isMain: bool, j: nat, k: Know, blank: int)
    requires Planned(ss, plan, names, t, isMain, blank) && j < |ss|
    requires Fits(ss, plan, names, t, j, k, blank) && !Deleted(ss, j, plan, names, t)
    ensures RefinesStmt(k, ss[j], RewriteStmt(ss[j], TableOf(plan), t))
  {
    var m := TableOf(plan);
    forall x | x in m
      ensures UsableStmt(k, m[x], t, isMain, ss[j])
    {
      var i :| 0 <= i < |plan| && plan[i] == m[x];
      KeptStage(ss, plan, names, t, isMain, i, j, k, blank);
    }
    Member(ss, j);
    KeptSites(ss, plan, names, t, isMain, j, k, blank);
    StmtRefines(k, ss[j], m, t, isMain);
  }

  // ----- every run -----

  /** The same ending in the same state less the folded arrays; a folded array that `main`
      returns comes back as its elements. */
  ghost predicate SameRun(k: Know, o: Out, o2: Out) {
    match o
    case Normal(s) => o2 == Normal(Hide(k, s))
    case Broke(s) => o2 == Broke(Hide(k, s))
    case Continued(s) => o2 == Continued(Hide(k, s))
    case Returned(r, s) =>
      && o2.Returned? && o2.s == Hide(k, s)
      && (|| (r == o2.result && (r.Some? ==> Visible(k, r.value)))
          || (&& r.Some? && r.value.Ref? && r.value.loc.site in k.sites && r.value.loc in s.heap
              && o2.result == Some(Packed(s.heap[r.value.loc]))))
    case _ => o2 == o
  }

  lemma OutSameRun(k: Know, c: Ctx, o: Out, o2: Out)
    requires SameOut(k, c, o, o2) && KnowsCode(k, c)
    ensures SameRun(k, o, o2)
  {
  }

  lemma ExecFrom(c: Ctx, ss: seq<Stmt>, j: nat, s: State)
    requires j < |ss|
    ensures Exec(c, ss[j..], s) == Then(c, ExecStmt(c, ss[j], s), ss[j + 1..])
  {
    assert ss[j..][0] == ss[j] && ss[j..][1..] == ss[j + 1..];
  }

  lemma {:induction false} RunFrom(ss: seq<Stmt>, plan: seq<Cand>, names: set<Name>, t: Outer, isMain: bool, j: nat,
                                   k: Know, c: Ctx, s: State)
    requires Planned(ss, plan, names, t, isMain, c.blank) && j <= |ss|
    requires Fits(ss, plan, names, t, j, k, c.blank) && Knows(k, c, s)
    ensures SameRun(k, Exec(c, ss[j..], s), Exec(c, Survivors(ss, j, plan, names, t), Hide(k, s)))
    decreases |ss| - j
  {
    if j < |ss| {
      ExecFrom(c, ss, j, s);
      var o := ExecStmt(c, ss[j], s);
      if Deleted(ss, j, plan, names, t) {
        var k2 := DeletedStep(ss, plan, names, t, isMain, j, k, c, s);
        RunFrom(ss, plan, names, t, isMain, j + 1, k2, c, o.s);
      } else {
        KeptStep(ss, plan, names, t, isMain, j, k, c, s);
        if o.Normal? {
          RunFrom(ss, plan, names, t, isMain, j + 1, k, c, o.s);
        }
        KeptJoins(c, RewriteStmt(ss[j], TableOf(plan), t), Survivors(ss, j + 1, plan, names, t), k, o, ss[j + 1..], s);
      }
    }
  }

  lemma KeptJoins(c: Ctx, st2: Stmt, rest2: seq<Stmt>, k: Know, o: Out, rest: seq<Stmt>, s: State)
    requires SameRun(k, o, ExecStmt(c, st2, Hide(k, s)))
    requires o.Normal? ==> SameRun(k, Exec(c, rest, o.s), Exec(c, rest2, Hide(k, o.s)))
    ensures SameRun(k, Then(c, o, rest), Exec(c, [st2] + rest2, Hide(k, s)))
  {
    ExecCons(c, st2, rest2, Hide(k, s));
  }

  /** From one known point to the next, with nothing to show for it. */
  ghost predicate Moves(ss: seq<Stmt>, plan: seq<Cand>, names: set<Name>, t: Outer, j: nat, k: Know, k2: Know, c: Ctx, s: State)
    requires j < |ss|
  {
    var o := ExecStmt(c, ss[j], s);
    && o.Normal? && Knows(k2, c, o.s) && Fits(ss, plan, names, t, j + 1, k2, c.blank)
    && k2.hidden == k.hidden && k2.sites == k.sites && Hide(k2, o.s) == Hide(k, s)
  }

  lemma DeclMoves(ss: seq<Stmt>, plan: seq<Cand>, names: set<Name>, t: Outer, isMain: bool, i: nat, k: Know, c: Ctx, s: State)
    requires Planned(ss, plan, names, t, isMain, c.blank) && i < |plan| && plan[i].raw.decl < |ss|
    requires Fits(ss, plan, names, t, plan[i].raw.decl, k, c.blank) && Knows(k, c, s)
    ensures Moves(ss, plan, names, t, plan[i].raw.decl, k, AfterDecl(k, plan[i].raw, PlaceOf(plan[i].raw, s), c.blank), c, s)
  {
    DeclRuns(ss, plan, names, t, isMain, i, k, c, s);
    DeclFits(ss, plan, names, t, isMain, i, k, c.blank, PlaceOf(plan[i].raw, s));
  }

  lemma WriteMoves(ss: seq<Stmt>, plan: seq<Cand>, names: set<Name>, t: Outer, isMain: bool, i: nat, j: nat, k: Know, c: Ctx, s: State)
    returns (k2: Know)
    requires Writing(ss, plan, names, t, isMain, i, j, k, c.blank) && Knows(k, c, s)
    ensures Moves(ss, plan, names, t, j, k, k2, c, s)
  {
    WriteRuns(ss, plan, names, t, isMain, i, j, k, c, s);
    WriteFits(ss, plan, names, t, isMain, i, j, k, c.blank);
    k2 := AfterWrite(k, plan[i].raw.x, RoleOf(ss[j], plan[i].raw.x, names, t));
  }

  /** A construction statement changes only what is hidden. */
  lemma DeletedStep(ss: seq<Stmt>, plan: seq<Cand>, names: set<Name>, t: Outer, isMain: bool, j: nat,
                    k: Know, c: Ctx, s: State) returns (k2: Know)
    requires Planned(ss, plan, names, t, isMain, c.blank) && j < |ss| && Deleted(ss, j, plan, names, t)
    requires Fits(ss, plan, names, t, j, k, c.blank) && Knows(k, c, s)
    ensures Moves(ss, plan, names, t, j, k, k2, c, s)
  {
    var i: nat :| i < |plan| && Own(ss, j, plan[i], names, t);
    if j == plan[i].raw.decl {
      k2 := AfterDecl(k, plan[i].raw, PlaceOf(plan[i].raw, s), c.blank);
      DeclMoves(ss, plan, names, t, isMain, i, k, c, s);
    } else {
      k2 := WriteMoves(ss, plan, names, t, isMain, i, j, k, c, s);
    }
  }

  /** Any other statement does the same without the folded arrays. */
  lemma KeptStep(ss: seq<Stmt>, plan: seq<Cand>, names: set<Name>, t: Outer, isMain: bool, j: nat, k: Know, c: Ctx, s: State)
    requires Planned(ss, plan, names, t, isMain, c.blank) && j < |ss| && !Deleted(ss, j, plan, names, t)
    requires Fits(ss, plan, names, t, j, k, c.blank) && Knows(k, c, s)
    ensures var o, o2 := ExecStmt(c, ss[j], s), ExecStmt(c, RewriteStmt(ss[j], TableOf(plan), t), Hide(k, s));
            SameRun(k, o, o2) && (o.Normal? ==> Knows(k, c, o.s) && Fits(ss, plan, names, t, j + 1, k, c.blank))
  {
    var st2 := RewriteStmt(ss[j], TableOf(plan), t);
    KeptRefines(ss, plan, names, t, isMain, j, k, c.blank);
    StmtSame(k, c, ss[j], st2, s);
    OutSameRun(k, c, ExecStmt(c, ss[j], s), ExecStmt(c, st2, Hide(k, s)));
    KeptFits(ss, plan, names, t, isMain, j, k, c.blank);
  }

  // ----- the theorem -----

  /** At the start nothing of the folded arrays is known, and none of them exists. */
  function Start(ss: seq<Stmt>, t: Outer, isMain: bool): Know {
    var plan := Plan(ss, t, isMain);
    Know(t.consts, t.shadowed, t.funcs, CalleesIn(ss), TableOf(plan).Keys, map[], map[], PlanSites(plan))
  }

  function PlanSites(plan: seq<Cand>): set<nat> {
    set a | a in plan :: a.raw.site
  }

  /** The run starts with constants as the file says, and with no array of this run made yet. */
  ghost predicate StartsClean(ss: seq<Stmt>, t: Outer, isMain: bool, c: Ctx, s: State) {
    var k := Start(ss, t, isMain);
    && Uncaptured(c, t.consts, t.funcs, t.shadowed, CalleesIn(ss))
    && (forall x | x in t.consts && x !in t.shadowed :: Lookup(c, s, x) == Some(Int(t.consts[x])))
    && Private(k, s.vars) && Unshared(k, s.shared)
  }

  lemma StartFits(ss: seq<Stmt>, t: Outer, isMain: bool, blank: int)
    ensures Fits(ss, Plan(ss, t, isMain), RawNames(RawDecls(ss, t)), t, 0, Start(ss, t, isMain), blank)
  {
    var k, plan := Start(ss, t, isMain), Plan(ss, t, isMain);
    forall i: nat | i < |plan|
      ensures plan[i].raw.site in k.sites
    {
      assert plan[i] in plan;
    }
    forall n | n in k.sites
      ensures exists i :: 0 <= i < |plan| && plan[i].raw.site == n
    {
      var a :| a in plan && a.raw.site == n;
      var i :| 0 <= i < |plan| && plan[i] == a;
    }
  }

  /** For every body, whatever folds: the folded body runs as the original does. */
  lemma FoldingPreservesRuns(ss: seq<Stmt>, t: Outer, isMain: bool, c: Ctx, s: State)
    requires Lawful(ss, t) && StartsClean(ss, t, isMain, c, s)
    ensures var k := Start(ss, t, isMain);
            SameRun(k, Exec(c, ss, s), Exec(c, FoldArrays(ss, t, isMain), Hide(k, s)))
  {
    StartFits(ss, t, isMain, c.blank);
    assert ss[0..] == ss;
    RunFrom(ss, Plan(ss, t, isMain), RawNames(RawDecls(ss, t)), t, isMain, 0, Start(ss, t, isMain), c, s);
  }

  /** What a caller sees of a result: a number, or the elements of an array. */
  function Seen(o: Out): Option<Value> {
    if !o.Returned? || o.result == None then None
    else
      match Contents(o.result.value, o.s.heap)
      case Some(elems) => Some(Packed(elems))
      case None => o.result
  }

  /** So the function returns when the original does, with a result its caller cannot tell
      from the original's, after the same calls to the rest of the world. */
  lemma FoldingPreservesResult(ss: seq<Stmt>, t: Outer, isMain: bool, c: Ctx, s: State)
    requires Lawful(ss, t) && StartsClean(ss, t, isMain, c, s)
    ensures var o, o2 := Exec(c, ss, s), Exec(c, FoldArrays(ss, t, isMain), Hide(Start(ss, t, isMain), s));
            && (o.Returned? <==> o2.Returned?) && (o.Normal? <==> o2.Normal?) && (o.Diverged? <==> o2.Diverged?)
            && (o.Thrown? || o2.Thrown? ==> o == o2)
            && Seen(o) == Seen(o2)
            && (o.Returned? || o.Normal? ==> o.s.trace == o2.s.trace)
  {
    FoldingPreservesRuns(ss, t, isMain, c, s);
  }

  /** A state without any of the folded names, arrays or counts is the same for both. */
  lemma NothingToHide(k: Know, s: State)
    requires s.vars.Keys !! k.hidden && s.count.Keys !! k.sites && (forall l | l in s.heap :: l.site !in k.sites)
    ensures Hide(k, s) == s
  {
    assert s.vars - k.hidden == s.vars;
    assert s.count - k.sites == s.count;
    assert Outlying(s.heap, k.sites) == s.heap;
  }

  /** And a function is entered so: run from one and the same state, before any of its arrays is
      made, original and folded body return the same to the caller. */
  lemma FoldingInvisible(ss: seq<Stmt>, t: Outer, isMain: bool, c: Ctx, s: State)
    requires Lawful(ss, t) && StartsClean(ss, t, isMain, c, s)
    requires var k := Start(ss, t, isMain);
             s.vars.Keys !! k.hidden && s.count.Keys !! k.sites && forall l | l in s.heap :: l.site !in k.sites
    ensures var o, o2 := Exec(c, ss, s), Exec(c, FoldArrays(ss, t, isMain), s);
            && (o.Returned? <==> o2.Returned?) && (o.Normal? <==> o2.Normal?) && (o.Diverged? <==> o2.Diverged?)
            && (o.Thrown? || o2.Thrown? ==> o == o2)
            && Seen(o) == Seen(o2)
            && (o.Returned? || o.Normal? ==> o.s.trace == o2.s.trace)
  {
    NothingToHide(Start(ss, t, isMain), s);
    FoldingPreservesResult(ss, t, isMain, c, s);
  }
}
