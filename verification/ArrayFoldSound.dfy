/** Why a function runs the same without its folded arrays. */
module ArrayFoldSound {
  import opened Arith
  import opened TsLang
  import opened TsRewrite
  import opened TsRewriteStmts
  import opened TsFrame
  import opened LocalConst
  import opened ArrayFold

  // ----- construction -----

  /** What the array holds just before statement `j`, once it exists. */
  function Built(roles: seq<Role>, decl: nat, size: nat, j: nat, blank: int): (r: seq<int>)
    requires j <= |roles|
    ensures |r| == size
    decreases j
  {
    if j <= decl + 1 then Blanks(size, blank)
    else
      var was := Built(roles, decl, size, j - 1, blank);
      match roles[j - 1]
      case Write(k, v) => if k < size then was[k := v] else was
      case _ => was
  }

  /** Inside the region a statement writes one element, or does not mention the array. */
  ghost predicate Region(roles: seq<Role>, size: nat, decl: nat, last: nat) {
    && decl < last < |roles|
    && AllInside(roles, decl, last + 1, size)
  }

  ghost predicate AllInside(roles: seq<Role>, decl: nat, end: nat, size: nat)
    requires end <= |roles|
  {
    forall j | decl < j < end :: InRegion(roles[j], size)
  }

  predicate InRegion(r: Role, size: nat) {
    r.Apart? || (r.Write? && r.k < size)
  }

  ghost predicate Partly(got: seq<Option<int>>, held: seq<int>, blank: int) {
    |got| == |held| && forall k | 0 <= k < |held| :: held[k] == if got[k].Some? then got[k].value else blank
  }

  lemma {:induction false} ClassifyBuilds(roles: seq<Role>, j: nat, size: nat, decl: nat, got: seq<Option<int>>, blank: int)
    requires decl < j <= |roles|
    requires Partly(got, Built(roles, decl, size, j, blank), blank)
    requires AllInside(roles, decl, j, size)
    requires Classify(roles, j, got).Some?
    ensures var (last, elems) := Classify(roles, j, got).value;
            Region(roles, size, decl, last) && elems == Built(roles, decl, size, last + 1, blank)
    decreases |roles| - j
  {
    var r := roles[j];
    var got2 := if r.Write? then got[r.k := Some(r.v)] else got;
    OneMoreRole(roles, j, size, decl, got, got2, blank);
    if r.Write? && Full(got2) {
      assert Gathered(got2) == Built(roles, decl, size, j + 1, blank);
    } else {
      ClassifyBuilds(roles, j + 1, size, decl, got2, blank);
    }
  }

  lemma OneMoreRole(roles: seq<Role>, j: nat, size: nat, decl: nat, got: seq<Option<int>>, got2: seq<Option<int>>, blank: int)
    requires decl < j < |roles| && InRegion(roles[j], size) && AllInside(roles, decl, j, size)
    requires Partly(got, Built(roles, decl, size, j, blank), blank)
    requires got2 == if roles[j].Write? then got[roles[j].k := Some(roles[j].v)] else got
    ensures AllInside(roles, decl, j + 1, size) && Partly(got2, Built(roles, decl, size, j + 1, blank), blank)
  {
  }

  // ----- the plan -----

  ghost predicate GoodRaw(ss: seq<Stmt>, r: Raw, t: Outer) {
    r.decl < |ss| && RawDecl(ss[r.decl], r.decl, t) == Some(r)
  }

  ghost predicate Ascending(rs: seq<Raw>) {
    forall i, j | 0 <= i < j < |rs| :: rs[i].decl < rs[j].decl
  }

  /** A candidate that may be folded. */
  ghost predicate Good(ss: seq<Stmt>, a: Cand, names: set<Name>, t: Outer, isMain: bool, blank: int) {
    && GoodRaw(ss, a.raw, t) && a.raw.x in names
    && Region(Roles(ss, a.raw.x, names, t), a.raw.size, a.raw.decl, a.last)
    && a.elems == Built(Roles(ss, a.raw.x, names, t), a.raw.decl, a.raw.size, a.last + 1, blank)
    && Survives(ss, a, names, t, isMain)
  }

  lemma {:induction false} RawsGood(ss: seq<Stmt>, n: nat, t: Outer)
    requires n <= |ss|
    ensures var rs := RawsAmong(ss, n, t);
            (forall i | 0 <= i < |rs| :: GoodRaw(ss, rs[i], t) && rs[i].decl < n) && Ascending(rs)
  {
    if n > 0 {
      RawsGood(ss, n - 1, t);
    }
  }

  lemma ConstructGood(ss: seq<Stmt>, r: Raw, names: set<Name>, t: Outer, isMain: bool, blank: int)
    requires GoodRaw(ss, r, t) && r.x in names && Construct(ss, r, names, t).Some?
    requires Survives(ss, Construct(ss, r, names, t).value, names, t, isMain)
    ensures var a := Construct(ss, r, names, t).value;
            a.raw == r && Good(ss, a, names, t, isMain, blank)
  {
    ClassifyBuilds(Roles(ss, r.x, names, t), r.decl + 1, r.size, r.decl, Unwritten(r.size), blank);
  }

  ghost predicate Ordered(plan: seq<Cand>, end: int) {
    && (forall i | 0 <= i < |plan| :: plan[i].raw.decl < end)
    && (forall i, j | 0 <= i < j < |plan| :: plan[i].raw.decl < plan[j].raw.decl)
  }

  lemma {:induction false} SelectOrdered(ss: seq<Stmt>, rs: seq<Raw>, n: nat, names: set<Name>, t: Outer, isMain: bool)
    requires n <= |rs| && Ascending(rs)
    ensures Ordered(Select(ss, rs, n, names, t, isMain), if n == 0 then 0 else rs[n - 1].decl + 1)
  {
    if n > 0 {
      SelectOrdered(ss, rs, n - 1, names, t, isMain);
      var a := Construct(ss, rs[n - 1], names, t);
      var rest, end := Select(ss, rs, n - 1, names, t, isMain), if n == 1 then 0 else rs[n - 2].decl + 1;
      assert end <= rs[n - 1].decl;
      if a.Some? {
        OneMoreOrdered(rest, end, a.value);
      }
    }
  }

  lemma OneMoreOrdered(plan: seq<Cand>, end: int, a: Cand)
    requires Ordered(plan, end) && end <= a.raw.decl
    ensures Ordered(plan + [a], a.raw.decl + 1)
  {
  }

  /** Every selected candidate was constructed from some declaration and survives. */
  lemma {:induction false} SelectFrom(ss: seq<Stmt>, rs: seq<Raw>, n: nat, names: set<Name>, t: Outer, isMain: bool, i: nat)
    returns (j: nat)
    requires n <= |rs| && i < |Select(ss, rs, n, names, t, isMain)|
    ensures j < |rs| && Construct(ss, rs[j], names, t) == Some(Select(ss, rs, n, names, t, isMain)[i])
    ensures Survives(ss, Construct(ss, rs[j], names, t).value, names, t, isMain)
  {
    if i < |Select(ss, rs, n - 1, names, t, isMain)| {
      j := SelectFrom(ss, rs, n - 1, names, t, isMain, i);
    } else {
      j := n - 1;
    }
  }

  lemma PlanMember(ss: seq<Stmt>, t: Outer, isMain: bool, i: nat, blank: int)
    requires i < |Plan(ss, t, isMain)|
    ensures Good(ss, Plan(ss, t, isMain)[i], RawNames(RawDecls(ss, t)), t, isMain, blank)
  {
    var rs := RawDecls(ss, t);
    RawsGood(ss, |ss|, t);
    var j := SelectFrom(ss, rs, |rs|, RawNames(rs), t, isMain, i);
    ConstructGood(ss, rs[j], RawNames(rs), t, isMain, blank);
  }

  lemma PlanOrdered(ss: seq<Stmt>, t: Outer, isMain: bool)
    ensures Ordered(Plan(ss, t, isMain), |ss|)
  {
    var rs := RawDecls(ss, t);
    RawsGood(ss, |ss|, t);
    SelectOrdered(ss, rs, |rs|, RawNames(rs), t, isMain);
  }

  // ----- rewriting a statement that is kept -----

  /** The array is there, complete. */
  ghost predicate Ready(k: Know, a: Cand) {
    a.raw.x in k.arrays && k.arrays[a.raw.x] in k.held && k.held[k.arrays[a.raw.x]] == a.elems
  }

  ghost predicate Usable(k: Know, a: Cand, t: Outer, e: Expr) {
    a.raw.x !in Mentions(e) || (Ready(k, a) && Accepts(e, a.raw.x, |a.elems|, t))
  }

  /** What is hidden is exactly the folded arrays. */
  ghost predicate Hides(k: Know, m: Table, t: Outer) {
    && k.hidden == m.Keys && (forall x | x in m :: m[x].raw.x == x)
    && k.known == t.consts && k.shadowed == t.shadowed && k.funcs == t.funcs
  }

  ghost predicate Legal(k: Know, written: set<Name>, called: set<Name>, sites: set<nat>) {
    && (forall y | y in written && y in k.known :: y in k.shadowed)
    && called <= k.called && sites !! k.sites
  }

  ghost predicate AllUsable(k: Know, m: Table, t: Outer, e: Expr) {
    forall x | x in m :: Usable(k, m[x], t, e)
  }

  lemma ReadIsElement(k: Know, e: Expr, m: Table, t: Outer)
    requires Hides(k, m, t) && AllUsable(k, m, t, e) && Callees(e) <= k.called && ReadOf(e, m, t).Some?
    ensures Folded(k, e, Rewrite(e, m, t))
  {
    var x := e.base.x;
    assert x in Mentions(e.base) && x in Mentions(e);
    assert Usable(k, m[x], t, e) && Ready(k, m[x]);
    assert Constant(k, e.idx) == ConstOf(e.idx, t);
  }

  lemma {:induction false} RewriteRefines(k: Know, e: Expr, m: Table, t: Outer)
    requires Hides(k, m, t) && AllUsable(k, m, t, e) && Legal(k, Writes(e), Callees(e), SitesOf(e))
    ensures Refines(k, e, Rewrite(e, m, t))
    decreases e, 1
  {
    if ReadOf(e, m, t).Some? {
      ReadIsElement(k, e, m, t);
    } else {
      match e
      case Lit(_) =>
      case Var(y) => assert y in m ==> !Usable(k, m[y], t, e);
      case Un(_, a) => RewriteRefines(k, a, m, t);
      case Bin(_, l, r) => RewriteRefines(k, l, m, t); RewriteRefines(k, r, m, t);
      case Logic(_, l, r) => RewriteRefines(k, l, m, t); RewriteRefines(k, r, m, t);
      case Cond(b, c, f) => RewriteRefines(k, b, m, t); RewriteRefines(k, c, m, t); RewriteRefines(k, f, m, t);
      case Call(_, args) => RewriteAllRefines(k, args, m, t);
      case Index(_, _) => IndexRefines(k, e, m, t);
      case NewArr(_, n) => RewriteRefines(k, n, m, t);
      case ArrayLit(es) => RewriteAllRefines(k, es, m, t);
      case Assign(_, _, _) => AssignRefines(k, e, m, t);
      case SetAt(_, _, _, _) => SetAtRefines(k, e, m, t);
      case Update(y, _, _) => assert y in m ==> !Usable(k, m[y], t, e);
    }
  }

  lemma {:induction false} AssignRefines(k: Know, e: Expr, m: Table, t: Outer)
    requires Hides(k, m, t) && AllUsable(k, m, t, e) && Legal(k, Writes(e), Callees(e), SitesOf(e)) && e.Assign?
    ensures Refines(k, e, Rewrite(e, m, t))
    decreases e, 0
  {
    assert e.x in m ==> !Usable(k, m[e.x], t, e);
    RewriteRefines(k, e.rhs, m, t);
  }

  lemma {:induction false} SetAtRefines(k: Know, e: Expr, m: Table, t: Outer)
    requires Hides(k, m, t) && AllUsable(k, m, t, e) && Legal(k, Writes(e), Callees(e), SitesOf(e)) && e.SetAt?
    ensures Refines(k, e, Rewrite(e, m, t))
    decreases e, 0
  {
    RewriteRefines(k, e.base, m, t);
    RewriteRefines(k, e.idx, m, t);
    RewriteRefines(k, e.rhs, m, t);
  }

  lemma {:induction false} IndexRefines(k: Know, e: Expr, m: Table, t: Outer)
    requires Hides(k, m, t) && AllUsable(k, m, t, e) && Legal(k, Writes(e), Callees(e), SitesOf(e))
    requires e.Index? && ReadOf(e, m, t) == None
    ensures Refines(k, e, Rewrite(e, m, t))
    decreases e, 0
  {
    forall x | x in m
      ensures Usable(k, m[x], t, e.base)
    {
      assert Usable(k, m[x], t, e);
    }
    RewriteRefines(k, e.base, m, t);
    RewriteRefines(k, e.idx, m, t);
  }

  ghost predicate UsableList(k: Know, a: Cand, t: Outer, es: seq<Expr>) {
    a.raw.x !in MentionsAll(es) || (Ready(k, a) && AcceptsAll(es, a.raw.x, |a.elems|, t))
  }

  lemma {:induction false} RewriteAllRefines(k: Know, es: seq<Expr>, m: Table, t: Outer)
    requires Hides(k, m, t) && (forall x | x in m :: UsableList(k, m[x], t, es))
    requires Legal(k, WritesAll(es), CalleesAll(es), SitesOfAll(es))
    ensures RefinesAll(k, es, RewriteAll(es, m, t))
    decreases es, 1
  {
    if es != [] {
      forall x | x in m
        ensures Usable(k, m[x], t, es[0]) && UsableList(k, m[x], t, es[1..])
      {
        assert UsableList(k, m[x], t, es);
      }
      RewriteRefines(k, es[0], m, t);
      RewriteAllRefines(k, es[1..], m, t);
      assert RewriteAll(es, m, t)[1..] == RewriteAll(es[1..], m, t);
    }
  }

  ghost predicate UsableOpt(k: Know, a: Cand, t: Outer, e: Option<Expr>) {
    a.raw.x !in OptMentions(e) || (Ready(k, a) && AcceptsOpt(e, a, t))
  }

  ghost predicate UsableLets(k: Know, a: Cand, t: Outer, ds: seq<Declarator>) {
    a.raw.x !in LetMentions(ds) || (Ready(k, a) && AcceptsLets(ds, a, t))
  }

  ghost predicate UsableStmt(k: Know, a: Cand, t: Outer, isMain: bool, st: Stmt) {
    a.raw.x !in StmtNamesIn(st) || (Ready(k, a) && AcceptsStmt(st, a, t, isMain))
  }

  ghost predicate UsableStmts(k: Know, a: Cand, t: Outer, isMain: bool, ss: seq<Stmt>) {
    a.raw.x !in NamesIn(ss) || (Ready(k, a) && AcceptsList(ss, a, t, isMain))
  }

  lemma {:induction false} OptRefines(k: Know, e: Option<Expr>, m: Table, t: Outer)
    requires Hides(k, m, t) && (forall x | x in m :: UsableOpt(k, m[x], t, e))
    requires Legal(k, OptWrites(e), OptCallees(e), OptSites(e))
    ensures RefinesOpt(k, e, RewriteOpt(e, m, t))
  {
    if e.Some? {
      forall x | x in m
        ensures Usable(k, m[x], t, e.value)
      {
        assert UsableOpt(k, m[x], t, e);
      }
      RewriteRefines(k, e.value, m, t);
    }
  }

  lemma {:induction false} LetsRefine(k: Know, ds: seq<Declarator>, m: Table, t: Outer)
    requires Hides(k, m, t) && (forall x | x in m :: UsableLets(k, m[x], t, ds))
    requires Legal(k, LetWrites(ds), LetCallees(ds), LetSites(ds))
    ensures RefinesLets(k, ds, RewriteLets(ds, m, t))
  {
    if ds != [] {
      forall x | x in m
        ensures UsableOpt(k, m[x], t, ds[0].init) && UsableLets(k, m[x], t, ds[1..]) && x != ds[0].x
      {
        assert UsableLets(k, m[x], t, ds);
      }
      OptRefines(k, ds[0].init, m, t);
      LetsRefine(k, ds[1..], m, t);
      assert RewriteLets(ds, m, t)[1..] == RewriteLets(ds[1..], m, t);
    }
  }

  lemma ReturnRefines(k: Know, st: Stmt, m: Table, t: Outer, isMain: bool)
    requires Hides(k, m, t) && (forall x | x in m :: UsableStmt(k, m[x], t, isMain, st)) && st.Return?
    requires Legal(k, StmtWrites(st), StmtCallees(st), StmtSites(st))
    ensures RefinesStmt(k, st, RewriteStmt(st, m, t))
  {
    var e := st.result;
    if e.Some? && e.value.Var? && e.value.x in m {
      assert UsableStmt(k, m[e.value.x], t, isMain, st);
      assert e.value.x in OptMentions(e);
      assert ReturnsArray(k, e.value, ArrayLit(Literals(m[e.value.x].elems)));
    } else {
      forall x | x in m
        ensures UsableOpt(k, m[x], t, e)
      {
        assert UsableStmt(k, m[x], t, isMain, st);
      }
      OptRefines(k, e, m, t);
    }
  }

  lemma {:induction false} StmtRefines(k: Know, st: Stmt, m: Table, t: Outer, isMain: bool)
    requires Hides(k, m, t) && (forall x | x in m :: UsableStmt(k, m[x], t, isMain, st))
    requires Legal(k, StmtWrites(st), StmtCallees(st), StmtSites(st))
    ensures RefinesStmt(k, st, RewriteStmt(st, m, t))
    decreases st, 1
  {
    match st
    case Let(ds) =>
      assert forall x | x in m :: UsableStmt(k, m[x], t, isMain, st) ==> UsableLets(k, m[x], t, ds);
      LetsRefine(k, ds, m, t);
    case Do(e) => PartRefines(k, st, Some(e), m, t, isMain);
    case If(b, c, f) =>
      PartRefines(k, st, Some(b), m, t, isMain);
      BodyRefines(k, st, c, m, t, isMain);
      BodyRefines(k, st, f, m, t, isMain);
    case While(b, body) =>
      PartRefines(k, st, Some(b), m, t, isMain);
      BodyRefines(k, st, body, m, t, isMain);
    case For(init, test, step, body) =>
      BodyRefines(k, st, init, m, t, isMain);
      PartRefines(k, st, test, m, t, isMain);
      PartRefines(k, st, step, m, t, isMain);
      BodyRefines(k, st, body, m, t, isMain);
    case Return(_) => ReturnRefines(k, st, m, t, isMain);
    case Throw(e) => PartRefines(k, st, Some(e), m, t, isMain);
    case Break =>
    case Continue =>
  }

  /** An expression that is a part of the statement. */
  predicate PartOf(e: Option<Expr>, st: Stmt) {
    match st
    case Do(x) => e == Some(x)
    case If(b, _, _) => e == Some(b)
    case While(b, _) => e == Some(b)
    case For(_, test, step, _) => e == test || e == step
    case Throw(x) => e == Some(x)
    case _ => false
  }

  lemma PartRefines(k: Know, st: Stmt, e: Option<Expr>, m: Table, t: Outer, isMain: bool)
    requires Hides(k, m, t) && (forall x | x in m :: UsableStmt(k, m[x], t, isMain, st)) && PartOf(e, st)
    requires Legal(k, StmtWrites(st), StmtCallees(st), StmtSites(st))
    ensures RefinesOpt(k, e, RewriteOpt(e, m, t))
  {
    forall x | x in m
      ensures UsableOpt(k, m[x], t, e)
    {
      assert UsableStmt(k, m[x], t, isMain, st);
    }
    OptRefines(k, e, m, t);
  }

  predicate BodyOf(ss: seq<Stmt>, st: Stmt) {
    match st
    case If(_, c, f) => ss == c || ss == f
    case While(_, body) => ss == body
    case For(init, _, _, body) => ss == init || ss == body
    case _ => false
  }

  lemma {:induction false} BodyRefines(k: Know, st: Stmt, ss: seq<Stmt>, m: Table, t: Outer, isMain: bool)
    requires Hides(k, m, t) && (forall x | x in m :: UsableStmt(k, m[x], t, isMain, st)) && BodyOf(ss, st)
    requires Legal(k, StmtWrites(st), StmtCallees(st), StmtSites(st))
    ensures RefinesList(k, ss, RewriteList(ss, m, t))
    decreases st, 0
  {
    forall x | x in m
      ensures UsableStmts(k, m[x], t, isMain, ss)
    {
      assert UsableStmt(k, m[x], t, isMain, st);
    }
    ListRefines(k, ss, m, t, isMain);
  }

  lemma {:induction false} ListRefines(k: Know, ss: seq<Stmt>, m: Table, t: Outer, isMain: bool)
    requires Hides(k, m, t) && (forall x | x in m :: UsableStmts(k, m[x], t, isMain, ss))
    requires Legal(k, WritesIn(ss), CalleesIn(ss), SitesIn(ss))
    ensures RefinesList(k, ss, RewriteList(ss, m, t))
    decreases ss, 2
  {
    if ss != [] {
      forall x | x in m
        ensures UsableStmt(k, m[x], t, isMain, ss[0]) && UsableStmts(k, m[x], t, isMain, ss[1..])
      {
        assert UsableStmts(k, m[x], t, isMain, ss);
      }
      StmtRefines(k, ss[0], m, t, isMain);
      ListRefines(k, ss[1..], m, t, isMain);
      assert RewriteList(ss, m, t)[1..] == RewriteList(ss[1..], m, t);
    }
  }
}
