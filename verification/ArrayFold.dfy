/** Folding local arrays away: a `new Array(n)` whose every element is written once, with a
    constant, before anything else mentions it, and is then only read at constant indices,
    leaves no trace in the rewritten function but its elements. */
module ArrayFold {
  import opened Arith
  import opened TsLang
  import opened TsConst
  import opened TsRewriteStmts
  import opened LocalConst

  const MAX_FOLDED_ARRAY_ELEMENTS := 256
  const MAX_FOLDED_RETURN_ARRAY_ELEMENTS := 64

  /** What the pass may resolve constants with: the file's, except names the function reserves. */
  datatype Outer = Outer(consts: Consts, funcs: Funcs, shadowed: set<Name>)

  function ConstOf(e: Expr, t: Outer): Option<int> {
    EvalConst(e, t.consts, t.funcs, t.shadowed)
  }

  /** A declared array that may turn out to fold. */
  datatype Raw = Raw(x: Name, site: nat, size: nat, decl: nat)

  /** One that does, so far as its construction goes: `last` is its last write. */
  datatype Cand = Cand(raw: Raw, last: nat, elems: seq<int>)

  /** An identifier of that name anywhere, called or read or written. */
  predicate Refers(st: Stmt, x: Name) {
    x in StmtNamesIn(st) || x in StmtCallees(st)
  }

  function RawDecl(st: Stmt, j: nat, t: Outer): Option<Raw> {
    match st
    case Let(ds) =>
      if |ds| == 1 && ds[0].init.Some? && ds[0].init.value.NewArr? then
        (match ConstOf(ds[0].init.value.size, t)
         case Some(v) =>
           if 1 <= v <= MAX_FOLDED_ARRAY_ELEMENTS then Some(Raw(ds[0].x, ds[0].init.value.site, v, j)) else None
         case None => None)
      else None
    case _ => None
  }

  /** The candidates declared among the first `n` statements. */
  function RawsAmong(ss: seq<Stmt>, n: nat, t: Outer): seq<Raw>
    requires n <= |ss|
  {
    if n == 0 then []
    else RawsAmong(ss, n - 1, t) + match RawDecl(ss[n - 1], n - 1, t) case Some(r) => [r] case None => []
  }

  function RawDecls(ss: seq<Stmt>, t: Outer): seq<Raw> {
    RawsAmong(ss, |ss|, t)
  }

  function RawNames(rs: seq<Raw>): set<Name> {
    set r | r in rs :: r.x
  }

  /** `x[k] = v` with both constant and neither reading an array of the function. */
  function WriteOf(st: Stmt, x: Name, names: set<Name>, t: Outer): Option<(nat, int)> {
    match st
    case Do(SetAt(Var(y), i, None, r)) =>
      if y != x || (Mentions(i) + Callees(i) + Mentions(r) + Callees(r)) * names != {} then None
      else
        (match (ConstOf(i, t), ConstOf(r, t))
         case (Some(k), Some(v)) => if k >= 0 then Some((k, v)) else None
         case _ => None)
    case _ => None
  }

  /** What a statement is to a candidate: a write of one element, a mention, or neither. */
  datatype Role = Write(k: nat, v: int) | Mention | Apart

  function RoleOf(st: Stmt, x: Name, names: set<Name>, t: Outer): Role {
    match WriteOf(st, x, names, t)
    case Some((k, v)) => Write(k, v)
    case None => if Refers(st, x) then Mention else Apart
  }

  function Roles(ss: seq<Stmt>, x: Name, names: set<Name>, t: Outer): (roles: seq<Role>)
    ensures |roles| == |ss|
  {
    seq(|ss|, j requires 0 <= j < |ss| => RoleOf(ss[j], x, names, t))
  }

  /** Every element has been written. */
  predicate Full(got: seq<Option<int>>) {
    forall k | 0 <= k < |got| :: got[k].Some?
  }

  function Gathered(got: seq<Option<int>>): (r: seq<int>)
    requires Full(got)
    ensures |r| == |got|
  {
    seq(|got|, k requires 0 <= k < |got| => got[k].value)
  }

  function Unwritten(size: nat): seq<Option<int>> {
    seq(size, _ => None)
  }

  /** The construction region, from statement `j` to the write that completes the array:
      where that is, and the elements. */
  function Classify(roles: seq<Role>, j: nat, got: seq<Option<int>>): Option<(nat, seq<int>)>
    decreases |roles| - j
  {
    if j >= |roles| then None
    else
      match roles[j]
      case Write(k, v) =>
        if k >= |got| || got[k].Some? then None
        else if Full(got[k := Some(v)]) then Some((j, Gathered(got[k := Some(v)])))
        else Classify(roles, j + 1, got[k := Some(v)])
      case Mention => None
      case Apart => Classify(roles, j + 1, got)
  }

  function Construct(ss: seq<Stmt>, raw: Raw, names: set<Name>, t: Outer): (r: Option<Cand>)
    ensures r.Some? ==> r.value.raw == raw
  {
    match Classify(Roles(ss, raw.x, names, t), raw.decl + 1, Unwritten(raw.size))
    case Some((last, elems)) => Some(Cand(raw, last, elems))
    case None => None
  }

  function Written(got: seq<Option<int>>): (n: nat)
    ensures n <= |got|
  {
    if got == [] then 0 else Written(got[..|got| - 1]) + (if got[|got| - 1].Some? then 1 else 0)
  }

  lemma {:induction false} OneMoreWritten(got: seq<Option<int>>, k: nat, v: int)
    requires k < |got| && got[k] == None
    ensures Written(got[k := Some(v)]) == Written(got) + 1
  {
    var n := |got| - 1;
    if k == n {
      assert got[k := Some(v)][..n] == got[..n];
    } else {
      assert got[k := Some(v)][..n] == got[..n][k := Some(v)];
      OneMoreWritten(got[..n], k, v);
    }
  }

  /** Without duplicates, as many writes as elements are all of them. */
  lemma {:induction false} FullWhenAllWritten(got: seq<Option<int>>)
    ensures Written(got) == |got| <==> Full(got)
  {
    if got != [] {
      var n := |got| - 1;
      FullWhenAllWritten(got[..n]);
      assert Full(got) <==> Full(got[..n]) && got[n].Some?;
    }
  }

  lemma {:induction false} NoneWritten(size: nat)
    ensures Written(Unwritten(size)) == 0
  {
    if size > 0 {
      NoneWritten(size - 1);
      assert Unwritten(size)[..size - 1] == Unwritten(size - 1);
    }
  }

  method ClassifyRegion(ss: seq<Stmt>, raw: Raw, names: set<Name>, t: Outer) returns (r: Option<Cand>)
    requires raw.size > 0
    ensures r == Construct(ss, raw, names, t)
  {
    ghost var roles := Roles(ss, raw.x, names, t);
    var elements := Unwritten(raw.size);
    ghost var want := Classify(roles, raw.decl + 1, elements);
    var written := 0;
    NoneWritten(raw.size);
    var i := raw.decl + 1;
    while i < |ss|
      invariant |elements| == raw.size && written == Written(elements)
      invariant want == Classify(roles, i, elements)
      decreases |ss| - i
    {
      var role := RoleOf(ss[i], raw.x, names, t);
      assert roles[i] == role;
      if role.Write? {
        if role.k >= raw.size || elements[role.k].Some? {
          return None;
        }
        OneMoreWritten(elements, role.k, role.v);
        elements := elements[role.k := Some(role.v)];
        written := written + 1;
        FullWhenAllWritten(elements);
        if written == raw.size {
          return Some(Cand(raw, i, Gathered(elements)));
        }
      } else if role.Mention? {
        return None;
      }
      i := i + 1;
    }
    return None;
  }

  // ----- later uses -----

  /** Every use of the array `x` of length `n` is a read at a constant index inside it. */
  predicate Accepts(e: Expr, x: Name, n: nat, t: Outer) {
    match e
    case Lit(_) => true
    case Var(y) => y != x
    case Un(_, a) => Accepts(a, x, n, t)
    case Bin(_, l, r) => Accepts(l, x, n, t) && Accepts(r, x, n, t)
    case Logic(_, l, r) => Accepts(l, x, n, t) && Accepts(r, x, n, t)
    case Cond(b, c, f) => Accepts(b, x, n, t) && Accepts(c, x, n, t) && Accepts(f, x, n, t)
    case Call(f, args) => f != x && AcceptsAll(args, x, n, t)
    case Index(b, i) => (if b == Var(x) then InRange(ConstOf(i, t), n) else Accepts(b, x, n, t)) && Accepts(i, x, n, t)
    case NewArr(_, size) => Accepts(size, x, n, t)
    case ArrayLit(es) => AcceptsAll(es, x, n, t)
    case Assign(y, _, r) => y != x && Accepts(r, x, n, t)
    case SetAt(b, i, _, r) => Accepts(b, x, n, t) && Accepts(i, x, n, t) && Accepts(r, x, n, t)
    case Update(y, _, _) => y != x
  }

  predicate AcceptsAll(es: seq<Expr>, x: Name, n: nat, t: Outer) {
    es == [] || (Accepts(es[0], x, n, t) && AcceptsAll(es[1..], x, n, t))
  }

  predicate InRange(i: Option<int>, n: nat) {
    i.Some? && 0 <= i.value < n
  }

  /** `return x` is allowed only in `main`, for a short array without negative elements. */
  predicate MayReturn(a: Cand, isMain: bool) {
    isMain && |a.elems| <= MAX_FOLDED_RETURN_ARRAY_ELEMENTS && forall v | v in a.elems :: v >= 0
  }

  predicate AcceptsOpt(e: Option<Expr>, a: Cand, t: Outer) {
    e.Some? ==> Accepts(e.value, a.raw.x, |a.elems|, t)
  }

  predicate AcceptsLets(ds: seq<Declarator>, a: Cand, t: Outer) {
    ds == [] || (ds[0].x != a.raw.x && AcceptsOpt(ds[0].init, a, t) && AcceptsLets(ds[1..], a, t))
  }

  predicate AcceptsStmt(st: Stmt, a: Cand, t: Outer, isMain: bool)
    decreases st, 1
  {
    match st
    case Let(ds) => AcceptsLets(ds, a, t)
    case Do(e) => AcceptsOpt(Some(e), a, t)
    case If(b, c, f) => AcceptsOpt(Some(b), a, t) && AcceptsList(c, a, t, isMain) && AcceptsList(f, a, t, isMain)
    case While(b, body) => AcceptsOpt(Some(b), a, t) && AcceptsList(body, a, t, isMain)
    case For(init, test, step, body) =>
      && AcceptsList(init, a, t, isMain) && AcceptsOpt(test, a, t)
      && AcceptsOpt(step, a, t) && AcceptsList(body, a, t, isMain)
    case Return(e) => if e == Some(Var(a.raw.x)) then MayReturn(a, isMain) else AcceptsOpt(e, a, t)
    case Throw(e) => AcceptsOpt(Some(e), a, t)
    case Break => true
    case Continue => true
  }

  predicate AcceptsList(ss: seq<Stmt>, a: Cand, t: Outer, isMain: bool)
    decreases ss, 0
  {
    ss == [] || (AcceptsStmt(ss[0], a, t, isMain) && AcceptsList(ss[1..], a, t, isMain))
  }

  /** The candidate's own declaration and writes. */
  predicate Own(ss: seq<Stmt>, j: nat, a: Cand, names: set<Name>, t: Outer)
    requires j < |ss|
  {
    j == a.raw.decl || (a.raw.decl < j <= a.last && RoleOf(ss[j], a.raw.x, names, t).Write?)
  }

  /** Nothing mentions it before its declaration, and everything but its own statements is
      accepted. */
  predicate Survives(ss: seq<Stmt>, a: Cand, names: set<Name>, t: Outer, isMain: bool) {
    && (forall j {:trigger Refers(ss[j], a.raw.x)} | 0 <= j < a.raw.decl && j < |ss| :: !Refers(ss[j], a.raw.x))
    && (forall j {:trigger Own(ss, j, a, names, t)} | 0 <= j < |ss| ::
          Own(ss, j, a, names, t) || AcceptsStmt(ss[j], a, t, isMain))
  }

  /** Those of the first `n` candidates that fold. */
  function Select(ss: seq<Stmt>, rs: seq<Raw>, n: nat, names: set<Name>, t: Outer, isMain: bool): seq<Cand>
    requires n <= |rs|
  {
    if n == 0 then []
    else
      var rest := Select(ss, rs, n - 1, names, t, isMain);
      match Construct(ss, rs[n - 1], names, t)
      case Some(a) => if Survives(ss, a, names, t, isMain) then rest + [a] else rest
      case None => rest
  }

  /** Every array of the body that folds. */
  function Plan(ss: seq<Stmt>, t: Outer, isMain: bool): seq<Cand> {
    var rs := RawDecls(ss, t);
    Select(ss, rs, |rs|, RawNames(rs), t, isMain)
  }

  // ----- the rewritten body -----

  /** The folded arrays by name. */
  type Table = map<Name, Cand>

  function TableOf(plan: seq<Cand>): (m: Table)
    ensures forall x | x in m :: m[x].raw.x == x && m[x] in plan
  {
    if plan == [] then map[]
    else TableOf(plan[..|plan| - 1])[plan[|plan| - 1].raw.x := plan[|plan| - 1]]
  }

  function ReadOf(e: Expr, m: Table, t: Outer): Option<int> {
    if e.Index? && e.base.Var? && e.base.x in m && InRange(ConstOf(e.idx, t), |m[e.base.x].elems|) then
      Some(m[e.base.x].elems[ConstOf(e.idx, t).value])
    else None
  }

  function Rewrite(e: Expr, m: Table, t: Outer): Expr {
    if ReadOf(e, m, t).Some? then Literal(ReadOf(e, m, t).value)
    else
      match e
      case Lit(_) => e
      case Var(_) => e
      case Un(op, a) => Un(op, Rewrite(a, m, t))
      case Bin(op, l, r) => Bin(op, Rewrite(l, m, t), Rewrite(r, m, t))
      case Logic(isAnd, l, r) => Logic(isAnd, Rewrite(l, m, t), Rewrite(r, m, t))
      case Cond(b, c, f) => Cond(Rewrite(b, m, t), Rewrite(c, m, t), Rewrite(f, m, t))
      case Call(f, args) => Call(f, RewriteAll(args, m, t))
      case Index(b, i) => Index(Rewrite(b, m, t), Rewrite(i, m, t))
      case NewArr(site, n) => NewArr(site, Rewrite(n, m, t))
      case ArrayLit(es) => ArrayLit(RewriteAll(es, m, t))
      case Assign(x, op, r) => Assign(x, op, Rewrite(r, m, t))
      case SetAt(b, i, op, r) => SetAt(Rewrite(b, m, t), Rewrite(i, m, t), op, Rewrite(r, m, t))
      case Update(_, _, _) => e
  }

  function RewriteAll(es: seq<Expr>, m: Table, t: Outer): seq<Expr> {
    if es == [] then [] else [Rewrite(es[0], m, t)] + RewriteAll(es[1..], m, t)
  }

  function RewriteOpt(e: Option<Expr>, m: Table, t: Outer): Option<Expr> {
    match e case None => None case Some(x) => Some(Rewrite(x, m, t))
  }

  function RewriteLets(ds: seq<Declarator>, m: Table, t: Outer): seq<Declarator> {
    if ds == [] then [] else [Declarator(ds[0].x, RewriteOpt(ds[0].init, m, t))] + RewriteLets(ds[1..], m, t)
  }

  function RewriteStmt(st: Stmt, m: Table, t: Outer): Stmt
    decreases st, 1
  {
    match st
    case Let(ds) => Let(RewriteLets(ds, m, t))
    case Do(e) => Do(Rewrite(e, m, t))
    case If(b, c, f) => If(Rewrite(b, m, t), RewriteList(c, m, t), RewriteList(f, m, t))
    case While(b, body) => While(Rewrite(b, m, t), RewriteList(body, m, t))
    case For(init, test, step, body) =>
      For(RewriteList(init, m, t), RewriteOpt(test, m, t), RewriteOpt(step, m, t), RewriteList(body, m, t))
    case Return(e) =>
      if e.Some? && e.value.Var? && e.value.x in m then Return(Some(ArrayLit(Literals(m[e.value.x].elems))))
      else Return(RewriteOpt(e, m, t))
    case Throw(e) => Throw(Rewrite(e, m, t))
    case Break => st
    case Continue => st
  }

  function RewriteList(ss: seq<Stmt>, m: Table, t: Outer): seq<Stmt>
    decreases ss, 0
  {
    if ss == [] then [] else [RewriteStmt(ss[0], m, t)] + RewriteList(ss[1..], m, t)
  }

  predicate Deleted(ss: seq<Stmt>, j: nat, plan: seq<Cand>, names: set<Name>, t: Outer)
    requires j < |ss|
  {
    exists i | 0 <= i < |plan| :: Own(ss, j, plan[i], names, t)
  }

  /** What is left from statement `j` on. */
  function Survivors(ss: seq<Stmt>, j: nat, plan: seq<Cand>, names: set<Name>, t: Outer): seq<Stmt>
    requires j <= |ss|
    decreases |ss| - j
  {
    if j == |ss| then []
    else if Deleted(ss, j, plan, names, t) then Survivors(ss, j + 1, plan, names, t)
    else [RewriteStmt(ss[j], TableOf(plan), t)] + Survivors(ss, j + 1, plan, names, t)
  }

  function FoldArrays(ss: seq<Stmt>, t: Outer, isMain: bool): seq<Stmt> {
    Survivors(ss, 0, Plan(ss, t, isMain), RawNames(RawDecls(ss, t)), t)
  }
}
