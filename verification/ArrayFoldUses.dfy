/** Which uses of a folded array are allowed: just those that leave nothing of it once its known
    elements are written out. */
module ArrayFoldUses {
  import opened Arith
  import opened TsLang
  import opened TsRewriteStmts
  import opened LocalConst
  import opened ArrayFold

  /** Nothing of the array is left. */
  predicate Gone(e: Expr, a: Cand, t: Outer) {
    var out := Rewrite(e, map[a.raw.x := a], t);
    a.raw.x !in Mentions(out) && a.raw.x !in Callees(out)
  }

  predicate AllGone(es: seq<Expr>, a: Cand, t: Outer) {
    var out := RewriteAll(es, map[a.raw.x := a], t);
    a.raw.x !in MentionsAll(out) && a.raw.x !in CalleesAll(out)
  }

  /** No index into the array mentions it again. */
  predicate Plainly(e: Expr, x: Name) {
    match e
    case Lit(_) => true
    case Var(_) => true
    case Un(_, a) => Plainly(a, x)
    case Bin(_, l, r) => Plainly(l, x) && Plainly(r, x)
    case Logic(_, l, r) => Plainly(l, x) && Plainly(r, x)
    case Cond(b, c, f) => Plainly(b, x) && Plainly(c, x) && Plainly(f, x)
    case Call(_, args) => AllPlainly(args, x)
    case Index(b, i) => Plainly(b, x) && Plainly(i, x) && (b == Var(x) ==> x !in Mentions(i) && x !in Callees(i))
    case NewArr(_, n) => Plainly(n, x)
    case ArrayLit(es) => AllPlainly(es, x)
    case Assign(_, _, r) => Plainly(r, x)
    case SetAt(b, i, _, r) => Plainly(b, x) && Plainly(i, x) && Plainly(r, x)
    case Update(_, _, _) => true
  }

  predicate AllPlainly(es: seq<Expr>, x: Name) {
    es == [] || (Plainly(es[0], x) && AllPlainly(es[1..], x))
  }

  lemma LiteralApart(v: int)
    ensures Mentions(Literal(v)) == {} && Callees(Literal(v)) == {}
  {
  }

  /** What is not mentioned is accepted. */
  lemma {:induction false} ApartAccepted(e: Expr, x: Name, n: nat, t: Outer)
    requires x !in Mentions(e) && x !in Callees(e)
    ensures Accepts(e, x, n, t)
  {
    match e
    case Un(_, a) => ApartAccepted(a, x, n, t);
    case Bin(_, l, r) => ApartAccepted(l, x, n, t); ApartAccepted(r, x, n, t);
    case Logic(_, l, r) => ApartAccepted(l, x, n, t); ApartAccepted(r, x, n, t);
    case Cond(b, c, f) => ApartAccepted(b, x, n, t); ApartAccepted(c, x, n, t); ApartAccepted(f, x, n, t);
    case Call(_, args) => ApartAllAccepted(args, x, n, t);
    case Index(b, i) => ApartAccepted(b, x, n, t); ApartAccepted(i, x, n, t);
    case NewArr(_, size) => ApartAccepted(size, x, n, t);
    case ArrayLit(es) => ApartAllAccepted(es, x, n, t);
    case Assign(_, _, r) => ApartAccepted(r, x, n, t);
    case SetAt(b, i, _, r) => ApartAccepted(b, x, n, t); ApartAccepted(i, x, n, t); ApartAccepted(r, x, n, t);
    case _ =>
  }

  lemma {:induction false} ApartAllAccepted(es: seq<Expr>, x: Name, n: nat, t: Outer)
    requires x !in MentionsAll(es) && x !in CalleesAll(es)
    ensures AcceptsAll(es, x, n, t)
  {
    if es != [] {
      ApartAccepted(es[0], x, n, t);
      ApartAllAccepted(es[1..], x, n, t);
    }
  }

  lemma ApartOptAccepted(e: Option<Expr>, a: Cand, t: Outer)
    requires a.raw.x !in OptMentions(e) && a.raw.x !in OptCallees(e)
    ensures AcceptsOpt(e, a, t)
  {
    if e.Some? {
      ApartAccepted(e.value, a.raw.x, |a.elems|, t);
    }
  }

  lemma {:induction false} ApartLetsAccepted(ds: seq<Declarator>, a: Cand, t: Outer)
    requires a.raw.x !in LetMentions(ds) && a.raw.x !in LetCallees(ds)
    ensures AcceptsLets(ds, a, t)
  {
    if ds != [] {
      ApartOptAccepted(ds[0].init, a, t);
      ApartLetsAccepted(ds[1..], a, t);
    }
  }

  lemma {:induction false} ApartListAccepted(ss: seq<Stmt>, a: Cand, t: Outer, isMain: bool)
    requires a.raw.x !in NamesIn(ss) && a.raw.x !in CalleesIn(ss)
    ensures AcceptsList(ss, a, t, isMain)
    decreases ss, 0
  {
    if ss != [] {
      ApartStmtAccepted(ss[0], a, t, isMain);
      ApartListAccepted(ss[1..], a, t, isMain);
    }
  }

  lemma {:induction false} ApartStmtAccepted(st: Stmt, a: Cand, t: Outer, isMain: bool)
    requires !Refers(st, a.raw.x)
    ensures AcceptsStmt(st, a, t, isMain)
    decreases st, 1
  {
    match st
    case Let(ds) => ApartLetsAccepted(ds, a, t);
    case Do(e) => ApartOptAccepted(Some(e), a, t);
    case If(b, c, f) =>
      ApartOptAccepted(Some(b), a, t);
      ApartListAccepted(c, a, t, isMain);
      ApartListAccepted(f, a, t, isMain);
    case While(b, body) => ApartOptAccepted(Some(b), a, t); ApartListAccepted(body, a, t, isMain);
    case For(init, test, step, body) =>
      ApartListAccepted(init, a, t, isMain);
      ApartOptAccepted(test, a, t);
      ApartOptAccepted(step, a, t);
      ApartListAccepted(body, a, t, isMain);
    case Return(e) => ApartOptAccepted(e, a, t);
    case Throw(e) => ApartOptAccepted(Some(e), a, t);
    case _ =>
  }

  /** An expression is accepted if nothing of the array is left in it, and only then. */
  lemma {:induction false} AcceptsExactly(e: Expr, a: Cand, t: Outer)
    ensures Accepts(e, a.raw.x, |a.elems|, t) ==> Gone(e, a, t)
    ensures Gone(e, a, t) && Plainly(e, a.raw.x) ==> Accepts(e, a.raw.x, |a.elems|, t)
  {
    var m := map[a.raw.x := a];
    if ReadOf(e, m, t).Some? {
      LiteralApart(ReadOf(e, m, t).value);
      if Plainly(e, a.raw.x) {
        ApartAccepted(e.idx, a.raw.x, |a.elems|, t);
      }
    } else {
      match e
      case Un(_, b) => AcceptsExactly(b, a, t);
      case Bin(_, l, r) => AcceptsExactly(l, a, t); AcceptsExactly(r, a, t);
      case Logic(_, l, r) => AcceptsExactly(l, a, t); AcceptsExactly(r, a, t);
      case Cond(b, c, f) => AcceptsExactly(b, a, t); AcceptsExactly(c, a, t); AcceptsExactly(f, a, t);
      case Call(_, args) => AcceptsAllExactly(args, a, t);
      case Index(b, i) => AcceptsExactly(b, a, t); AcceptsExactly(i, a, t); IndexExactly(e, a, t);
      case NewArr(_, size) => AcceptsExactly(size, a, t);
      case ArrayLit(es) => AcceptsAllExactly(es, a, t);
      case Assign(_, _, r) => AcceptsExactly(r, a, t);
      case SetAt(b, i, _, r) =>
        AcceptsExactly(b, a, t);
        AcceptsExactly(i, a, t);
        AcceptsExactly(r, a, t);
        SetExactly(e, a, t);
      case _ =>
    }
  }

  lemma IndexExactly(e: Expr, a: Cand, t: Outer)
    requires e.Index? && ReadOf(e, map[a.raw.x := a], t) == None
    ensures Gone(e, a, t) <==> Gone(e.base, a, t) && Gone(e.idx, a, t)
    ensures Accepts(e, a.raw.x, |a.elems|, t) <==>
            e.base != Var(a.raw.x) && Accepts(e.base, a.raw.x, |a.elems|, t) && Accepts(e.idx, a.raw.x, |a.elems|, t)
  {
    assert a.raw.x in map[a.raw.x := a];
  }

  lemma SetExactly(e: Expr, a: Cand, t: Outer)
    requires e.SetAt?
    ensures Gone(e, a, t) <==> Gone(e.base, a, t) && Gone(e.idx, a, t) && Gone(e.rhs, a, t)
  {
  }

  lemma {:induction false} AcceptsAllExactly(es: seq<Expr>, a: Cand, t: Outer)
    ensures AcceptsAll(es, a.raw.x, |a.elems|, t) ==> AllGone(es, a, t)
    ensures AllGone(es, a, t) && AllPlainly(es, a.raw.x) ==> AcceptsAll(es, a.raw.x, |a.elems|, t)
  {
    if es != [] {
      AcceptsExactly(es[0], a, t);
      AcceptsAllExactly(es[1..], a, t);
      assert RewriteAll(es, map[a.raw.x := a], t)[1..] == RewriteAll(es[1..], map[a.raw.x := a], t);
    }
  }

  // ----- statements -----

  predicate OptGone(e: Option<Expr>, a: Cand, t: Outer) {
    e.Some? ==> Gone(e.value, a, t)
  }

  predicate OptPlainly(e: Option<Expr>, x: Name) {
    e.Some? ==> Plainly(e.value, x)
  }

  predicate LetsGone(ds: seq<Declarator>, a: Cand, t: Outer) {
    forall i | 0 <= i < |ds| :: ds[i].x != a.raw.x && OptGone(ds[i].init, a, t)
  }

  predicate LetsPlainly(ds: seq<Declarator>, x: Name) {
    forall i | 0 <= i < |ds| :: OptPlainly(ds[i].init, x)
  }

  /** Part by part: nothing of the array is left, and it is returned only where it may be. */
  predicate StmtGone(st: Stmt, a: Cand, t: Outer, isMain: bool)
    decreases st, 1
  {
    match st
    case Let(ds) => LetsGone(ds, a, t)
    case Do(e) => Gone(e, a, t)
    case If(b, c, f) => Gone(b, a, t) && ListGone(c, a, t, isMain) && ListGone(f, a, t, isMain)
    case While(b, body) => Gone(b, a, t) && ListGone(body, a, t, isMain)
    case For(init, test, step, body) =>
      ListGone(init, a, t, isMain) && OptGone(test, a, t) && OptGone(step, a, t) && ListGone(body, a, t, isMain)
    case Return(e) =>
      if e == Some(Var(a.raw.x)) then isMain && |a.elems| <= 64 && (forall v | v in a.elems :: v >= 0) else OptGone(e, a, t)
    case Throw(e) => Gone(e, a, t)
    case Break => true
    case Continue => true
  }

  predicate ListGone(ss: seq<Stmt>, a: Cand, t: Outer, isMain: bool)
    decreases ss, 0
  {
    ss == [] || (StmtGone(ss[0], a, t, isMain) && ListGone(ss[1..], a, t, isMain))
  }

  predicate StmtPlainly(st: Stmt, x: Name)
    decreases st, 1
  {
    match st
    case Let(ds) => LetsPlainly(ds, x)
    case Do(e) => Plainly(e, x)
    case If(b, c, f) => Plainly(b, x) && ListPlainly(c, x) && ListPlainly(f, x)
    case While(b, body) => Plainly(b, x) && ListPlainly(body, x)
    case For(init, test, step, body) =>
      ListPlainly(init, x) && OptPlainly(test, x) && OptPlainly(step, x) && ListPlainly(body, x)
    case Return(e) => OptPlainly(e, x)
    case Throw(e) => Plainly(e, x)
    case Break => true
    case Continue => true
  }

  predicate ListPlainly(ss: seq<Stmt>, x: Name)
    decreases ss, 0
  {
    ss == [] || (StmtPlainly(ss[0], x) && ListPlainly(ss[1..], x))
  }

  lemma OptExactly(e: Option<Expr>, a: Cand, t: Outer)
    ensures AcceptsOpt(e, a, t) ==> OptGone(e, a, t)
    ensures OptGone(e, a, t) && OptPlainly(e, a.raw.x) ==> AcceptsOpt(e, a, t)
  {
    if e.Some? {
      AcceptsExactly(e.value, a, t);
    }
  }

  lemma {:induction false} LetsExactly(ds: seq<Declarator>, a: Cand, t: Outer)
    ensures AcceptsLets(ds, a, t) ==> LetsGone(ds, a, t)
    ensures LetsGone(ds, a, t) && LetsPlainly(ds, a.raw.x) ==> AcceptsLets(ds, a, t)
  {
    if ds != [] {
      OptExactly(ds[0].init, a, t);
      LetsExactly(ds[1..], a, t);
      assert forall i | 1 <= i < |ds| :: ds[i] == ds[1..][i - 1];
      assert forall i | 0 <= i < |ds| - 1 :: ds[1..][i] == ds[i + 1];
    }
  }

  /** So for statements, at every depth. */
  lemma {:induction false} StmtExactly(st: Stmt, a: Cand, t: Outer, isMain: bool)
    ensures AcceptsStmt(st, a, t, isMain) ==> StmtGone(st, a, t, isMain)
    ensures StmtGone(st, a, t, isMain) && StmtPlainly(st, a.raw.x) ==> AcceptsStmt(st, a, t, isMain)
    decreases st, 1
  {
    match st
    case Let(ds) => LetsExactly(ds, a, t);
    case Do(e) => AcceptsExactly(e, a, t);
    case If(b, c, f) => AcceptsExactly(b, a, t); ListExactly(c, a, t, isMain); ListExactly(f, a, t, isMain);
    case While(b, body) => AcceptsExactly(b, a, t); ListExactly(body, a, t, isMain);
    case For(init, test, step, body) =>
      ListExactly(init, a, t, isMain);
      OptExactly(test, a, t);
      OptExactly(step, a, t);
      ListExactly(body, a, t, isMain);
    case Return(e) => OptExactly(e, a, t);
    case Throw(e) => AcceptsExactly(e, a, t);
    case _ =>
  }

  lemma {:induction false} ListExactly(ss: seq<Stmt>, a: Cand, t: Outer, isMain: bool)
    ensures AcceptsList(ss, a, t, isMain) ==> ListGone(ss, a, t, isMain)
    ensures ListGone(ss, a, t, isMain) && ListPlainly(ss, a.raw.x) ==> AcceptsList(ss, a, t, isMain)
    decreases ss, 0
  {
    if ss != [] {
      StmtExactly(ss[0], a, t, isMain);
      ListExactly(ss[1..], a, t, isMain);
    }
  }
}
