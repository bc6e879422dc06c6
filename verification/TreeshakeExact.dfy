/** Tree-shaking from the other side: what is folded, registered, pruned and accepted, not only
    that it is right to. */
module TreeshakeExact {
  import opened Arith
  import opened ArithLaws
  import opened Sauce
  import opened Treeshake
  import opened TreeshakeSound

  // ----- compile-time values -----

  /** Folding two literals is lawful arithmetic, whatever the operator. */
  lemma FoldsLawfully(env: Vars)
    ensures Lawful((op: BinOp, a: int, b: int) => EvalConst(Bin(op, Lit(a), Lit(b)), env))
  {
    var f := (op: BinOp, a: int, b: int) => EvalConst(Bin(op, Lit(a), Lit(b)), env);
    forall op: BinOp, a: int, b: int
      ensures f(op, a, b) == Binary(op, a, b)
    {
      assert EvalConst(Lit(a), env) == Some(a) && EvalConst(Lit(b), env) == Some(b);
    }
    BinaryIsLawful();
    LawfulAlike(Binary, f);
  }

  /** A part of an expression, short of ternaries and calls. */
  predicate Part(p: Expr, e: Expr) {
    p == e ||
    (match e
     case Un(_, a) => Part(p, a)
     case Bin(_, l, r) => Part(p, l) || Part(p, r)
     case Logic(_, l, r) => Part(p, l) || Part(p, r)
     case _ => false)
  }

  /** What has no value at compile time: an unknown name, a ternary, a call, or an operation
      on known operands that has no answer. */
  predicate Blocks(p: Expr, env: Vars) {
    match p
    case Var(x) => x !in env
    case Cond(_, _, _) => true
    case Call(_, _) => true
    case Bin(op, l, r) => EvalConst(l, env).Some? && EvalConst(r, env).Some?
                          && Binary(op, EvalConst(l, env).value, EvalConst(r, env).value) == None
    case _ => false
  }

  /** An expression without a value has such a part, so nothing else keeps it from folding. */
  lemma {:induction false} OnlyBlocked(e: Expr, env: Vars) returns (p: Expr)
    requires EvalConst(e, env) == None
    ensures Part(p, e) && Blocks(p, env)
  {
    p := e;
    match e
    case Un(_, a) => p := OnlyBlocked(a, env);
    case Bin(_, l, r) =>
      if EvalConst(l, env) == None {
        p := OnlyBlocked(l, env);
      } else if EvalConst(r, env) == None {
        p := OnlyBlocked(r, env);
      }
    case Logic(_, l, r) =>
      if EvalConst(l, env) == None {
        p := OnlyBlocked(l, env);
      } else {
        p := OnlyBlocked(r, env);
      }
    case _ =>
  }

  /** A left side that decides `&&` or `||` is enough. */
  lemma LeftDecides(isAnd: bool, l: Expr, r: Expr, env: Vars)
    requires EvalConst(l, env).Some? && isAnd == (EvalConst(l, env).value == 0)
    ensures EvalConst(Logic(isAnd, l, r), env) == Some(if isAnd then 0 else 1)
  {
  }

  // ----- what is registered -----

  /** The value an initializer has when its turn comes. */
  function InTurn(defines: Vars, tops: seq<TopConst>, i: nat): Option<int>
    requires i < |tops|
  {
    EvalConst(tops[i].init, Constants(defines, tops[..i]))
  }

  ghost predicate FirstFolded(defines: Vars, tops: seq<TopConst>, x: Name, i: int) {
    && 0 <= i < |tops| && User(tops[i].x) == x && InTurn(defines, tops, i).Some?
    && forall j | 0 <= j < i && User(tops[j].x) == x :: InTurn(defines, tops, j) == None
  }

  /** A name is a constant exactly when it is defined or some initializer of it folds in turn;
      a define wins, and then the first such initializer. */
  lemma {:induction false} ConstantsExactly(defines: Vars, tops: seq<TopConst>, x: Name) returns (i: int)
    ensures var env := Constants(defines, tops);
            if x in defines then x in env && env[x] == defines[x]
            else if x in env then FirstFolded(defines, tops, x, i) && Some(env[x]) == InTurn(defines, tops, i)
            else NeverFolded(defines, tops, x)
  {
    i := 0;
    if tops != [] && x !in defines {
      var n := |tops| - 1;
      i := ConstantsExactly(defines, tops[..n], x);
      if x in Constants(defines, tops[..n]) {
        StillFirst(defines, tops, x, i);
      } else {
        ThenFirst(defines, tops, x);
        i := n;
      }
    }
  }

  ghost predicate NeverFolded(defines: Vars, tops: seq<TopConst>, x: Name) {
    forall j | 0 <= j < |tops| && User(tops[j].x) == x :: InTurn(defines, tops, j) == None
  }

  lemma StillFirst(defines: Vars, tops: seq<TopConst>, x: Name, i: int)
    requires tops != [] && FirstFolded(defines, tops[..|tops| - 1], x, i)
    ensures FirstFolded(defines, tops, x, i)
    ensures InTurn(defines, tops, i) == InTurn(defines, tops[..|tops| - 1], i)
  {
    SameTurns(defines, tops);
  }

  lemma ThenFirst(defines: Vars, tops: seq<TopConst>, x: Name)
    requires tops != [] && NeverFolded(defines, tops[..|tops| - 1], x)
    ensures var n := |tops| - 1;
            if User(tops[n].x) == x && InTurn(defines, tops, n).Some? then FirstFolded(defines, tops, x, n)
            else NeverFolded(defines, tops, x)
  {
    SameTurns(defines, tops);
  }

  lemma SameTurns(defines: Vars, tops: seq<TopConst>)
    requires tops != []
    ensures forall i | 0 <= i < |tops| - 1 ::
              tops[..|tops| - 1][i] == tops[i] && InTurn(defines, tops[..|tops| - 1], i) == InTurn(defines, tops, i)
  {
    forall i | 0 <= i < |tops| - 1
      ensures InTurn(defines, tops[..|tops| - 1], i) == InTurn(defines, tops, i)
    {
      assert tops[..|tops| - 1][..i] == tops[..i];
    }
  }

  // ----- what is pruned, and what is accepted then -----

  function PruneStore(e: Expr, env: Vars, fold: bool): Expr {
    match e
    case Cond(c, t, f) =>
      (match Known(c, env, fold)
       case Some(b) => PruneStore(if b then t else f, env, fold)
       case None => e)
    case _ => e
  }

  function PruneDecls(ds: seq<Declarator>, env: Vars, fold: bool): seq<Declarator> {
    if ds == [] then [] else [Declarator(ds[0].x, PruneStore(ds[0].init, env, fold))] + PruneDecls(ds[1..], env, fold)
  }

  function PruneList(ss: seq<Stmt>, env: Vars, fold: bool): seq<Stmt>
    decreases ss, 0
  {
    if ss == [] then [] else PruneStmt(ss[0], env, fold) + PruneList(ss[1..], env, fold)
  }

  /** Only the side taken of every test that is known. */
  function PruneStmt(s: Stmt, env: Vars, fold: bool): seq<Stmt>
    decreases s, 1
  {
    match s
    case Decl(ds) => [Decl(PruneDecls(ds, env, fold))]
    case Assign(x, e) => [Assign(x, PruneStore(e, env, fold))]
    case If(c, thn, els) =>
      (match Known(c, env, fold)
       case Some(b) => PruneList(if b then thn else els, env, fold)
       case None => [If(c, PruneList(thn, env, fold), PruneList(els, env, fold))])
    case While(c, body) => [While(c, PruneList(body, env, fold))]
    case For(init, c, step, body) =>
      [For(PruneList(init, env, fold), c, PruneList(step, env, fold), PruneList(body, env, fold))]
    case _ => [s]
  }

  /** A ternary may only be the whole of what is stored, with none inside it. */
  predicate StoreAccepted(e: Expr) {
    if e.Cond? then NoTernary(e.c) && NoTernary(e.t) && NoTernary(e.f) else NoTernary(e)
  }

  predicate DeclsAccepted(ds: seq<Declarator>) {
    ds == [] || (StoreAccepted(ds[0].init) && DeclsAccepted(ds[1..]))
  }

  predicate Accepted(ss: seq<Stmt>)
    decreases ss, 0
  {
    ss == [] || (StmtAccepted(ss[0]) && Accepted(ss[1..]))
  }

  predicate StmtAccepted(s: Stmt)
    decreases s, 1
  {
    match s
    case Decl(ds) => DeclsAccepted(ds)
    case Assign(_, e) => StoreAccepted(e)
    case OpAssign(_, _, e) => NoTernary(e)
    case Eff(e) => NoTernary(e)
    case If(c, thn, els) => NoTernary(c) && Accepted(thn) && Accepted(els)
    case While(c, body) => NoTernary(c) && Accepted(body)
    case For(init, c, step, body) => NoTernary(c) && Accepted(init) && Accepted(step) && Accepted(body)
    case Return(Some(e)) => NoTernary(e)
    case Throw(e) => NoTernary(e)
    case _ => true
  }

  lemma {:induction false} AcceptedConcat(a: seq<Stmt>, b: seq<Stmt>)
    ensures Accepted(a + b) <==> Accepted(a) && Accepted(b)
  {
    if a == [] {
      assert a + b == b;
    } else {
      assert (a + b)[1..] == a[1..] + b;
      AcceptedConcat(a[1..], b);
    }
  }

  lemma AcceptedOne(s: Stmt)
    ensures Accepted([s]) <==> StmtAccepted(s)
  {
    assert [s][1..] == [];
  }

  lemma {:induction false} StoreEmits(e: Expr, env: Vars, fold: bool)
    ensures EmitStore(e, env, fold) ==
            if StoreAccepted(PruneStore(e, env, fold)) then Some(PruneStore(e, env, fold)) else None
  {
    if e.Cond? {
      StoreEmits(e.t, env, fold);
      StoreEmits(e.f, env, fold);
    }
  }

  lemma {:induction false} DeclsEmit(ds: seq<Declarator>, env: Vars, fold: bool)
    ensures EmitDecls(ds, env, fold) ==
            if DeclsAccepted(PruneDecls(ds, env, fold)) then Some(PruneDecls(ds, env, fold)) else None
  {
    if ds != [] {
      StoreEmits(ds[0].init, env, fold);
      DeclsEmit(ds[1..], env, fold);
      var one := [Declarator(ds[0].x, PruneStore(ds[0].init, env, fold))];
      assert (one + PruneDecls(ds[1..], env, fold))[1..] == PruneDecls(ds[1..], env, fold);
    }
  }

  /** Compiling a body is pruning it, and then refusing it exactly where a ternary is left that
      is not stored. */
  lemma {:induction false} EmitsExactly(ss: seq<Stmt>, env: Vars, fold: bool)
    ensures EmitList(ss, env, fold) ==
            if Accepted(PruneList(ss, env, fold)) then Some(PruneList(ss, env, fold)) else None
    decreases ss, 0
  {
    if ss != [] {
      StmtEmits(ss[0], env, fold);
      EmitsExactly(ss[1..], env, fold);
      AcceptedConcat(PruneStmt(ss[0], env, fold), PruneList(ss[1..], env, fold));
    }
  }

  lemma {:induction false} StmtEmits(s: Stmt, env: Vars, fold: bool)
    ensures EmitStmt(s, env, fold) ==
            if Accepted(PruneStmt(s, env, fold)) then Some(PruneStmt(s, env, fold)) else None
    decreases s, 1
  {
    if !(s.If? && Known(s.c, env, fold).Some?) {
      AcceptedOne(PruneStmt(s, env, fold)[0]);
    }
    match s
    case Decl(ds) => DeclsEmit(ds, env, fold);
    case Assign(_, e) => StoreEmits(e, env, fold);
    case If(_, thn, els) => EmitsExactly(thn, env, fold); EmitsExactly(els, env, fold);
    case While(_, body) => EmitsExactly(body, env, fold);
    case For(init, _, step, body) =>
      EmitsExactly(init, env, fold);
      EmitsExactly(step, env, fold);
      EmitsExactly(body, env, fold);
    case _ =>
  }

  // ----- no known test is left -----

  predicate StoreUndecided(e: Expr, env: Vars, fold: bool) {
    e.Cond? ==> Known(e.c, env, fold) == None
  }

  predicate Undecided(ss: seq<Stmt>, env: Vars, fold: bool)
    decreases ss, 0
  {
    ss == [] || (StmtUndecided(ss[0], env, fold) && Undecided(ss[1..], env, fold))
  }

  /** No `if` and no stored ternary whose test is known. */
  predicate StmtUndecided(s: Stmt, env: Vars, fold: bool)
    decreases s, 1
  {
    match s
    case Decl(ds) => forall i | 0 <= i < |ds| :: StoreUndecided(ds[i].init, env, fold)
    case Assign(_, e) => StoreUndecided(e, env, fold)
    case If(c, thn, els) => Known(c, env, fold) == None && Undecided(thn, env, fold) && Undecided(els, env, fold)
    case While(_, body) => Undecided(body, env, fold)
    case For(init, _, step, body) => Undecided(init, env, fold) && Undecided(step, env, fold) && Undecided(body, env, fold)
    case _ => true
  }

  lemma {:induction false} UndecidedConcat(a: seq<Stmt>, b: seq<Stmt>, env: Vars, fold: bool)
    ensures Undecided(a + b, env, fold) <==> Undecided(a, env, fold) && Undecided(b, env, fold)
  {
    if a == [] {
      assert a + b == b;
    } else {
      assert (a + b)[1..] == a[1..] + b;
      UndecidedConcat(a[1..], b, env, fold);
    }
  }

  lemma UndecidedOne(s: Stmt, env: Vars, fold: bool)
    ensures Undecided([s], env, fold) <==> StmtUndecided(s, env, fold)
  {
    assert [s][1..] == [];
  }

  lemma {:induction false} StorePruned(e: Expr, env: Vars, fold: bool)
    ensures StoreUndecided(PruneStore(e, env, fold), env, fold)
    ensures StoreUndecided(e, env, fold) <==> PruneStore(e, env, fold) == e
  {
    if e.Cond? {
      StorePruned(e.t, env, fold);
      StorePruned(e.f, env, fold);
      StoreSmaller(e.t, env, fold);
      StoreSmaller(e.f, env, fold);
    }
  }

  lemma {:induction false} StoreSmaller(e: Expr, env: Vars, fold: bool)
    ensures PruneStore(e, env, fold) == e || PruneStore(e, env, fold) < e
  {
    if e.Cond? {
      StoreSmaller(e.t, env, fold);
      StoreSmaller(e.f, env, fold);
    }
  }

  lemma {:induction false} DeclsPruned(ds: seq<Declarator>, env: Vars, fold: bool)
    ensures var out := PruneDecls(ds, env, fold);
            && |out| == |ds|
            && (forall i | 0 <= i < |out| :: StoreUndecided(out[i].init, env, fold))
            && ((forall i | 0 <= i < |ds| :: StoreUndecided(ds[i].init, env, fold)) ==> out == ds)
            && (!fold ==> out == ds)
  {
    if ds != [] {
      StorePruned(ds[0].init, env, fold);
      DeclsPruned(ds[1..], env, fold);
      assert ds == [ds[0]] + ds[1..];
    }
  }

  /** What is left has no known test in it; what had none is left alone, as everything is when
      folding is off. */
  lemma {:induction false} PruneComplete(ss: seq<Stmt>, env: Vars, fold: bool)
    ensures Undecided(PruneList(ss, env, fold), env, fold)
    ensures Undecided(ss, env, fold) || !fold ==> PruneList(ss, env, fold) == ss
    decreases ss, 0
  {
    if ss != [] {
      StmtPruned(ss[0], env, fold);
      PruneComplete(ss[1..], env, fold);
      UndecidedConcat(PruneStmt(ss[0], env, fold), PruneList(ss[1..], env, fold), env, fold);
      assert ss == [ss[0]] + ss[1..];
    }
  }

  lemma {:induction false} StmtPruned(s: Stmt, env: Vars, fold: bool)
    ensures Undecided(PruneStmt(s, env, fold), env, fold)
    ensures StmtUndecided(s, env, fold) || !fold ==> PruneStmt(s, env, fold) == [s]
    decreases s, 1
  {
    if !(s.If? && Known(s.c, env, fold).Some?) {
      UndecidedOne(PruneStmt(s, env, fold)[0], env, fold);
    }
    match s
    case Decl(ds) => DeclsPruned(ds, env, fold);
    case Assign(_, e) => StorePruned(e, env, fold);
    case If(_, thn, els) => PruneComplete(thn, env, fold); PruneComplete(els, env, fold);
    case While(_, body) => PruneComplete(body, env, fold);
    case For(init, _, step, body) =>
      PruneComplete(init, env, fold);
      PruneComplete(step, env, fold);
      PruneComplete(body, env, fold);
    case _ =>
  }

  // ----- the declarations kept -----

  /** One declaration is kept exactly when it is `main` or reached, and lists are kept part by
      part, so in order and with every duplicate. */
  lemma {:induction false} KeptInOrder(a: seq<Declared>, d: Declared, b: seq<Declared>, k: set<Ident>)
    ensures Kept([d], k) == if d.name == "main" || d.name in k then [d] else []
    ensures Kept(a + [d] + b, k) == Kept(a, k) + Kept([d], k) + Kept(b, k)
  {
    assert [d][..0] == [];
    if b == [] {
      assert a + [d] + b == a + [d] && (a + [d])[..|a|] == a;
    } else {
      var n := |b| - 1;
      assert (a + [d] + b)[..|a| + 1 + n] == a + [d] + b[..n];
      KeptInOrder(a, d, b[..n], k);
    }
  }
}
