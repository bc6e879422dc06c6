/** Dropping the functions `main` cannot reach, where an `if` or ternary whose test is known
    at compile time counts only for the side it takes. */
module Treeshake {
  import opened Arith
  import opened Sauce

  // ----- compile-time values -----

  /** The value of an expression known from the constants alone. Locals are not consulted. */
  function EvalConst(e: Expr, env: Vars): Option<int> {
    match e
    case Lit(v) => Some(v)
    case Var(x) => if x in env then Some(env[x]) else None
    case Un(op, a) =>
      (match EvalConst(a, env)
       case Some(v) => Some(Unary(op, v))
       case None => None)
    case Bin(op, l, r) =>
      (match (EvalConst(l, env), EvalConst(r, env))
       case (Some(a), Some(b)) => Binary(op, a, b)
       case _ => None)
    case Logic(isAnd, l, r) =>
      var a := EvalConst(l, env);
      if a.Some? && isAnd == (a.value == 0) then Some(Bool(!isAnd))
      else
        (match (a, EvalConst(r, env))
         case (Some(x), Some(y)) => Some(Bool(if isAnd then x != 0 && y != 0 else x != 0 || y != 0))
         case _ => None)
    case _ => None
  }

  /** Which way a test goes, if folding is on and knows. */
  function Known(c: Expr, env: Vars, fold: bool): Option<bool> {
    if !fold then None
    else
      match EvalConst(c, env)
      case Some(v) => Some(v != 0)
      case None => None
  }

  datatype TopConst = TopConst(x: Ident, init: Expr)

  /** Defines come first and win; then each foldable initializer in order, first of a name. */
  function Constants(defines: Vars, tops: seq<TopConst>): (env: Vars)
    ensures forall x | x in defines :: x in env && env[x] == defines[x]
  {
    if tops == [] then defines
    else
      var before := Constants(defines, tops[..|tops| - 1]);
      var top := tops[|tops| - 1];
      match EvalConst(top.init, before)
      case Some(v) => if User(top.x) in before then before else before[User(top.x) := v]
      case None => before
  }

  method RegisterTopLevelConsts(defines: Vars, tops: seq<TopConst>) returns (env: Vars)
    ensures env == Constants(defines, tops)
  {
    env := defines;
    for i := 0 to |tops|
      invariant env == Constants(defines, tops[..i])
    {
      assert tops[..i + 1][..i] == tops[..i];
      var value := EvalConst(tops[i].init, env);
      if value.Some? && User(tops[i].x) !in env {
        env := env[User(tops[i].x) := value.value];
      }
    }
    assert tops[..|tops|] == tops;
  }

  lemma {:induction false} MoreConstants(e: Expr, env: Vars, more: Vars)
    requires forall x | x in env :: x in more && more[x] == env[x]
    ensures EvalConst(e, env).Some? ==> EvalConst(e, more) == EvalConst(e, env)
  {
    match e
    case Un(_, a) => MoreConstants(a, env, more);
    case Bin(_, l, r) =>
      MoreConstants(l, env, more);
      MoreConstants(r, env, more);
    case Logic(_, l, r) =>
      MoreConstants(l, env, more);
      MoreConstants(r, env, more);
    case _ =>
  }

  /** Every constant is a define, or the value its initializer still has once all are known. */
  lemma {:induction false} ConstantsConsistent(defines: Vars, tops: seq<TopConst>, x: Name)
    requires x in Constants(defines, tops)
    ensures var env := Constants(defines, tops);
            if x in defines then env[x] == defines[x]
            else exists i | 0 <= i < |tops| :: x == User(tops[i].x) && EvalConst(tops[i].init, env) == Some(env[x])
  {
    if tops != [] {
      var n := |tops| - 1;
      var before, env := Constants(defines, tops[..n]), Constants(defines, tops);
      if x in before {
        ConstantsConsistent(defines, tops[..n], x);
        if x !in defines {
          var i :| 0 <= i < n && x == User(tops[..n][i].x) && EvalConst(tops[..n][i].init, before) == Some(before[x]);
          MoreConstants(tops[i].init, before, env);
          assert x == User(tops[i].x) && EvalConst(tops[i].init, env) == Some(env[x]);
        }
      } else {
        MoreConstants(tops[n].init, before, env);
        assert x == User(tops[n].x) && EvalConst(tops[n].init, env) == Some(env[x]);
      }
    }
  }

  // ----- the calls a body makes -----

  /** Declared functions called, past the pruned sides. */
  function Calls(e: Expr, env: Vars, fold: bool, declared: set<Ident>): set<Ident>
    decreases e, 0
  {
    match e
    case Lit(_) => {}
    case Var(_) => {}
    case Un(_, a) => Calls(a, env, fold, declared)
    case Bin(_, l, r) => Calls(l, env, fold, declared) + Calls(r, env, fold, declared)
    case Logic(_, l, r) => Calls(l, env, fold, declared) + Calls(r, env, fold, declared)
    case Cond(c, t, f) =>
      (match Known(c, env, fold)
       case Some(b) => Calls(if b then t else f, env, fold, declared)
       case None => Calls(c, env, fold, declared) + Calls(t, env, fold, declared) + Calls(f, env, fold, declared))
    case Call(callee, args) => ({callee} * declared) + ArgCalls(args, env, fold, declared)
  }

  function ArgCalls(args: seq<Expr>, env: Vars, fold: bool, declared: set<Ident>): set<Ident>
    decreases args, 0
  {
    if args == [] then {} else Calls(args[0], env, fold, declared) + ArgCalls(args[1..], env, fold, declared)
  }

  function DeclCalls(ds: seq<Declarator>, env: Vars, fold: bool, declared: set<Ident>): set<Ident> {
    if ds == [] then {} else Calls(ds[0].init, env, fold, declared) + DeclCalls(ds[1..], env, fold, declared)
  }

  function CallsIn(ss: seq<Stmt>, env: Vars, fold: bool, declared: set<Ident>): set<Ident>
    decreases ss, 0
  {
    if ss == [] then {} else StmtCalls(ss[0], env, fold, declared) + CallsIn(ss[1..], env, fold, declared)
  }

  function StmtCalls(s: Stmt, env: Vars, fold: bool, declared: set<Ident>): set<Ident>
    decreases s, 1
  {
    match s
    case Decl(ds) => DeclCalls(ds, env, fold, declared)
    case Assign(_, e) => Calls(e, env, fold, declared)
    case OpAssign(_, _, e) => Calls(e, env, fold, declared)
    case Eff(e) => Calls(e, env, fold, declared)
    case If(c, thn, els) =>
      (match Known(c, env, fold)
       case Some(b) => CallsIn(if b then thn else els, env, fold, declared)
       case None =>
         Calls(c, env, fold, declared) + CallsIn(thn, env, fold, declared) + CallsIn(els, env, fold, declared))
    case While(c, body) => Calls(c, env, fold, declared) + CallsIn(body, env, fold, declared)
    case For(init, c, step, body) =>
      CallsIn(init, env, fold, declared) + Calls(c, env, fold, declared) + CallsIn(step, env, fold, declared)
      + CallsIn(body, env, fold, declared)
    case Return(Some(e)) => Calls(e, env, fold, declared)
    case Throw(e) => Calls(e, env, fold, declared)
    case _ => {}
  }

  // ----- reachability -----

  type Table = map<Ident, Fn>

  function Callees(f: Ident, fns: Table, env: Vars, fold: bool): set<Ident> {
    if f in fns then CallsIn(fns[f].body, env, fold, fns.Keys) else {}
  }

  /** A chain of calls, each from a declared function's body. */
  predicate Chain(p: seq<Ident>, fns: Table, env: Vars, fold: bool) {
    forall i | 0 <= i < |p| - 1 :: p[i + 1] in Callees(p[i], fns, env, fold)
  }

  ghost predicate ChainTo(p: seq<Ident>, f: Ident, fns: Table, env: Vars, fold: bool) {
    p != [] && p[0] == "main" && p[|p| - 1] == f && Chain(p, fns, env, fold)
  }

  ghost predicate Reaches(f: Ident, fns: Table, env: Vars, fold: bool) {
    exists p :: ChainTo(p, f, fns, env, fold)
  }

  ghost predicate Closed(k: set<Ident>, fns: Table, env: Vars, fold: bool) {
    "main" in k && forall f, g | f in k && g in Callees(f, fns, env, fold) :: g in k
  }

  lemma ReachesNext(f: Ident, g: Ident, fns: Table, env: Vars, fold: bool)
    requires Reaches(f, fns, env, fold) && g in Callees(f, fns, env, fold)
    ensures Reaches(g, fns, env, fold)
  {
    var p :| ChainTo(p, f, fns, env, fold);
    assert ChainTo(p + [g], g, fns, env, fold);
  }

  lemma {:induction false} ChainStays(p: seq<Ident>, k: set<Ident>, fns: Table, env: Vars, fold: bool)
    requires p != [] && p[0] in k && Chain(p, fns, env, fold) && Closed(k, fns, env, fold)
    ensures p[|p| - 1] in k
  {
    if |p| > 1 {
      assert p[1] in Callees(p[0], fns, env, fold);
      assert Chain(p[1..], fns, env, fold) by {
        forall i | 0 <= i < |p| - 2
          ensures p[1..][i + 1] in Callees(p[1..][i], fns, env, fold)
        {
          assert p[i + 1 + 1] in Callees(p[i + 1], fns, env, fold);
        }
      }
      ChainStays(p[1..], k, fns, env, fold);
    }
  }

  /** Nothing unreachable is seen or waiting, and nothing reachable is forgotten. */
  ghost predicate Pending(seen: set<Ident>, stack: seq<Ident>, fns: Table, env: Vars, fold: bool) {
    && (forall f | f in seen || f in stack :: Reaches(f, fns, env, fold))
    && ("main" in seen || "main" in stack)
    && (forall f, g | f in seen && g in Callees(f, fns, env, fold) :: g in seen || g in stack)
  }

  /** The worklist: exactly the names a chain of calls from `main` leads to. */
  method Walk(fns: Table, env: Vars, fold: bool) returns (reachable: set<Ident>)
    ensures forall f :: f in reachable <==> Reaches(f, fns, env, fold)
    ensures Closed(reachable, fns, env, fold)
  {
    reachable := {};
    var stack: seq<Ident> := ["main"];
    ghost var all := fns.Keys + {"main"};
    assert ChainTo(["main"], "main", fns, env, fold);
    while stack != []
      invariant reachable <= all && forall f | f in stack :: f in all
      invariant Pending(reachable, stack, fns, env, fold)
      decreases |all - reachable|, |stack|
    {
      var name := stack[|stack| - 1];
      var rest := stack[..|stack| - 1];
      if name !in reachable {
        CallsDeclared(name, fns, env, fold);
        SmallerSet(all - (reachable + {name}), all - reachable);
        var pushed := Push(rest, Callees(name, fns, env, fold), reachable + {name});
        Visit(reachable, stack, pushed, fns, env, fold);
        reachable, stack := reachable + {name}, pushed;
      } else {
        stack := rest;
      }
    }
    forall f | Reaches(f, fns, env, fold)
      ensures f in reachable
    {
      var p :| ChainTo(p, f, fns, env, fold);
      ChainStays(p, reachable, fns, env, fold);
    }
  }

  lemma Visit(seen: set<Ident>, stack: seq<Ident>, pushed: seq<Ident>, fns: Table, env: Vars, fold: bool)
    requires stack != [] && Pending(seen, stack, fns, env, fold)
    requires var n := |stack| - 1;
             forall f :: f in pushed <==>
               f in stack[..n] || (f in Callees(stack[n], fns, env, fold) && f !in seen + {stack[n]})
    ensures Pending(seen + {stack[|stack| - 1]}, pushed, fns, env, fold)
  {
    var name := stack[|stack| - 1];
    assert stack == stack[..|stack| - 1] + [name];
    forall g | g in Callees(name, fns, env, fold)
      ensures Reaches(g, fns, env, fold)
    {
      ReachesNext(name, g, fns, env, fold);
    }
  }

  /** Pushes what is not reached yet, in some order. */
  method Push(stack: seq<Ident>, callees: set<Ident>, reachable: set<Ident>) returns (r: seq<Ident>)
    ensures forall f :: f in r <==> f in stack || (f in callees && f !in reachable)
  {
    r := stack;
    var todo := callees;
    while todo != {}
      invariant todo <= callees
      invariant forall f :: f in r <==> f in stack || (f in callees - todo && f !in reachable)
      decreases todo
    {
      var g :| g in todo;
      todo := todo - {g};
      if g !in reachable {
        r := r + [g];
      }
    }
  }

  lemma SmallerSet<T>(a: set<T>, b: set<T>)
    requires a < b
    ensures |a| < |b|
  {
    var x :| x in b && x !in a;
    assert a <= b - {x};
    SubsetSize(a, b - {x});
  }

  lemma {:induction false} SubsetSize<T>(a: set<T>, b: set<T>)
    requires a <= b
    ensures |a| <= |b|
  {
    if a != {} {
      var x :| x in a;
      SubsetSize(a - {x}, b - {x});
    }
  }

  lemma CallsDeclared(f: Ident, fns: Table, env: Vars, fold: bool)
    ensures Callees(f, fns, env, fold) <= fns.Keys
  {
    if f in fns {
      ListDeclared(fns[f].body, env, fold, fns.Keys);
    }
  }

  lemma {:induction false} ExprDeclared(e: Expr, env: Vars, fold: bool, declared: set<Ident>)
    ensures Calls(e, env, fold, declared) <= declared
    decreases e, 0
  {
    match e
    case Un(_, a) => ExprDeclared(a, env, fold, declared);
    case Bin(_, l, r) => ExprDeclared(l, env, fold, declared); ExprDeclared(r, env, fold, declared);
    case Logic(_, l, r) => ExprDeclared(l, env, fold, declared); ExprDeclared(r, env, fold, declared);
    case Cond(c, t, f) =>
      ExprDeclared(c, env, fold, declared);
      ExprDeclared(t, env, fold, declared);
      ExprDeclared(f, env, fold, declared);
    case Call(_, args) => ArgsDeclared(args, env, fold, declared);
    case _ =>
  }

  lemma {:induction false} ArgsDeclared(args: seq<Expr>, env: Vars, fold: bool, declared: set<Ident>)
    ensures ArgCalls(args, env, fold, declared) <= declared
    decreases args, 0
  {
    if args != [] {
      ExprDeclared(args[0], env, fold, declared);
      ArgsDeclared(args[1..], env, fold, declared);
    }
  }

  lemma {:induction false} DeclsDeclared(ds: seq<Declarator>, env: Vars, fold: bool, declared: set<Ident>)
    ensures DeclCalls(ds, env, fold, declared) <= declared
  {
    if ds != [] {
      ExprDeclared(ds[0].init, env, fold, declared);
      DeclsDeclared(ds[1..], env, fold, declared);
    }
  }

  lemma {:induction false} ListDeclared(ss: seq<Stmt>, env: Vars, fold: bool, declared: set<Ident>)
    ensures CallsIn(ss, env, fold, declared) <= declared
    decreases ss, 0
  {
    if ss != [] {
      StmtDeclared(ss[0], env, fold, declared);
      ListDeclared(ss[1..], env, fold, declared);
    }
  }

  lemma {:induction false} StmtDeclared(s: Stmt, env: Vars, fold: bool, declared: set<Ident>)
    ensures StmtCalls(s, env, fold, declared) <= declared
    decreases s, 1
  {
    match s
    case Decl(ds) => DeclsDeclared(ds, env, fold, declared);
    case Assign(_, e) => ExprDeclared(e, env, fold, declared);
    case OpAssign(_, _, e) => ExprDeclared(e, env, fold, declared);
    case Eff(e) => ExprDeclared(e, env, fold, declared);
    case If(c, thn, els) =>
      ExprDeclared(c, env, fold, declared);
      ListDeclared(thn, env, fold, declared);
      ListDeclared(els, env, fold, declared);
    case While(c, body) => ExprDeclared(c, env, fold, declared); ListDeclared(body, env, fold, declared);
    case For(init, c, step, body) =>
      ListDeclared(init, env, fold, declared);
      ExprDeclared(c, env, fold, declared);
      ListDeclared(step, env, fold, declared);
      ListDeclared(body, env, fold, declared);
    case Return(Some(e)) => ExprDeclared(e, env, fold, declared);
    case Throw(e) => ExprDeclared(e, env, fold, declared);
    case _ =>
  }

  // ----- the declarations kept -----

  datatype Declared = Declared(name: Ident, fn: Fn)

  /** The last declaration of a name counts. */
  function TableOf(ds: seq<Declared>): Table {
    if ds == [] then map[] else TableOf(ds[..|ds| - 1])[ds[|ds| - 1].name := ds[|ds| - 1].fn]
  }

  function Kept(ds: seq<Declared>, k: set<Ident>): seq<Declared> {
    if ds == [] then []
    else if ds[|ds| - 1].name == "main" || ds[|ds| - 1].name in k then Kept(ds[..|ds| - 1], k) + [ds[|ds| - 1]]
    else Kept(ds[..|ds| - 1], k)
  }

  method Shake(ds: seq<Declared>, env: Vars, fold: bool) returns (kept: seq<Declared>, ghost k: set<Ident>)
    ensures forall f :: f in k <==> Reaches(f, TableOf(ds), env, fold)
    ensures Closed(k, TableOf(ds), env, fold)
    ensures kept == Kept(ds, k)
  {
    var fns: Table := map[];
    for i := 0 to |ds|
      invariant fns == TableOf(ds[..i])
    {
      assert ds[..i + 1][..i] == ds[..i];
      fns := fns[ds[i].name := ds[i].fn];
    }
    assert ds[..|ds|] == ds;
    var reachable := Walk(fns, env, fold);
    k := reachable;
    kept := [];
    for i := 0 to |ds|
      invariant kept == Kept(ds[..i], reachable)
    {
      assert ds[..i + 1][..i] == ds[..i];
      if ds[i].name == "main" || ds[i].name in reachable {
        kept := kept + [ds[i]];
      }
    }
  }

  function Only(fns: Table, k: set<Ident>): Table {
    fns - (fns.Keys - k)
  }

  /** Keeping declarations keeps exactly those names' meanings. */
  lemma {:induction false} KeptTable(ds: seq<Declared>, k: set<Ident>)
    requires "main" in k
    ensures TableOf(Kept(ds, k)) == Only(TableOf(ds), k)
  {
    if ds != [] {
      var n := |ds| - 1;
      KeptTable(ds[..n], k);
      if ds[n].name in k {
        assert (Kept(ds[..n], k) + [ds[n]])[..|Kept(ds[..n], k)|] == Kept(ds[..n], k);
      }
    }
  }
}
