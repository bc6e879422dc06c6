/** Constant propagation inside one function: what each local is known to hold is carried
    from statement to statement, and every read of a known local becomes its value. */
module LocalConst {
  import opened Arith
  import opened TsLang
  import opened TsConst
  import opened TsRewrite
  import opened TsRewriteStmts

  /** What is known of each local; None is "not a compile-time constant". */
  type Env = map<Name, Option<int>>

  /** The file's own constants and functions, and the names the function calls. */
  datatype Top = Top(consts: Consts, funcs: Funcs, called: set<Name>)

  function KnownIn(env: Env): Consts {
    map x | x in env && env[x].Some? :: env[x].value
  }

  function Unknown(env: Env): set<Name> {
    set x | x in env && env[x] == None
  }

  /** What names read as: locals where they are known, the file's constants elsewhere. */
  function Resolve(env: Env, top: Top): (k: Know)
    ensures k.known.Keys !! k.shadowed && Plain(k)
  {
    Know((top.consts - env.Keys) + KnownIn(env), Unknown(env), top.funcs, top.called, {}, map[], map[], {})
  }

  predicate Plain(k: Know) {
    k.hidden == {} && k.arrays == map[] && k.held == map[] && k.sites == {}
  }

  // ----- substituting what is known -----

  /** Every known name becomes its value, and a decided choice its chosen branch. */
  function Subst(k: Know, e: Expr): Expr {
    match e
    case Lit(_) => e
    case Var(x) => if x in k.known then Literal(k.known[x]) else e
    case Un(op, a) => Un(op, Subst(k, a))
    case Bin(op, l, r) => Bin(op, Subst(k, l), Subst(k, r))
    case Logic(isAnd, l, r) => Logic(isAnd, Subst(k, l), Subst(k, r))
    case Cond(b, t, f) =>
      (match EvalConst(b, k.known, k.funcs, k.shadowed)
       case Some(v) => if v != 0 then Subst(k, t) else Subst(k, f)
       case None => Cond(Subst(k, b), Subst(k, t), Subst(k, f)))
    case Call(f, args) => Call(f, SubstAll(k, args))
    case Index(b, i) => Index(Subst(k, b), Subst(k, i))
    case NewArr(site, n) => NewArr(site, Subst(k, n))
    case ArrayLit(es) => ArrayLit(SubstAll(k, es))
    case Assign(x, op, r) => Assign(x, op, Subst(k, r))
    case SetAt(b, i, op, r) => SetAt(Subst(k, b), Subst(k, i), op, Subst(k, r))
    case Update(_, _, _) => e
  }

  function SubstAll(k: Know, es: seq<Expr>): seq<Expr> {
    if es == [] then [] else [Subst(k, es[0])] + SubstAll(k, es[1..])
  }

  function SubstOpt(k: Know, e: Option<Expr>): Option<Expr> {
    match e case None => None case Some(x) => Some(Subst(k, x))
  }

  function SubstLets(k: Know, ds: seq<Declarator>): seq<Declarator> {
    if ds == [] then [] else [Declarator(ds[0].x, SubstOpt(k, ds[0].init))] + SubstLets(k, ds[1..])
  }

  function SubstStmt(k: Know, st: Stmt): Stmt
    decreases st, 1
  {
    match st
    case Let(ds) => Let(SubstLets(k, ds))
    case Do(e) => Do(Subst(k, e))
    case If(b, t, f) => If(Subst(k, b), SubstList(k, t), SubstList(k, f))
    case While(b, body) => While(Subst(k, b), SubstList(k, body))
    case For(init, test, step, body) =>
      For(SubstList(k, init), SubstOpt(k, test), SubstOpt(k, step), SubstList(k, body))
    case Return(e) => Return(SubstOpt(k, e))
    case Throw(e) => Throw(Subst(k, e))
    case Break => st
    case Continue => st
  }

  function SubstList(k: Know, ss: seq<Stmt>): seq<Stmt>
    decreases ss, 0
  {
    if ss == [] then [] else [SubstStmt(k, ss[0])] + SubstList(k, ss[1..])
  }

  // ----- the walk -----

  predicate HasName(e: Expr) {
    match e
    case Lit(_) => false
    case Un(_, a) => HasName(a)
    case Bin(_, l, r) => HasName(l) || HasName(r)
    case Logic(_, l, r) => HasName(l) || HasName(r)
    case Cond(b, t, f) => HasName(b) || HasName(t) || HasName(f)
    case Index(b, i) => HasName(b) || HasName(i)
    case ArrayLit(es) => AnyName(es)
    case SetAt(b, i, _, r) => HasName(b) || HasName(i) || HasName(r)
    case _ => true
  }

  predicate AnyName(es: seq<Expr>) {
    es != [] && (HasName(es[0]) || AnyName(es[1..]))
  }

  /** The value, directly or once decided choices are gone. */
  function EvalLocal(k: Know, e: Expr): Option<int> {
    var direct := EvalConst(e, k.known, k.funcs, k.shadowed);
    if direct.Some? then direct else EvalConst(Subst(k, e), k.known, k.funcs, k.shadowed)
  }

  /** The whole value if there is one, otherwise what can be substituted; an expression
      without names is already as simple as it gets. */
  function FoldOrSubst(k: Know, e: Expr): (Expr, Option<int>) {
    match EvalLocal(k, e)
    case Some(v) => (if HasName(e) then Literal(v) else e, Some(v))
    case None => (Subst(k, e), None)
  }

  predicate IsAssignOp(op: BinOp) {
    !(op.Eq? || op.Ne? || op.Lt? || op.Le? || op.Gt? || op.Ge?)
  }

  /** What a local holds after a compound assignment. */
  function CompoundResult(k: Know, x: Name, op: BinOp, r: Expr): Option<int> {
    match (if x in k.known then Some(k.known[x]) else None, EvalLocal(k, r))
    case (Some(a), Some(b)) => if IsAssignOp(op) then Binary(op, a, b) else None
    case _ => None
  }

  function UpdateResult(k: Know, x: Name, inc: bool): Option<int> {
    if x in k.known then Some(if inc then k.known[x] + 1 else k.known[x] - 1) else None
  }

  function WalkExpr(e: Expr, env: Env, top: Top): (Expr, Env) {
    var k := Resolve(env, top);
    match e
    case Assign(x, None, r) =>
      var (r2, v) := FoldOrSubst(k, r);
      (Assign(x, None, r2), env[x := v])
    case Assign(x, Some(op), r) => (Assign(x, Some(op), Subst(k, r)), env[x := CompoundResult(k, x, op, r)])
    case SetAt(b, i, op, r) =>
      (SetAt(Subst(k, b), Subst(k, i), op, if op == None then FoldOrSubst(k, r).0 else Subst(k, r)), env)
    case Update(x, inc, _) => (e, env[x := UpdateResult(k, x, inc)])
    case _ => (Subst(k, e), env)
  }

  function WalkLets(ds: seq<Declarator>, env: Env, top: Top): (seq<Declarator>, Env) {
    if ds == [] then ([], env)
    else
      var (init, v) :=
        match ds[0].init
        case None => (None, None)
        case Some(e) => (var r := FoldOrSubst(Resolve(env, top), e); (Some(r.0), r.1));
      var (rest, env2) := WalkLets(ds[1..], env[ds[0].x := v], top);
      ([Declarator(ds[0].x, init)] + rest, env2)
  }

  /** Known afterwards only where both branches agree. */
  function Merge(env: Env, thn: Env, els: Env): Env {
    map x | x in env ::
      var t := if x in thn then thn[x] else env[x];
      var f := if x in els then els[x] else env[x];
      if t == f then t else None
  }

  /** All these names become unknown. */
  function Forget(env: Env, names: set<Name>): Env {
    env + map x | x in names :: None
  }

  function WalkStmt(st: Stmt, env: Env, top: Top): (Stmt, Env)
    decreases st, 2
  {
    match st
    case Let(ds) => (var r := WalkLets(ds, env, top); (Let(r.0), r.1))
    case Do(e) => (var r := WalkExpr(e, env, top); (Do(r.0), r.1))
    case If(b, t, f) =>
      var b2 := FoldOrSubst(Resolve(env, top), b).0;
      var (t2, thn) := WalkList(t, env, top);
      var (f2, els) := WalkList(f, env, top);
      (If(b2, t2, f2), Merge(env, thn, els))
    case While(_, _) => WalkLoop(st, env, top)
    case For(_, _, _, _) => WalkLoop(st, env, top)
    case Return(Some(e)) => (Return(Some(FoldOrSubst(Resolve(env, top), e).0)), env)
    case Throw(e) => (Throw(FoldOrSubst(Resolve(env, top), e).0), env)
    case _ => (st, env)
  }

  /** A loop forgets whatever it writes, before anything in it is read. */
  function WalkLoop(st: Stmt, env: Env, top: Top): (Stmt, Env) {
    var env2 := Forget(env, StmtWrites(st));
    (SubstStmt(Resolve(env2, top), st), env2)
  }

  function WalkSeq(ss: seq<Stmt>, env: Env, top: Top): (seq<Stmt>, Env)
    decreases ss, 0
  {
    if ss == [] then ([], env)
    else
      var (st, env1) := WalkStmt(ss[0], env, top);
      var (rest, env2) := WalkSeq(ss[1..], env1, top);
      ([st] + rest, env2)
  }

  function DirectNames(ss: seq<Stmt>): set<Name> {
    if ss == [] then {} else (if ss[0].Let? then DeclNames(ss[0].ds) else {}) + DirectNames(ss[1..])
  }

  /** The names a list declares are its own from the top, before their declarations. */
  function WalkList(ss: seq<Stmt>, env: Env, top: Top): (seq<Stmt>, Env)
    decreases ss, 1
  {
    WalkSeq(ss, Forget(env, DirectNames(ss)), top)
  }

  function Lexical(ss: seq<Stmt>): set<Name>
    decreases ss, 0
  {
    if ss == [] then {} else StmtLexical(ss[0]) + Lexical(ss[1..])
  }

  /** Every name declared anywhere in a statement. */
  function StmtLexical(st: Stmt): set<Name>
    decreases st, 1
  {
    match st
    case Let(ds) => DeclNames(ds)
    case If(_, t, f) => Lexical(t) + Lexical(f)
    case While(_, body) => Lexical(body)
    case For(init, _, _, body) => Lexical(init) + Lexical(body)
    case _ => {}
  }

  function Scope(fn: Func): set<Name> {
    ParamNames(fn.params) + Lexical(fn.body)
  }

  function CalleesIn(ss: seq<Stmt>): set<Name>
    decreases ss, 0
  {
    if ss == [] then {} else StmtCallees(ss[0]) + CalleesIn(ss[1..])
  }

  function OptCallees(e: Option<Expr>): set<Name> {
    match e case None => {} case Some(x) => Callees(x)
  }

  function LetCallees(ds: seq<Declarator>): set<Name> {
    if ds == [] then {} else OptCallees(ds[0].init) + LetCallees(ds[1..])
  }

  function StmtCallees(st: Stmt): set<Name>
    decreases st, 1
  {
    match st
    case Let(ds) => LetCallees(ds)
    case Do(e) => Callees(e)
    case If(b, t, f) => Callees(b) + CalleesIn(t) + CalleesIn(f)
    case While(b, body) => Callees(b) + CalleesIn(body)
    case For(init, test, step, body) => CalleesIn(init) + OptCallees(test) + OptCallees(step) + CalleesIn(body)
    case Return(e) => OptCallees(e)
    case Throw(e) => Callees(e)
    case Break => {}
    case Continue => {}
  }

  /** The rewritten body: nothing is known of a parameter or a local at first. */
  function Propagate(fn: Func, consts: Consts, funcs: Funcs): seq<Stmt> {
    WalkList(fn.body, Forget(map[], Scope(fn)), Top(consts, funcs, CalleesIn(fn.body))).0
  }
}
