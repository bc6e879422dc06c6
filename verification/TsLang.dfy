/** The statement language the TypeScript passes rewrite, and what it means to run it.
    Numbers are unbounded integers. `if` and `while` bodies share the scope around them;
    only a `for` opens a new one. */
module TsLang {
  import opened Arith

  type Name = string

  /** An array lives where its `new Array` stands in the source, once per time it ran. */
  datatype Loc = Loc(site: nat, k: nat)

  datatype Value = Int(n: int) | Ref(loc: Loc) | Packed(elems: seq<int>)

  datatype Expr =
    | Lit(n: int)
    | Var(x: Name)
    | Un(uop: UnOp, e: Expr)
    | Bin(bop: BinOp, l: Expr, r: Expr)
    | Logic(isAnd: bool, l: Expr, r: Expr)
    | Cond(c: Expr, thn: Expr, els: Expr)
    | Call(f: Name, args: seq<Expr>)
    | Index(base: Expr, idx: Expr)
    | NewArr(site: nat, size: Expr)
    | ArrayLit(es: seq<Expr>)
    | Assign(x: Name, aop: Option<BinOp>, rhs: Expr)
    | SetAt(base: Expr, idx: Expr, aop: Option<BinOp>, rhs: Expr)
    | Update(x: Name, inc: bool, prefix: bool)

  datatype Declarator = Declarator(x: Name, init: Option<Expr>)

  datatype Stmt =
    | Let(ds: seq<Declarator>)
    | Do(e: Expr)
    | If(c: Expr, thn: seq<Stmt>, els: seq<Stmt>)
    | While(c: Expr, body: seq<Stmt>)
    | For(init: seq<Stmt>, test: Option<Expr>, step: Option<Expr>, body: seq<Stmt>)
    | Return(result: Option<Expr>)
    | Throw(e: Expr)
    | Break
    | Continue

  datatype Param = Param(x: Name, default: Option<Expr>)

  datatype Func = Func(params: seq<Param>, body: seq<Stmt>)

  /** How a value is written back into the source. */
  function Literal(v: int): Expr {
    if v < 0 then Un(Neg, Lit(-v)) else Lit(v)
  }

  // ----- names and shapes -----

  /** A call or a `new` anywhere in the expression. */
  predicate HasCall(e: Expr) {
    match e
    case Lit(_) => false
    case Var(_) => false
    case Un(_, a) => HasCall(a)
    case Bin(_, l, r) => HasCall(l) || HasCall(r)
    case Logic(_, l, r) => HasCall(l) || HasCall(r)
    case Cond(c, t, f) => HasCall(c) || HasCall(t) || HasCall(f)
    case Call(_, _) => true
    case Index(b, i) => HasCall(b) || HasCall(i)
    case NewArr(_, _) => true
    case ArrayLit(es) => AnyCall(es)
    case Assign(_, _, r) => HasCall(r)
    case SetAt(b, i, _, r) => HasCall(b) || HasCall(i) || HasCall(r)
    case Update(_, _, _) => false
  }

  predicate AnyCall(es: seq<Expr>) {
    es != [] && (HasCall(es[0]) || AnyCall(es[1..]))
  }

  /** A function whose calls may be folded: one `return`, and no call in it or in a default. */
  predicate Foldable(fn: Func) {
    && |fn.body| == 1
    && fn.body[0].Return?
    && fn.body[0].result.Some?
    && !HasCall(fn.body[0].result.value)
    && CallFree(fn.params)
  }

  predicate CallFree(ps: seq<Param>) {
    ps == [] || ((ps[0].default.Some? ==> !HasCall(ps[0].default.value)) && CallFree(ps[1..]))
  }

  function ParamNames(ps: seq<Param>): set<Name> {
    if ps == [] then {} else {ps[0].x} + ParamNames(ps[1..])
  }

  /** Names the expression mentions as variables, read or written. */
  function Mentions(e: Expr): set<Name> {
    match e
    case Lit(_) => {}
    case Var(x) => {x}
    case Un(_, a) => Mentions(a)
    case Bin(_, l, r) => Mentions(l) + Mentions(r)
    case Logic(_, l, r) => Mentions(l) + Mentions(r)
    case Cond(c, t, f) => Mentions(c) + Mentions(t) + Mentions(f)
    case Call(_, args) => MentionsAll(args)
    case Index(b, i) => Mentions(b) + Mentions(i)
    case NewArr(_, n) => Mentions(n)
    case ArrayLit(es) => MentionsAll(es)
    case Assign(x, _, r) => {x} + Mentions(r)
    case SetAt(b, i, _, r) => Mentions(b) + Mentions(i) + Mentions(r)
    case Update(x, _, _) => {x}
  }

  function MentionsAll(es: seq<Expr>): set<Name> {
    if es == [] then {} else Mentions(es[0]) + MentionsAll(es[1..])
  }

  function Callees(e: Expr): set<Name> {
    match e
    case Lit(_) => {}
    case Var(_) => {}
    case Un(_, a) => Callees(a)
    case Bin(_, l, r) => Callees(l) + Callees(r)
    case Logic(_, l, r) => Callees(l) + Callees(r)
    case Cond(c, t, f) => Callees(c) + Callees(t) + Callees(f)
    case Call(f, args) => {f} + CalleesAll(args)
    case Index(b, i) => Callees(b) + Callees(i)
    case NewArr(_, n) => Callees(n)
    case ArrayLit(es) => CalleesAll(es)
    case Assign(_, _, r) => Callees(r)
    case SetAt(b, i, _, r) => Callees(b) + Callees(i) + Callees(r)
    case Update(_, _, _) => {}
  }

  function CalleesAll(es: seq<Expr>): set<Name> {
    if es == [] then {} else Callees(es[0]) + CalleesAll(es[1..])
  }

  /** Names of variables the expression assigns. */
  function Writes(e: Expr): set<Name> {
    match e
    case Lit(_) => {}
    case Var(_) => {}
    case Un(_, a) => Writes(a)
    case Bin(_, l, r) => Writes(l) + Writes(r)
    case Logic(_, l, r) => Writes(l) + Writes(r)
    case Cond(c, t, f) => Writes(c) + Writes(t) + Writes(f)
    case Call(_, args) => WritesAll(args)
    case Index(b, i) => Writes(b) + Writes(i)
    case NewArr(_, n) => Writes(n)
    case ArrayLit(es) => WritesAll(es)
    case Assign(x, _, r) => {x} + Writes(r)
    case SetAt(b, i, _, r) => Writes(b) + Writes(i) + Writes(r)
    case Update(x, _, _) => {x}
  }

  function WritesAll(es: seq<Expr>): set<Name> {
    if es == [] then {} else Writes(es[0]) + WritesAll(es[1..])
  }

  function DeclNames(ds: seq<Declarator>): set<Name> {
    if ds == [] then {} else {ds[0].x} + DeclNames(ds[1..])
  }

  /** Names the list declares in the scope it runs in. */
  function Declared(ss: seq<Stmt>): set<Name> {
    if ss == [] then {} else StmtDeclared(ss[0]) + Declared(ss[1..])
  }

  function StmtDeclared(s: Stmt): set<Name> {
    match s
    case Let(ds) => DeclNames(ds)
    case If(_, t, f) => Declared(t) + Declared(f)
    case While(_, body) => Declared(body)
    case _ => {}
  }

  // ----- running -----

  /** A call outside the program: what was passed, and every array it could see. */
  datatype Event = Event(f: Name, vs: seq<Value>, seen: map<Loc, seq<int>>)

  datatype Reply = Number(n: int) | Shared(loc: Loc) | NoReply

  /** The rest of the world answers each call from all that happened so far; it may
      rewrite any array it was ever given. */
  datatype World = World(reply: seq<Event> -> Reply, after: (seq<Event>, Loc) -> seq<int>)

  datatype State = State(
    vars: map<Name, Value>,
    heap: map<Loc, seq<int>>,
    count: map<nat, nat>,
    shared: set<Loc>,
    trace: seq<Event>)

  /** `locals` are names of the running function that must not be read as constants;
      `blank` fills a new array; `limit` bounds every loop. */
  datatype Ctx = Ctx(
    consts: map<Name, int>,
    funcs: map<Name, Func>,
    locals: set<Name>,
    world: World,
    blank: int,
    limit: nat)

  /** Failed: an unbound name, a bad operand or index, or a missing argument. */
  datatype Res = Val(v: Value, s: State) | Fault
  datatype ArgsRes = Vals(vs: seq<Value>, s: State) | ArgsFault
  datatype Bound = Bound(s: State) | Unbound
  datatype Out =
    | Normal(s: State)
    | Broke(s: State)
    | Continued(s: State)
    | Returned(result: Option<Value>, s: State)
    | Thrown(v: Value)
    | Diverged
    | Failed

  function Lookup(c: Ctx, s: State, x: Name): Option<Value> {
    if x in s.vars then Some(s.vars[x])
    else if x in c.consts && x !in c.locals then Some(Int(c.consts[x]))
    else None
  }

  function Put(s: State, x: Name, v: Value): State {
    s.(vars := s.vars[x := v])
  }

  function Rank(e: Expr): nat {
    if HasCall(e) then 1 else 0
  }

  function RankAll(es: seq<Expr>): nat {
    if AnyCall(es) then 1 else 0
  }

  function Eval(c: Ctx, e: Expr, s: State): Res
    decreases Rank(e), 2, e
  {
    match e
    case Lit(n) => Val(Int(n), s)
    case Var(x) => (match Lookup(c, s, x) case Some(v) => Val(v, s) case None => Fault)
    case Un(op, a) => UnRes(op, Eval(c, a, s))
    case Bin(op, l, r) =>
      (match Eval(c, l, s)
       case Val(v1, s1) => BinRes(op, v1, Eval(c, r, s1))
       case Fault => Fault)
    case Logic(isAnd, l, r) =>
      (match Eval(c, l, s)
       case Val(Int(n1), s1) =>
         if isAnd == (n1 == 0) then Val(Int(Bool(!isAnd)), s1) else TruthRes(Eval(c, r, s1))
       case _ => Fault)
    case Cond(b, t, f) =>
      (match Eval(c, b, s)
       case Val(Int(n), s1) => Eval(c, if n != 0 then t else f, s1)
       case _ => Fault)
    case Call(f, args) =>
      (match EvalAll(c, args, s)
       case ArgsFault => Fault
       case Vals(vs, s1) =>
         if f in c.funcs && Foldable(c.funcs[f]) then Invoke(c, c.funcs[f], vs, s1)
         else Ask(c, f, vs, s1))
    case Index(b, i) =>
      (match Eval(c, b, s)
       case Val(vb, s1) => IndexRes(vb, Eval(c, i, s1))
       case Fault => Fault)
    case NewArr(site, n) => NewRes(c, site, Eval(c, n, s))
    case ArrayLit(es) =>
      (match EvalAll(c, es, s)
       case Vals(vs, s1) => if AllInts(vs) then Val(Packed(Ints(vs)), s1) else Fault
       case ArgsFault => Fault)
    case Assign(x, op, r) =>
      (match Current(c, x, op, s)
       case None => Fault
       case Some(v0) => AssignRes(x, op, v0, Eval(c, r, s)))
    case SetAt(b, i, op, r) =>
      (match Eval(c, b, s)
       case Fault => Fault
       case Val(vb, s1) =>
         match Eval(c, i, s1)
         case Fault => Fault
         case Val(vi, s2) => SetRes(vb, vi, op, s2, Eval(c, r, s2)))
    case Update(x, inc, prefix) =>
      match Lookup(c, s, x)
      case Some(Int(n)) =>
        var n1 := if inc then n + 1 else n - 1;
        Val(Int(if prefix then n1 else n), Put(s, x, Int(n1)))
      case _ => Fault
  }

  function EvalAll(c: Ctx, es: seq<Expr>, s: State): ArgsRes
    decreases RankAll(es), 2, es
  {
    if es == [] then Vals([], s)
    else
      match Eval(c, es[0], s)
      case Fault => ArgsFault
      case Val(v, s1) =>
        match EvalAll(c, es[1..], s1)
        case Vals(vs, s2) => Vals([v] + vs, s2)
        case ArgsFault => ArgsFault
  }

  /** A call of a foldable function: a frame of its own, and the caller's back afterwards. */
  function Invoke(c: Ctx, fn: Func, vs: seq<Value>, s: State): Res
    requires Foldable(fn)
    decreases 1, 1
  {
    var c1 := c.(locals := ParamNames(fn.params));
    match Bind(c1, fn.params, vs, s.(vars := map[]))
    case Unbound => Fault
    case Bound(s1) =>
      match Eval(c1, fn.body[0].result.value, s1)
      case Fault => Fault
      case Val(v, s2) => Val(v, s2.(vars := s.vars))
  }

  /** Parameters in order; a default sees the parameters before it. */
  function Bind(c: Ctx, ps: seq<Param>, vs: seq<Value>, s: State): Bound
    requires CallFree(ps)
    decreases 0, 3, ps
  {
    if ps == [] then Bound(s)
    else if vs != [] then Bind(c, ps[1..], vs[1..], Put(s, ps[0].x, vs[0]))
    else
      match ps[0].default
      case None => Unbound
      case Some(d) =>
        assert ps decreases to ps[0];
        match Eval(c, d, s)
        case Fault => Unbound
        case Val(v, s1) => Bind(c, ps[1..], [], Put(s1, ps[0].x, v))
  }

  function Refs(vs: seq<Value>): set<Loc> {
    set v | v in vs && v.Ref? :: v.loc
  }

  function Only(heap: map<Loc, seq<int>>, locs: set<Loc>): map<Loc, seq<int>> {
    heap - (heap.Keys - locs)
  }

  /** What the outside world may have written: every array it can reach. */
  function Touched(world: World, trace: seq<Event>, heap: map<Loc, seq<int>>, shared: set<Loc>): map<Loc, seq<int>> {
    map l | l in heap :: if l in shared then world.after(trace, l) else heap[l]
  }

  function Ask(c: Ctx, f: Name, vs: seq<Value>, s: State): Res {
    var shared := s.shared + Refs(vs);
    var trace := s.trace + [Event(f, vs, Only(s.heap, shared))];
    var s1 := s.(heap := Touched(c.world, trace, s.heap, shared), shared := shared, trace := trace);
    match c.world.reply(trace)
    case Number(n) => Val(Int(n), s1)
    case Shared(l) => if l in shared then Val(Ref(l), s1) else Fault
    case NoReply => Fault
  }

  function UnRes(op: UnOp, r: Res): Res {
    match r
    case Val(Int(n), s) => Val(Int(Unary(op, n)), s)
    case _ => Fault
  }

  function BinRes(op: BinOp, v: Value, r: Res): Res {
    if v.Int? && r.Val? && r.v.Int? then
      match Binary(op, v.n, r.v.n)
      case Some(n) => Val(Int(n), r.s)
      case None => Fault
    else Fault
  }

  function TruthRes(r: Res): Res {
    match r
    case Val(Int(n), s) => Val(Int(Bool(n != 0)), s)
    case _ => Fault
  }

  function Contents(v: Value, heap: map<Loc, seq<int>>): Option<seq<int>> {
    match v
    case Packed(elems) => Some(elems)
    case Ref(l) => if l in heap then Some(heap[l]) else None
    case Int(_) => None
  }

  function At(elems: Option<seq<int>>, i: Value): Option<int> {
    if elems.Some? && i.Int? && 0 <= i.n < |elems.value| then Some(elems.value[i.n]) else None
  }

  function IndexRes(base: Value, r: Res): Res {
    match r
    case Val(vi, s) => (match At(Contents(base, s.heap), vi) case Some(n) => Val(Int(n), s) case None => Fault)
    case Fault => Fault
  }

  function Blanks(n: nat, v: int): seq<int> {
    seq(n, _ => v)
  }

  function NewRes(c: Ctx, site: nat, r: Res): Res {
    match r
    case Val(Int(n), s) =>
      if n < 0 then Fault
      else
        var k := if site in s.count then s.count[site] else 0;
        var l := Loc(site, k);
        Val(Ref(l), s.(heap := s.heap[l := Blanks(n, c.blank)], count := s.count[site := k + 1]))
    case _ => Fault
  }

  predicate AllInts(vs: seq<Value>) {
    forall i | 0 <= i < |vs| :: vs[i].Int?
  }

  function Ints(vs: seq<Value>): seq<int>
    requires AllInts(vs)
  {
    seq(|vs|, i requires 0 <= i < |vs| => vs[i].n)
  }

  /** What a compound assignment reads before its right side runs. */
  function Current(c: Ctx, x: Name, op: Option<BinOp>, s: State): Option<Value> {
    if op == None then Some(Int(0)) else Lookup(c, s, x)
  }

  /** The value an assignment stores, from the old value and the right side. */
  function Combine(op: Option<BinOp>, old_: Value, v: Value): Option<Value> {
    match op
    case None => Some(v)
    case Some(b) =>
      if old_.Int? && v.Int? then
        match Binary(b, old_.n, v.n)
        case Some(n) => Some(Int(n))
        case None => None
      else None
  }

  function AssignRes(x: Name, op: Option<BinOp>, v0: Value, r: Res): Res {
    match r
    case Fault => Fault
    case Val(v, s) =>
      match Combine(op, v0, v)
      case Some(v1) => Val(v1, Put(s, x, v1))
      case None => Fault
  }

  /** The element is read, if it has to be, before the right side runs. */
  function SetRes(base: Value, i: Value, op: Option<BinOp>, before: State, r: Res): Res {
    if !base.Ref? then Fault
    else
      match At(Contents(base, before.heap), i)
      case None => Fault
      case Some(n0) =>
        match r
        case Fault => Fault
        case Val(v, s) =>
          match Combine(op, Int(n0), v)
          case Some(Int(n)) =>
            if base.loc in s.heap && i.n < |s.heap[base.loc]| then
              Val(Int(n), s.(heap := s.heap[base.loc := s.heap[base.loc][i.n := n]]))
            else Fault
          case _ => Fault
  }

  function Exec(c: Ctx, ss: seq<Stmt>, s: State): Out
    decreases ss, 0, 0, 0
  {
    if ss == [] then Normal(s)
    else
      match ExecStmt(c, ss[0], s)
      case Normal(s1) => Exec(c, ss[1..], s1)
      case o => o
  }

  function ExecLets(c: Ctx, ds: seq<Declarator>, s: State): Out {
    if ds == [] then Normal(s)
    else
      match ds[0].init
      case None => ExecLets(c, ds[1..], s.(vars := s.vars - {ds[0].x}))
      case Some(e) =>
        match Eval(c, e, s)
        case Val(v, s1) => ExecLets(c, ds[1..], Put(s1, ds[0].x, v))
        case Fault => Failed
  }

  function ExecStmt(c: Ctx, st: Stmt, s: State): Out
    decreases st, 1, 0, 0
  {
    match st
    case Let(ds) => ExecLets(c, ds, s)
    case Do(e) => (match Eval(c, e, s) case Val(_, s1) => Normal(s1) case Fault => Failed)
    case If(b, t, f) =>
      (match Eval(c, b, s)
       case Val(Int(n), s1) => if n != 0 then Exec(c, t, s1) else Exec(c, f, s1)
       case _ => Failed)
    case While(_, _) => Loop(c, st, s, c.limit)
    case For(init, _, _, body) =>
      var o := Exec(c, init, s);
      Close(Declared(init) + Declared(body), s, if o.Normal? then Loop(c, st, o.s, c.limit) else o)
    case Return(None) => Returned(None, s)
    case Return(Some(e)) => ReturnRes(Eval(c, e, s))
    case Throw(e) => (match Eval(c, e, s) case Val(v, _) => Thrown(v) case Fault => Failed)
    case Break => Broke(s)
    case Continue => Continued(s)
  }

  function ReturnRes(r: Res): Out {
    match r
    case Val(v, s) => Returned(Some(v), s)
    case Fault => Failed
  }

  function TestOf(st: Stmt): Option<Expr>
    requires st.While? || st.For?
  {
    if st.While? then Some(st.c) else st.test
  }

  function StepOf(st: Stmt): Option<Expr>
    requires st.While? || st.For?
  {
    if st.While? then None else st.step
  }

  /** Whether the loop goes on, and the state once that is known. */
  function Test(c: Ctx, test: Option<Expr>, s: State): Res {
    match test
    case None => Val(Int(1), s)
    case Some(e) => Eval(c, e, s)
  }

  /** At most `n` more iterations; a loop still wanting to run then diverges. */
  function Loop(c: Ctx, st: Stmt, s: State, n: nat): Out
    requires st.While? || st.For?
    decreases st, 0, n, 0
  {
    match Test(c, TestOf(st), s)
    case Val(Int(v), s1) =>
      if v == 0 then Normal(s1)
      else if n == 0 then Diverged
      else
        (match Exec(c, st.body, s1)
         case Broke(s2) => Normal(s2)
         case Normal(s2) => Again(c, st, s2, n)
         case Continued(s2) => Again(c, st, s2, n)
         case o => o)
    case _ => Failed
  }

  function Again(c: Ctx, st: Stmt, s: State, n: nat): Out
    requires (st.While? || st.For?) && n > 0
    decreases st, 0, n - 1, 1
  {
    match Test(c, StepOf(st), s)
    case Val(_, s1) => Loop(c, st, s1, n - 1)
    case Fault => Failed
  }

  /** Leaving a `for`: its own names go back to what they were outside. */
  function Close(own: set<Name>, before: State, o: Out): Out {
    match o
    case Normal(s) => Normal(Outside(own, before, s))
    case Broke(s) => Broke(Outside(own, before, s))
    case Continued(s) => Continued(Outside(own, before, s))
    case Returned(v, s) => Returned(v, Outside(own, before, s))
    case _ => o
  }

  function Outside(own: set<Name>, before: State, s: State): State {
    s.(vars := (s.vars - own) + (before.vars - (before.vars.Keys - own)))
  }
}
