/** What a piece of syntax reads, writes and calls. */
module SauceNames {
  import opened Sauce

  function Reads(e: Expr): set<Name>
    decreases e, 0
  {
    match e
    case Lit(_) => {}
    case Var(x) => {x}
    case Un(_, e1) => Reads(e1)
    case Bin(_, l, r) => Reads(l) + Reads(r)
    case Logic(_, l, r) => Reads(l) + Reads(r)
    case Cond(c, t, f) => Reads(c) + Reads(t) + Reads(f)
    case Call(_, args) => ArgReads(args)
  }

  function ArgReads(args: seq<Expr>): set<Name>
    decreases args, 0
  {
    if args == [] then {} else Reads(args[0]) + ArgReads(args[1..])
  }

  /** Every function name called anywhere in an expression. */
  function Callees(e: Expr): set<Ident>
    decreases e, 0
  {
    match e
    case Lit(_) => {}
    case Var(_) => {}
    case Un(_, e1) => Callees(e1)
    case Bin(_, l, r) => Callees(l) + Callees(r)
    case Logic(_, l, r) => Callees(l) + Callees(r)
    case Cond(c, t, f) => Callees(c) + Callees(t) + Callees(f)
    case Call(callee, args) => {callee} + ArgCallees(args)
  }

  function ArgCallees(args: seq<Expr>): set<Ident>
    decreases args, 0
  {
    if args == [] then {} else Callees(args[0]) + ArgCallees(args[1..])
  }

  function DeclCallees(ds: seq<Declarator>): set<Ident> {
    if ds == [] then {} else Callees(ds[0].init) + DeclCallees(ds[1..])
  }

  function DeclReads(ds: seq<Declarator>): set<Name> {
    if ds == [] then {} else Reads(ds[0].init) + DeclReads(ds[1..])
  }

  function DeclNames(ds: seq<Declarator>): set<Name> {
    if ds == [] then {} else {ds[0].x} + DeclNames(ds[1..])
  }

  function CalleesIn(ss: seq<Stmt>): set<Ident>
    decreases ss, 0
  {
    if ss == [] then {} else StmtCallees(ss[0]) + CalleesIn(ss[1..])
  }

  function StmtCallees(s: Stmt): set<Ident>
    decreases s, 1
  {
    match s
    case Decl(ds) => DeclCallees(ds)
    case Assign(_, e) => Callees(e)
    case OpAssign(_, _, e) => Callees(e)
    case Update(_, _) => {}
    case Eff(e) => Callees(e)
    case If(c, thn, els) => Callees(c) + CalleesIn(thn) + CalleesIn(els)
    case While(c, body) => Callees(c) + CalleesIn(body)
    case For(init, c, step, body) => CalleesIn(init) + Callees(c) + CalleesIn(step) + CalleesIn(body)
    case Return(None) => {}
    case Return(Some(e)) => Callees(e)
    case Throw(e) => Callees(e)
    case Break => {}
    case Continue => {}
  }

  /** Names a run of the list may change. */
  function Writes(ss: seq<Stmt>): set<Name>
    decreases ss, 0
  {
    if ss == [] then {} else StmtWrites(ss[0]) + Writes(ss[1..])
  }

  function StmtWrites(s: Stmt): set<Name>
    decreases s, 1
  {
    match s
    case Decl(ds) => DeclNames(ds)
    case Assign(x, _) => {x}
    case OpAssign(x, _, _) => {x}
    case Update(x, _) => {x}
    case If(_, thn, els) => Writes(thn) + Writes(els)
    case While(_, body) => Writes(body)
    case For(init, _, step, body) => Writes(init) + Writes(step) + Writes(body)
    case _ => {}
  }

  /** Names a statement list reads or writes. */
  function Mentions(ss: seq<Stmt>): set<Name>
    decreases ss, 0
  {
    if ss == [] then {} else StmtMentions(ss[0]) + Mentions(ss[1..])
  }

  function StmtMentions(s: Stmt): set<Name>
    decreases s, 1
  {
    match s
    case Decl(ds) => DeclNames(ds) + DeclReads(ds)
    case Assign(x, e) => {x} + Reads(e)
    case OpAssign(x, _, e) => {x} + Reads(e)
    case Update(x, _) => {x}
    case Eff(e) => Reads(e)
    case If(c, thn, els) => Reads(c) + Mentions(thn) + Mentions(els)
    case While(c, body) => Reads(c) + Mentions(body)
    case For(init, c, step, body) => Mentions(init) + Reads(c) + Mentions(step) + Mentions(body)
    case Return(None) => {}
    case Return(Some(e)) => Reads(e)
    case Throw(e) => Reads(e)
    case Break => {}
    case Continue => {}
  }

  /** Names a function uses that are neither its parameters nor its locals. */
  function Free(fn: Fn): set<Name> {
    Mentions(fn.body) - Scope(fn)
  }

  /** Names that exist before call site `id` is expanded. */
  predicate Below(n: Name, id: nat) {
    n.User? || n.id < id
  }

  ghost predicate AllBelow(names: set<Name>, id: nat) {
    forall n | n in names :: Below(n, id)
  }

  lemma {:induction false} ExecAppend(a: seq<Stmt>, b: seq<Stmt>, vars: Vars, k: Vars, tr: Trace, ctx: Ctx, depth: nat)
    ensures Exec(a + b, vars, k, tr, ctx, depth) ==
            match Exec(a, vars, k, tr, ctx, depth)
            case Normal(vars1, tr1) => Exec(b, vars1, k, tr1, ctx, depth)
            case o => o
  {
    if a == [] {
      assert a + b == b;
    } else {
      assert (a + b)[1..] == a[1..] + b;
      var o := ExecStmt(a[0], vars, k, tr, ctx, depth);
      if o.Normal? {
        ExecAppend(a[1..], b, o.vars, k, o.tr, ctx, depth);
      }
    }
  }

  // ----- a run leaves alone what the statements do not write -----

  ghost predicate SameOn(s: Vars, t: Vars, n: Name) {
    (n in s <==> n in t) && (n in s ==> s[n] == t[n])
  }

  ghost predicate Leaves(o: Outcome, vars: Vars, n: Name) {
    (o.Normal? || o.Broke? || o.Continued? || o.Returned?) ==> SameOn(vars, o.vars, n)
  }

  lemma {:induction false} DeclFrame(ds: seq<Declarator>, vars: Vars, k: Vars, tr: Trace, ctx: Ctx, depth: nat, n: Name)
    requires n !in DeclNames(ds)
    ensures Leaves(ExecDecls(ds, vars, k, tr, ctx, depth), vars, n)
  {
    if ds != [] {
      var r := Eval(ds[0].init, vars, k, tr, ctx, depth);
      if r.Val? {
        DeclFrame(ds[1..], vars[ds[0].x := r.v], k, r.tr, ctx, depth, n);
      }
    }
  }

  lemma {:induction false} Frame(ss: seq<Stmt>, vars: Vars, k: Vars, tr: Trace, ctx: Ctx, depth: nat, n: Name)
    requires n !in Writes(ss)
    ensures Leaves(Exec(ss, vars, k, tr, ctx, depth), vars, n)
    decreases ss, 0, 0
  {
    if ss != [] {
      StmtFrame(ss[0], vars, k, tr, ctx, depth, n);
      var o := ExecStmt(ss[0], vars, k, tr, ctx, depth);
      if o.Normal? {
        Frame(ss[1..], o.vars, k, o.tr, ctx, depth, n);
      }
    }
  }

  lemma {:induction false} StmtFrame(s: Stmt, vars: Vars, k: Vars, tr: Trace, ctx: Ctx, depth: nat, n: Name)
    requires n !in StmtWrites(s)
    ensures Leaves(ExecStmt(s, vars, k, tr, ctx, depth), vars, n)
    decreases s, 1, 0
  {
    match s
    case Decl(ds) => DeclFrame(ds, vars, k, tr, ctx, depth, n);
    case If(c, thn, els) =>
      var r := Eval(c, vars, k, tr, ctx, depth);
      if r.Val? {
        Frame(if r.v != 0 then thn else els, vars, k, r.tr, ctx, depth, n);
      }
    case While(_, _) => LoopFrame(s, vars, k, tr, ctx, depth, ctx.limit, n);
    case For(init, _, _, _) =>
      Frame(init, vars, k, tr, ctx, depth, n);
      var o := Exec(init, vars, k, tr, ctx, depth);
      if o.Normal? {
        LoopFrame(s, o.vars, k, o.tr, ctx, depth, ctx.limit, n);
      }
    case _ =>
  }

  lemma {:induction false} LoopFrame(s: Stmt, vars: Vars, k: Vars, tr: Trace, ctx: Ctx, depth: nat, m: nat, n: Name)
    requires s.While? || s.For?
    requires n !in StmtWrites(s)
    ensures Leaves(ExecLoop(s, vars, k, tr, ctx, depth, m), vars, n)
    decreases s, 0, m
  {
    var r := Eval(s.c, vars, k, tr, ctx, depth);
    if r.Val? && r.v != 0 && m > 0 {
      Frame(s.body, vars, k, r.tr, ctx, depth, n);
      var o := Exec(s.body, vars, k, r.tr, ctx, depth);
      if o.Normal? || o.Continued? {
        if s.For? {
          Frame(s.step, o.vars, k, o.tr, ctx, depth, n);
          var o3 := Exec(s.step, o.vars, k, o.tr, ctx, depth);
          if o3.Normal? {
            LoopFrame(s, o3.vars, k, o3.tr, ctx, depth, m - 1, n);
          }
        } else {
          LoopFrame(s, o.vars, k, o.tr, ctx, depth, m - 1, n);
        }
      }
    }
  }
}
