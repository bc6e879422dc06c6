/** The expansion engine as it runs: one counter of call sites for the whole compile, and
    statement lists grown by pushing. Each method computes what its namesake in `Inline`
    says, starting from the counter it finds. */
module InlineState {
  import opened Arith
  import opened Sauce
  import opened SauceNames
  import opened Inline

  class ExpandState {
    const inlineMap: InlineMap
    var counter: nat

    constructor (m: InlineMap)
      ensures inlineMap == m && counter == 0
    {
      inlineMap := m;
      counter := 0;
    }

    method NextId() returns (id: nat)
      modifies this
      ensures id == old(counter) && counter == old(counter) + 1
    {
      id := counter;
      counter := counter + 1;
    }
  }

  /** A method agreed with its specification `want`; on success the counter is where the
      specification leaves it. */
  ghost predicate Did<T>(want: Result<Hoisted<T>>, got: Result<(seq<Stmt>, T)>, counter: nat) {
    match want
    case Err(e) => got == Err(e)
    case Ok(h) => got == Ok((h.pre, h.rest)) && counter == h.next
  }

  /** Results of a loop's remaining work, behind what it has already pushed. */
  function Behind<T>(pre: seq<Stmt>, done: seq<T>, r: Result<Hoisted<seq<T>>>): Result<Hoisted<seq<T>>> {
    match r
    case Err(e) => Err(e)
    case Ok(h) => Ok(Hoisted(pre + h.pre, done + h.rest, h.next))
  }

  function BehindList(pre: seq<Stmt>, r: Result<Hoisted<()>>): Result<Hoisted<()>> {
    match r
    case Err(e) => Err(e)
    case Ok(h) => Ok(Hoisted(pre + h.pre, (), h.next))
  }

  lemma BehindNone<T>(pre: seq<Stmt>, done: seq<T>, r: Result<Hoisted<seq<T>>>)
    ensures Behind([], [], r) == r
    ensures r.Ok? && r.value.pre == [] && r.value.rest == [] ==> Behind(pre, done, r) == Ok(Hoisted(pre, done, r.value.next))
  {
    if r.Ok? {
      assert [] + r.value.pre == r.value.pre && [] + r.value.rest == r.value.rest;
      assert pre + [] == pre && done + [] == done;
    }
  }

  lemma RegroupParts<T>(pre: seq<Stmt>, done: seq<T>, a: seq<Stmt>, x: T, r: Result<Hoisted<seq<T>>>)
    ensures Behind(pre + a, done + [x], r) == Behind(pre, done, Behind(a, [x], r))
  {
    if r.Ok? {
      assert pre + a + r.value.pre == pre + (a + r.value.pre);
      assert done + [x] + r.value.rest == done + ([x] + r.value.rest);
    }
  }

  lemma Regroup(a: seq<Stmt>, b: seq<Stmt>, r: Result<Hoisted<()>>)
    ensures BehindList(a + b, r) == BehindList(a, BehindList(b, r))
    ensures BehindList([], r) == r
    ensures r.Ok? && r.value.pre == [] ==> BehindList(a, r) == Ok(Hoisted(a, (), r.value.next))
  {
    if r.Ok? {
      assert a + b + r.value.pre == a + (b + r.value.pre);
      assert [] + r.value.pre == r.value.pre && a + [] == a;
      assert r.value.rest == ();
    }
  }

  method HoistExprAt(e: Expr, state: ExpandState) returns (r: Result<(seq<Stmt>, Expr)>)
    requires state.counter <= MAX_INLINE_EXPANSIONS
    modifies state
    ensures Did(HoistExpr(e, state.inlineMap, old(state.counter)), r, state.counter)
    decreases MAX_INLINE_EXPANSIONS - state.counter, 1, e, 0
  {
    var m := state.inlineMap;
    match e {
      case Lit(_) => return Ok(([], e));
      case Var(_) => return Ok(([], e));
      case Un(op, e1) =>
        var a := HoistExprAt(e1, state);
        if a.Err? { return Err(a.error); }
        return Ok((a.value.0, Un(op, a.value.1)));
      case Bin(op, l, r2) =>
        var a := HoistExprAt(l, state);
        if a.Err? { return Err(a.error); }
        var b := HoistExprAt(r2, state);
        if b.Err? { return Err(b.error); }
        return Ok((a.value.0 + b.value.0, Bin(op, a.value.1, b.value.1)));
      case Logic(isAnd, l, r2) =>
        var a := HoistExprAt(l, state);
        if a.Err? { return Err(a.error); }
        if HasCall(r2, m) { return Err(ShortCircuitCall); }
        return Ok((a.value.0, Logic(isAnd, a.value.1, r2)));
      case Cond(c, t, f) =>
        var a := HoistExprAt(c, state);
        if a.Err? { return Err(a.error); }
        if HasCall(t, m) || HasCall(f, m) { return Err(TernaryCall); }
        return Ok((a.value.0, Cond(a.value.1, t, f)));
      case Call(callee, args) =>
        var a := HoistArgsAt(args, state);
        if a.Err? { return Err(a.error); }
        if callee in m {
          var x := ExpandCallAt(callee, a.value.1, true, state);
          if x.Err? { return Err(x.error); }
          return Ok((a.value.0 + x.value.0, Var(x.value.1)));
        }
        return Ok((a.value.0, Call(callee, a.value.1)));
    }
  }

  method HoistArgsAt(args: seq<Expr>, state: ExpandState) returns (r: Result<(seq<Stmt>, seq<Expr>)>)
    requires state.counter <= MAX_INLINE_EXPANSIONS
    modifies state
    ensures Did(HoistArgs(args, state.inlineMap, old(state.counter)), r, state.counter)
    decreases MAX_INLINE_EXPANSIONS - state.counter, 1, args, 0
  {
    var m := state.inlineMap;
    var pre: seq<Stmt> := [];
    var out: seq<Expr> := [];
    ghost var start := state.counter;
    ghost var want := HoistArgs(args, m, start);
    var i := 0;
    assert args[0..] == args;
    BehindNone(pre, out, want);
    while i < |args|
      invariant 0 <= i <= |args|
      invariant start <= state.counter <= MAX_INLINE_EXPANSIONS
      invariant want == Behind(pre, out, HoistArgs(args[i..], m, state.counter))
    {
      assert args[i..][0] == args[i] && args[i..][1..] == args[i + 1..];
      var a := HoistExprAt(args[i], state);
      if a.Err? { return Err(a.error); }
      RegroupParts(pre, out, a.value.0, a.value.1, HoistArgs(args[i + 1..], m, state.counter));
      pre := pre + a.value.0;
      out := out + [a.value.1];
      i := i + 1;
    }
    BehindNone(pre, out, HoistArgs(args[i..], m, state.counter));
    return Ok((pre, out));
  }

  method ExpandCallAt(f: Ident, args: seq<Expr>, used: bool, state: ExpandState) returns (r: Result<(seq<Stmt>, Name)>)
    requires state.counter <= MAX_INLINE_EXPANSIONS && f in state.inlineMap
    modifies state
    ensures var want := ExpandCall(f, args, used, state.inlineMap, old(state.counter));
            match want
            case Err(e) => r == Err(e)
            case Ok(h) => r == Ok((h.pre, ResultOf(old(state.counter)))) && state.counter == h.next
    decreases MAX_INLINE_EXPANSIONS - state.counter, 0
  {
    var fn := state.inlineMap[f];
    if |args| != |fn.params| { return Err(WrongArity(f)); }
    if used && !AlwaysTerminates(fn.body) { return Err(MayFallThrough(f)); }
    var id := state.NextId();
    if id >= MAX_INLINE_EXPANSIONS { return Err(TooManyExpansions(f)); }
    var body := RenameStmts(fn.body, RenameMap(fn, id));
    var b := EliminateAt(body, id, state);
    if b.Err? { return Err(b.error); }
    return Ok((BindArgs(fn.params, args, id) + InitFlags(id) + b.value.0, ResultOf(id)));
  }

  method EliminateAt(ss: seq<Stmt>, id: nat, state: ExpandState) returns (r: Result<(seq<Stmt>, ())>)
    requires state.counter <= MAX_INLINE_EXPANSIONS
    modifies state
    ensures Did(Eliminate(ss, state.inlineMap, id, old(state.counter)), r, state.counter)
    decreases MAX_INLINE_EXPANSIONS - state.counter, 1, ss, 0
  {
    var m := state.inlineMap;
    var out: seq<Stmt> := [];
    ghost var start := state.counter;
    ghost var want := Eliminate(ss, m, id, start);
    var i := 0;
    assert ss[0..] == ss;
    Regroup(out, out, want);
    while i < |ss|
      invariant 0 <= i <= |ss|
      invariant start <= state.counter <= MAX_INLINE_EXPANSIONS
      invariant want == BehindList(out, Eliminate(ss[i..], m, id, state.counter))
    {
      var s := ss[i];
      assert ss[i..][0] == s && ss[i..][1..] == ss[i + 1..];
      if s.Return? {
        var a := EliminateReturnAt(s, id, state);
        if a.Err? { return Err(a.error); }
        return Ok((out + a.value.0, ()));
      }
      if BranchReturns(s) {
        var a := EliminateIfAt(s, id, state);
        if a.Err? { return Err(a.error); }
        var rest := EliminateAt(ss[i + 1..], id, state);
        if rest.Err? { return Err(rest.error); }
        Regroup(out, a.value.0 + Guard(id, rest.value.0), want);
        assert out + a.value.0 + Guard(id, rest.value.0) == out + (a.value.0 + Guard(id, rest.value.0));
        return Ok((out + a.value.0 + Guard(id, rest.value.0), ()));
      }
      var a := ExpandStmtAt(s, state);
      if a.Err? { return Err(a.error); }
      Regroup(out, a.value.0, Eliminate(ss[i + 1..], m, id, state.counter));
      out := out + a.value.0;
      i := i + 1;
    }
    Regroup(out, out, Eliminate(ss[i..], m, id, state.counter));
    return Ok((out, ()));
  }

  method EliminateReturnAt(s: Stmt, id: nat, state: ExpandState) returns (r: Result<(seq<Stmt>, ())>)
    requires state.counter <= MAX_INLINE_EXPANSIONS && s.Return?
    modifies state
    ensures Did(EliminateReturn(s, state.inlineMap, id, old(state.counter)), r, state.counter)
    decreases MAX_INLINE_EXPANSIONS - state.counter, 1, s, 3
  {
    match s.arg {
      case None => return Ok((SetDone(id), ()));
      case Some(e) =>
        assert s == Return(Some(e));
        var a := HoistExprAt(e, state);
        if a.Err? { return Err(a.error); }
        return Ok((a.value.0 + SetResult(id, a.value.1) + SetDone(id), ()));
    }
  }

  method EliminateIfAt(s: Stmt, id: nat, state: ExpandState) returns (r: Result<(seq<Stmt>, ())>)
    requires state.counter <= MAX_INLINE_EXPANSIONS && s.If?
    modifies state
    ensures Did(EliminateIf(s, state.inlineMap, id, old(state.counter)), r, state.counter)
    decreases MAX_INLINE_EXPANSIONS - state.counter, 1, s, 3
  {
    var c := HoistExprAt(s.c, state);
    if c.Err? { return Err(c.error); }
    var thn := EliminateAt(s.thn, id, state);
    if thn.Err? { return Err(thn.error); }
    var els := EliminateAt(s.els, id, state);
    if els.Err? { return Err(els.error); }
    return Ok((c.value.0 + [If(c.value.1, thn.value.0, els.value.0)], ()));
  }

  method HoistDeclsAt(ds: seq<Declarator>, state: ExpandState) returns (r: Result<(seq<Stmt>, seq<Declarator>)>)
    requires state.counter <= MAX_INLINE_EXPANSIONS
    modifies state
    ensures Did(HoistDecls(ds, state.inlineMap, old(state.counter)), r, state.counter)
    decreases MAX_INLINE_EXPANSIONS - state.counter, 1, ds, 0
  {
    var m := state.inlineMap;
    var pre: seq<Stmt> := [];
    var out: seq<Declarator> := [];
    ghost var start := state.counter;
    ghost var want := HoistDecls(ds, m, start);
    var i := 0;
    assert ds[0..] == ds;
    BehindNone(pre, out, want);
    while i < |ds|
      invariant 0 <= i <= |ds|
      invariant start <= state.counter <= MAX_INLINE_EXPANSIONS
      invariant want == Behind(pre, out, HoistDecls(ds[i..], m, state.counter))
    {
      assert ds[i..][0] == ds[i] && ds[i..][1..] == ds[i + 1..];
      assert ds decreases to ds[i];
      var a := HoistExprAt(ds[i].init, state);
      if a.Err? { return Err(a.error); }
      RegroupParts(pre, out, a.value.0, Declarator(ds[i].x, a.value.1), HoistDecls(ds[i + 1..], m, state.counter));
      pre := pre + a.value.0;
      out := out + [Declarator(ds[i].x, a.value.1)];
      i := i + 1;
    }
    BehindNone(pre, out, HoistDecls(ds[i..], m, state.counter));
    return Ok((pre, out));
  }

  method HoistStmtAt(s: Stmt, state: ExpandState) returns (r: Result<(seq<Stmt>, seq<Stmt>)>)
    requires state.counter <= MAX_INLINE_EXPANSIONS
    modifies state
    ensures Did(HoistStmt(s, state.inlineMap, old(state.counter)), r, state.counter)
    decreases MAX_INLINE_EXPANSIONS - state.counter, 1, s, 1
  {
    var m := state.inlineMap;
    match s {
      case Decl(ds) =>
        var a := HoistDeclsAt(ds, state);
        if a.Err? { return Err(a.error); }
        return Ok((a.value.0, [Decl(a.value.1)]));
      case Assign(x, e) =>
        var a := HoistExprAt(e, state);
        if a.Err? { return Err(a.error); }
        return Ok((a.value.0, [Assign(x, a.value.1)]));
      case OpAssign(x, op, e) =>
        var a := HoistExprAt(e, state);
        if a.Err? { return Err(a.error); }
        return Ok((a.value.0, [OpAssign(x, op, a.value.1)]));
      case Update(_, _) => return Ok(([], [s]));
      case Eff(e) =>
        if e.Call? && e.callee in m {
          assert e == Call(e.callee, e.args);
          var a := HoistArgsAt(e.args, state);
          if a.Err? { return Err(a.error); }
          var x := ExpandCallAt(e.callee, a.value.1, false, state);
          if x.Err? { return Err(x.error); }
          return Ok((a.value.0 + x.value.0, []));
        }
        var a := HoistExprAt(e, state);
        if a.Err? { return Err(a.error); }
        return Ok((a.value.0, [Eff(a.value.1)]));
      case If(c, thn, els) =>
        var a := HoistExprAt(c, state);
        if a.Err? { return Err(a.error); }
        return Ok((a.value.0, [If(a.value.1, thn, els)]));
      case While(c, _) =>
        if HasCall(c, m) { return Err(LoopHeaderCall); }
        return Ok(([], [s]));
      case For(init, c, step, _) =>
        if !(CalleesIn(init) !! m.Keys) || HasCall(c, m) || !(CalleesIn(step) !! m.Keys) { return Err(LoopHeaderCall); }
        return Ok(([], [s]));
      case Return(None) => return Ok(([], [s]));
      case Return(Some(e)) =>
        var a := HoistExprAt(e, state);
        if a.Err? { return Err(a.error); }
        return Ok((a.value.0, [Return(Some(a.value.1))]));
      case Throw(e) =>
        var a := HoistExprAt(e, state);
        if a.Err? { return Err(a.error); }
        return Ok((a.value.0, [Throw(a.value.1)]));
      case Break => return Ok(([], [s]));
      case Continue => return Ok(([], [s]));
    }
  }

  method ExpandStmtAt(s: Stmt, state: ExpandState) returns (r: Result<(seq<Stmt>, ())>)
    requires state.counter <= MAX_INLINE_EXPANSIONS
    modifies state
    ensures Did(ExpandStmt(s, state.inlineMap, old(state.counter)), r, state.counter)
    decreases MAX_INLINE_EXPANSIONS - state.counter, 1, s, 2
  {
    var h := HoistStmtAt(s, state);
    if h.Err? { return Err(h.error); }
    match s {
      case If(_, thn, els) =>
        var a := ExpandListAt(thn, state);
        if a.Err? { return Err(a.error); }
        var b := ExpandListAt(els, state);
        if b.Err? { return Err(b.error); }
        return Ok((h.value.0 + [If(h.value.1[0].c, a.value.0, b.value.0)], ()));
      case While(c, body) =>
        var a := ExpandListAt(body, state);
        if a.Err? { return Err(a.error); }
        return Ok((h.value.0 + [While(c, a.value.0)], ()));
      case For(init, c, step, body) =>
        var a := ExpandListAt(body, state);
        if a.Err? { return Err(a.error); }
        return Ok((h.value.0 + [For(init, c, step, a.value.0)], ()));
      case _ => return Ok((h.value.0 + h.value.1, ()));
    }
  }

  method ExpandListAt(ss: seq<Stmt>, state: ExpandState) returns (r: Result<(seq<Stmt>, ())>)
    requires state.counter <= MAX_INLINE_EXPANSIONS
    modifies state
    ensures Did(ExpandList(ss, state.inlineMap, old(state.counter)), r, state.counter)
    decreases MAX_INLINE_EXPANSIONS - state.counter, 1, ss, 0
  {
    var m := state.inlineMap;
    var out: seq<Stmt> := [];
    ghost var start := state.counter;
    ghost var want := ExpandList(ss, m, start);
    var i := 0;
    assert ss[0..] == ss;
    Regroup(out, out, want);
    while i < |ss|
      invariant 0 <= i <= |ss|
      invariant start <= state.counter <= MAX_INLINE_EXPANSIONS
      invariant want == BehindList(out, ExpandList(ss[i..], m, state.counter))
    {
      assert ss[i..][0] == ss[i] && ss[i..][1..] == ss[i + 1..];
      var a := ExpandStmtAt(ss[i], state);
      if a.Err? { return Err(a.error); }
      Regroup(out, a.value.0, ExpandList(ss[i + 1..], m, state.counter));
      out := out + a.value.0;
      i := i + 1;
    }
    Regroup(out, out, ExpandList(ss[i..], m, state.counter));
    return Ok((out, ()));
  }
}
