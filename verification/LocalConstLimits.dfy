/** A whole pass that changes what a program returns, because a folded callee sees its
    caller's names. */
module LocalConstLimits {
  import opened Arith
  import opened TsLang
  import opened TsConst
  import opened TsRewrite
  import opened TsRewriteStmts
  import opened TsFrame
  import opened LocalConst
  import opened LocalConstSound

  /** `function f(a) { return a + X; }`. */
  const ADD_X := Func([Param("a", None)], [Return(Some(Bin(Add, Var("a"), Var("X"))))])

  const CALL_Y := Call("f", [Var("y")])

  /** `let X = v; let y = w; return <last>;` */
  function Caller(v: nat, w: nat, last: Expr): seq<Stmt> {
    [LetOne("X", Lit(v))] + ([LetOne("y", Lit(w))] + ([Return(Some(last))] + []))
  }

  function AfterCaller(v: nat, w: nat, s: State): State {
    Put(Put(s, "X", Int(v)), "y", Int(w))
  }

  lemma CallerRuns(v: nat, w: nat, last: Expr, n: int, c: Ctx, s: State)
    requires Eval(c, last, AfterCaller(v, w, s)) == Val(Int(n), AfterCaller(v, w, s))
    ensures Exec(c, Caller(v, w, last), s) == Returned(Some(Int(n)), AfterCaller(v, w, s))
  {
    var tail := [Return(Some(last))] + [];
    var s1, s2 := Put(s, "X", Int(v)), AfterCaller(v, w, s);
    ExecCons(c, Return(Some(last)), [], s2);
    ExecLetOne(c, "y", Lit(w), s1);
    ExecCons(c, LetOne("y", Lit(w)), tail, s1);
    ExecLetOne(c, "X", Lit(v), s);
    ExecCons(c, LetOne("X", Lit(v)), [LetOne("y", Lit(w))] + tail, s);
  }

  /** The call itself reads the file's X. */
  lemma CallReadsConstant(c: Ctx, w: int, s: State)
    requires "f" in c.funcs && c.funcs["f"] == ADD_X && "X" in c.consts
    requires "y" in s.vars && s.vars["y"] == Int(w)
    ensures Eval(c, CALL_Y, s) == Val(Int(w + c.consts["X"]), s)
  {
    var args := [Var("y")];
    assert args[1..] == [] && EvalAll(c, [], s) == Vals([], s);
    assert [Int(w)] + [] == [Int(w)];
    assert EvalAll(c, args, s) == Vals([Int(w)], s);
    InvokeAdds(c, w, s);
  }

  lemma InvokeAdds(c: Ctx, w: int, s: State)
    requires "X" in c.consts
    ensures Invoke(c, ADD_X, [Int(w)], s) == Val(Int(w + c.consts["X"]), s)
  {
    var ps := ADD_X.params;
    assert ps[1..] == [] && [Int(w)][1..] == [];
    assert ParamNames([]) == {} && ParamNames(ps) == {"a"};
    var c1, s0 := c.(locals := {"a"}), s.(vars := map[]);
    var s1 := Put(s0, "a", Int(w));
    assert Bind(c1, [], [], s1) == Bound(s1);
    assert Bind(c1, ps, [Int(w)], s0) == Bound(s1);
    assert Eval(c1, Var("a"), s1) == Val(Int(w), s1);
    assert Eval(c1, Var("X"), s1) == Val(Int(c.consts["X"]), s1);
    assert s1.(vars := s.vars) == s;
  }

  /** The evaluator, asked from inside the caller, reads the caller's. */
  lemma FoldReadsCaller(known: Consts, v: int, w: int, funcs: Funcs)
    requires "f" in funcs && funcs["f"] == ADD_X
    requires "X" in known && known["X"] == v && "y" in known && known["y"] == w
    ensures EvalConst(CALL_Y, known, funcs, {}) == Some(w + v)
  {
    var args, ps := [Var("y")], ADD_X.params;
    assert args[1..] == [] && ps[1..] == [] && [w][1..] == [] && [w] + [] == [w];
    assert ArgConsts([], known, funcs, {}) == Some([]);
    assert ArgConsts(args, known, funcs, {}) == Some([w]);
    assert ParamNames([]) == {} && ParamNames(ps) == {"a"};
    var o := (known - {"a"})["a" := w];
    assert Overlay([], [], funcs, o) == Some(o);
    assert Overlay(ps, [w], funcs, known - {"a"}) == Some(o);
    assert EvalConst(Bin(Add, Var("a"), Var("X")), o, funcs, {}) == Some(w + v);
  }

  lemma WalkCaller(v: nat, w: nat, env: Env, top: Top)
    requires "f" in top.funcs && top.funcs["f"] == ADD_X && env.Keys <= {"X", "y"}
    ensures WalkSeq(Caller(v, w, CALL_Y), env, top).0 == Caller(v, w, Literal(w + v))
  {
    var ret := [Return(Some(CALL_Y))] + [];
    var env1 := env["X" := Some(v)];
    var env2 := env1["y" := Some(w)];
    WalkCons(LetOne("X", Lit(v)), [LetOne("y", Lit(w))] + ret, env, top);
    WalkLetOne("X", Lit(v), env, top);
    WalkCons(LetOne("y", Lit(w)), ret, env1, top);
    WalkLetOne("y", Lit(w), env1, top);
    WalkCons(Return(Some(CALL_Y)), [], env2, top);
    var k := Resolve(env2, top);
    assert Unknown(env2) == {};
    FoldReadsCaller(k.known, v, w, top.funcs);
  }

  /** With `const X = ...` in the file: the function returns `w + X`, its rewriting `w + v`,
      and so the pass keeps its meaning exactly when the caller's X is the file's. */
  lemma CapturedCallExactly(v: nat, w: nat, c: Ctx, s: State)
    requires "f" in c.funcs && c.funcs["f"] == ADD_X && "X" in c.consts
    ensures var fn := Func([], Caller(v, w, CALL_Y));
            var o, o2 := Exec(c, fn.body, s), Exec(c, Propagate(fn, c.consts, c.funcs), s);
            && o == Returned(Some(Int(w + c.consts["X"])), AfterCaller(v, w, s))
            && o2 == Returned(Some(Int(w + v)), AfterCaller(v, w, s))
            && (o2 == o <==> v == c.consts["X"])
  {
    OriginalReturns(v, w, c, s);
    CallerPropagated(v, w, c.consts, c.funcs);
    RewrittenReturns(v, w, c, s);
  }

  lemma OriginalReturns(v: nat, w: nat, c: Ctx, s: State)
    requires "f" in c.funcs && c.funcs["f"] == ADD_X && "X" in c.consts
    ensures Exec(c, Caller(v, w, CALL_Y), s) == Returned(Some(Int(w + c.consts["X"])), AfterCaller(v, w, s))
  {
    CallReadsConstant(c, w, AfterCaller(v, w, s));
    CallerRuns(v, w, CALL_Y, w + c.consts["X"], c, s);
  }

  lemma RewrittenReturns(v: nat, w: nat, c: Ctx, s: State)
    ensures Exec(c, Caller(v, w, Literal(w + v)), s) == Returned(Some(Int(w + v)), AfterCaller(v, w, s))
  {
    LiteralValue(c, w + v, AfterCaller(v, w, s));
    CallerRuns(v, w, Literal(w + v), w + v, c, s);
  }

  lemma CallerPropagated(v: nat, w: nat, consts: Consts, funcs: Funcs)
    requires "f" in funcs && funcs["f"] == ADD_X
    ensures Propagate(Func([], Caller(v, w, CALL_Y)), consts, funcs) == Caller(v, w, Literal(w + v))
  {
    var fn := Func([], Caller(v, w, CALL_Y));
    CallerNames(v, w, CALL_Y);
    WalkCaller(v, w, Forget(Forget(map[], Scope(fn)), DirectNames(fn.body)), Top(consts, funcs, CalleesIn(fn.body)));
  }

  lemma CallerNames(v: nat, w: nat, last: Expr)
    ensures Scope(Func([], Caller(v, w, last))) <= {"X", "y"} && DirectNames(Caller(v, w, last)) <= {"X", "y"}
  {
    var ret := [Return(Some(last))] + [];
    var second, ss := [LetOne("y", Lit(w))] + ret, Caller(v, w, last);
    assert ret[1..] == [] && second[1..] == ret && ss[1..] == second;
    OneLet("X", Lit(v));
    OneLet("y", Lit(w));
    assert second[0] == LetOne("y", Lit(w)) && ss[0] == LetOne("X", Lit(v));
    assert Lexical([]) == {} && Lexical(ret) == {};
    assert Lexical(second) == {"y"} + Lexical(ret) == {"y"};
    assert Lexical(ss) == {"X"} + Lexical(second);
    assert DirectNames([]) == {} && DirectNames(ret) == {};
    assert DirectNames(second) == {"y"} + DirectNames(ret) == {"y"};
    assert DirectNames(ss) == {"X"} + DirectNames(second);
  }

  lemma OneLet(x: Name, e: Expr)
    ensures DeclNames([Declarator(x, Some(e))]) == {x}
  {
    assert [Declarator(x, Some(e))][1..] == [];
    assert DeclNames([]) == {};
  }

  // ----- a write inside an initializer -----

  /** `let x = e; let y = x++; return <last>;` */
  function Nested(e: Expr, last: Expr): seq<Stmt> {
    [LetOne("x", e)] + ([LetOne("y", Update("x", true, false))] + ([Return(Some(last))] + []))
  }

  function AfterNested(n: int, s: State): State {
    Put(Put(Put(s, "x", Int(n)), "x", Int(n + 1)), "y", Int(n))
  }

  lemma NestedRuns(e: Expr, n: int, s1: State, last: Expr, w: int, c: Ctx, s: State)
    requires Eval(c, e, s) == Val(Int(n), s1)
    requires Eval(c, last, AfterNested(n, s1)) == Val(Int(w), AfterNested(n, s1))
    ensures Exec(c, Nested(e, last), s) == Returned(Some(Int(w)), AfterNested(n, s1))
  {
    var up := Update("x", true, false);
    var tail := [Return(Some(last))] + [];
    var t := Put(s1, "x", Int(n));
    ExecCons(c, Return(Some(last)), [], AfterNested(n, s1));
    assert Eval(c, up, t) == Val(Int(n), Put(t, "x", Int(n + 1)));
    ExecLetOne(c, "y", up, t);
    ExecCons(c, LetOne("y", up), tail, t);
    ExecLetOne(c, "x", e, s);
    ExecCons(c, LetOne("x", e), [LetOne("y", up)] + tail, s);
  }

  /** What the walk makes of the last use of `x`. */
  function LastUse(v: Option<int>): Expr {
    match v case Some(n) => Literal(n) case None => Var("x")
  }

  lemma WalkNested(e: Expr, env: Env, top: Top)
    ensures var r := FoldOrSubst(Resolve(env, top), e);
            WalkSeq(Nested(e, Var("x")), env, top).0 == Nested(r.0, LastUse(r.1))
  {
    var r, ret := FoldOrSubst(Resolve(env, top), e), [Return(Some(Var("x")))] + [];
    var env1 := env["x" := r.1];
    var env2 := env1["y" := None];
    WalkCons(LetOne("x", e), [LetOne("y", Update("x", true, false))] + ret, env, top);
    WalkLetOne("x", e, env, top);
    WalkCons(LetOne("y", Update("x", true, false)), ret, env1, top);
    WalkNestedUpdate("x", "y", true, env1, top);
    WalkCons(Return(Some(Var("x"))), [], env2, top);
    UseOfX(env2, top);
  }

  lemma UseOfX(env: Env, top: Top)
    requires "x" in env
    ensures FoldOrSubst(Resolve(env, top), Var("x")).0 == LastUse(env["x"])
  {
    var k := Resolve(env, top);
    assert if env["x"].Some? then "x" in k.known && k.known["x"] == env["x"].value else "x" !in k.known && "x" in k.shadowed;
  }

  /** The pass over the family, given that it is right about `e` itself. */
  lemma NestedPropagated(e: Expr, n: int, s1: State, env: Env, c: Ctx, s: State)
    requires var fn := Func([], Nested(e, Var("x"))); env == Forget(Forget(map[], Scope(fn)), DirectNames(fn.body))
    requires var r := FoldOrSubst(Resolve(env, Top(c.consts, c.funcs, CalleesIn(Nested(e, Var("x"))))), e);
             && Eval(c, e, s) == Eval(c, r.0, s) == Val(Int(n), s1) && (r.1.Some? ==> r.1.value == n)
    ensures var fn, top := Func([], Nested(e, Var("x"))), Top(c.consts, c.funcs, CalleesIn(Nested(e, Var("x"))));
            var w := if EvalLocal(Resolve(env, top), e).Some? then n else n + 1;
            && Exec(c, fn.body, s) == Returned(Some(Int(n + 1)), AfterNested(n, s1))
            && Exec(c, Propagate(fn, c.consts, c.funcs), s) == Returned(Some(Int(w)), AfterNested(n, s1))
  {
    var fn, top := Func([], Nested(e, Var("x"))), Top(c.consts, c.funcs, CalleesIn(Nested(e, Var("x"))));
    var r, t := FoldOrSubst(Resolve(env, top), e), AfterNested(n, s1);
    assert Eval(c, Var("x"), t) == Val(Int(n + 1), t);
    NestedRuns(e, n, s1, Var("x"), n + 1, c, s);
    WalkNested(e, env, top);
    if r.1.Some? {
      LiteralValue(c, n, t);
      NestedRuns(r.0, n, s1, Literal(n), n, c, s);
    } else {
      NestedRuns(r.0, n, s1, Var("x"), n + 1, c, s);
    }
  }

  lemma LetSame(c: Ctx, x: Name, e: Expr, e2: Expr, s: State)
    requires Eval(c, e2, s) == Eval(c, e, s)
    ensures ExecStmt(c, LetOne(x, e2), s) == ExecStmt(c, LetOne(x, e), s)
  {
    if Eval(c, e, s).Val? {
      ExecLetOne(c, x, e, s);
      ExecLetOne(c, x, e2, s);
    }
  }

  /** What the walk knows where a function's body begins. */
  function AtStart(fn: Func, c: Ctx): Know {
    Resolve(StartEnv(fn), Top(c.consts, c.funcs, CalleesIn(fn.body)))
  }

  function StartEnv(fn: Func): Env {
    Forget(Forget(map[], Scope(fn)), DirectNames(fn.body))
  }

  /** Folding the initializer is right whenever the walk's setting is. */
  lemma InitializerSame(e: Expr, c: Ctx, s: State)
    requires var fn := Func([], Nested(e, Var("x")));
             && OwnWrites(fn, c.consts) && NamesApart(fn, c.funcs)
             && s.vars.Keys <= Scope(fn) && c.locals <= Scope(fn)
    ensures var k := AtStart(Func([], Nested(e, Var("x"))), c);
            && Eval(c, FoldOrSubst(k, e).0, s) == Eval(c, e, s)
            && (EvalLocal(k, e).Some? ==> Eval(c, e, s) == Val(Int(EvalLocal(k, e).value), s))
  {
    var fn := Func([], Nested(e, Var("x")));
    var top, env := Top(c.consts, c.funcs, CalleesIn(fn.body)), StartEnv(fn);
    var scope := Scope(fn) + WritesIn(fn.body);
    NestedNames(e);
    DirectWritten(fn.body);
    assert KnownIn(env) == map[];
    TracksKnows(env, top, c, s, scope);
    FoldSame(Resolve(env, top), c, e, s);
  }

  lemma NestedNames(e: Expr)
    ensures var ss := Nested(e, Var("x"));
            DirectNames(ss) <= Lexical(ss) && Writes(e) <= WritesIn(ss) && Callees(e) <= CalleesIn(ss)
  {
    var ret := [Return(Some(Var("x")))] + [];
    var second, ss := [LetOne("y", Update("x", true, false))] + ret, Nested(e, Var("x"));
    assert ret[1..] == [] && second[1..] == ret && ss[1..] == second;
    OneLet("x", e);
    OneLet("y", Update("x", true, false));
    assert ss[0].ds[1..] == [];
    assert DirectNames(ret) == {} && DirectNames(second) == {"y"} && Lexical(second) == {"y"} + Lexical(ret);
  }

  /** For a function that starts so, the pass keeps the meaning exactly when it cannot fold
      the initializer: whatever the initializer does and however it ends. */
  lemma NestedUpdateExactly(e: Expr, c: Ctx, s: State)
    requires var fn := Func([], Nested(e, Var("x")));
             && OwnWrites(fn, c.consts) && NamesApart(fn, c.funcs)
             && s.vars.Keys <= Scope(fn) && c.locals <= Scope(fn)
    ensures var fn := Func([], Nested(e, Var("x")));
            Exec(c, Propagate(fn, c.consts, c.funcs), s) == Exec(c, fn.body, s) <==> EvalLocal(AtStart(fn, c), e) == None
  {
    var fn := Func([], Nested(e, Var("x")));
    var k, env := AtStart(fn, c), StartEnv(fn);
    InitializerSame(e, c, s);
    match EvalLocal(k, e)
    case Some(n) =>
      NestedPropagated(e, n, s, env, c, s);
    case None =>
      var r, rest := FoldOrSubst(k, e).0, [LetOne("y", Update("x", true, false))] + ([Return(Some(Var("x")))] + []);
      WalkNested(e, env, Top(c.consts, c.funcs, CalleesIn(fn.body)));
      LetSame(c, "x", e, r, s);
      ExecCons(c, LetOne("x", e), rest, s);
      ExecCons(c, LetOne("x", r), rest, s);
  }

  /** With a literal there, in any setting: the program returns `v + 1`, its rewriting `v`. */
  lemma NestedUpdateGoesStale(v: nat, c: Ctx, s: State)
    ensures var fn := Func([], Nested(Lit(v), Var("x")));
            && Exec(c, fn.body, s) == Returned(Some(Int(v + 1)), AfterNested(v, s))
            && Exec(c, Propagate(fn, c.consts, c.funcs), s) == Returned(Some(Int(v)), AfterNested(v, s))
  {
    var fn := Func([], Nested(Lit(v), Var("x")));
    assert EvalLocal(AtStart(fn, c), Lit(v)) == Some(v);
    NestedPropagated(Lit(v), v, s, StartEnv(fn), c, s);
  }
}
