/** Loop unrolling: a counting loop whose start, bound and step are constants becomes one
    copy of its body for each value of the counter. */
module Unroll {
  import opened Arith
  import opened TsLang
  import opened TsConst
  import opened TsRewriteStmts
  import opened LocalConst

  const MAX_UNROLL_ITERATIONS := 256

  // ----- the values a counter takes -----

  predicate Continues(cmp: BinOp, v: int, bound: int) {
    match cmp
    case Lt => v < bound
    case Le => v <= bound
    case Gt => v > bound
    case Ge => v >= bound
    case _ => false
  }

  /** Forward loops need a forward step, backward ones a backward step. */
  predicate Directed(cmp: BinOp, step: int) {
    ((cmp.Lt? || cmp.Le?) && step > 0) || ((cmp.Gt? || cmp.Ge?) && step < 0)
  }

  function CeilDiv(n: int, d: nat): nat
    requires d > 0
  {
    if n <= 0 then 0 else (n + d - 1) / d
  }

  /** How many times the loop runs. */
  function Trips(start: int, cmp: BinOp, bound: int, step: int): nat
    requires Directed(cmp, step)
  {
    match cmp
    case Lt => CeilDiv(bound - start, step)
    case Le => CeilDiv(bound + 1 - start, step)
    case Gt => CeilDiv(start - bound, -step)
    case Ge => CeilDiv(start - bound + 1, -step)
  }

  function Product(i: nat, step: int): int {
    i * step
  }

  function Nth(start: int, step: int, i: nat): int {
    start + Product(i, step)
  }

  lemma CeilDivCounts(n: int, d: nat, i: nat)
    requires d > 0
    ensures i < CeilDiv(n, d) <==> Product(i, d) < n
  {
    if n > 0 {
      var q := (n + d - 1) / d;
      assert q * d <= n + d - 1 < q * d + d;
      if i < q {
        MulMono(i + 1, q, d);
      } else {
        MulMono(q, i, d);
      }
    }
  }

  lemma MulMono(a: nat, b: nat, d: nat)
    requires a <= b
    ensures a * d <= b * d
  {
  }

  /** The loop is still running after `i` iterations exactly when `i` is below the count. */
  lemma TripsExact(start: int, cmp: BinOp, bound: int, step: int, i: nat)
    requires Directed(cmp, step)
    ensures Continues(cmp, Nth(start, step, i), bound) <==> i < Trips(start, cmp, bound, step)
  {
    MulNegated(i, step);
    match cmp
    case Lt => CeilDivCounts(bound - start, step, i);
    case Le => CeilDivCounts(bound + 1 - start, step, i);
    case Gt => CeilDivCounts(start - bound, -step, i);
    case Ge => CeilDivCounts(start - bound + 1, -step, i);
  }

  lemma MulNegated(i: nat, step: int)
    ensures Product(i, -step) == -Product(i, step)
  {
  }

  function Values(start: int, step: int, n: nat): seq<int> {
    seq(n, i requires 0 <= i => Nth(start, step, i))
  }

  lemma NthNext(start: int, step: int, i: nat)
    ensures Nth(start, step, i + 1) == Nth(start, step, i) + step
    ensures Values(start, step, i + 1) == Values(start, step, i) + [Nth(start, step, i)]
  {
  }

  /** Runs the counter, giving up past the limit. */
  method CounterValues(start: int, cmp: BinOp, bound: int, step: int) returns (values: Option<seq<int>>)
    requires Directed(cmp, step)
    ensures var n := Trips(start, cmp, bound, step);
            values == if n <= MAX_UNROLL_ITERATIONS then Some(Values(start, step, n)) else None
  {
    ghost var n := Trips(start, cmp, bound, step);
    var vs: seq<int> := [];
    var v := start;
    TripsExact(start, cmp, bound, step, 0);
    while Continues(cmp, v, bound)
      invariant |vs| <= MAX_UNROLL_ITERATIONS && |vs| <= n
      invariant vs == Values(start, step, |vs|) && v == Nth(start, step, |vs|)
      decreases n - |vs|
    {
      TripsExact(start, cmp, bound, step, |vs|);
      if |vs| >= MAX_UNROLL_ITERATIONS {
        return None;
      }
      NthNext(start, step, |vs|);
      vs := vs + [v];
      v := v + step;
    }
    TripsExact(start, cmp, bound, step, |vs|);
    return Some(vs);
  }

  /** What a value becomes when the counter was spelled as a plain number: a double keeps
      53 bits, rounding to the nearest, ties to even. */
  function ToDouble(v: int): int {
    if v < 0 then -Round(-v, 1) else Round(v, 1)
  }

  function Round(v: nat, unit: nat): int
    requires unit > 0
    decreases if v > unit then v - unit else 0
  {
    if v < 0x20_0000_0000_0000 * unit then Nearest(v, unit) else Round(v, 2 * unit)
  }

  function Nearest(v: nat, unit: nat): int
    requires unit > 0
  {
    var q, r := v / unit, v % unit;
    if 2 * r < unit || (2 * r == unit && q % 2 == 0) then q * unit else (q + 1) * unit
  }

  const TWO_TO_THE_53 := 0x20_0000_0000_0000

  function Scaled(m: nat, k: nat): nat {
    m * PowerOfTwo(k)
  }

  function PowerOfTwo(k: nat): (p: nat)
    ensures p > 0
  {
    if k == 0 then 1 else 2 * PowerOfTwo(k - 1)
  }

  /** At most 53 significant bits. */
  ghost predicate Representable(v: int) {
    exists m: nat, k: nat :: m <= TWO_TO_THE_53 && Abs(v) == Scaled(m, k)
  }

  lemma {:induction false} PowersMultiply(a: nat, b: nat)
    ensures PowerOfTwo(a + b) == PowerOfTwo(a) * PowerOfTwo(b)
  {
    if a > 0 {
      PowersMultiply(a - 1, b);
    }
  }

  lemma NearestExactly(v: nat, unit: nat)
    requires unit > 0
    ensures Nearest(v, unit) == v <==> v % unit == 0
  {
    var q, r := v / unit, v % unit;
    assert v == q * unit + r;
    assert (q + 1) * unit == q * unit + unit;
  }

  lemma ScaledDivides(m: nat, j: nat, k: nat)
    requires j >= k
    ensures Scaled(m, j) % PowerOfTwo(k) == 0
  {
    PowersMultiply(k, j - k);
    var u := PowerOfTwo(k);
    assert Scaled(m, j) == (m * PowerOfTwo(j - k)) * u;
    MultipleDivides(m * PowerOfTwo(j - k), u);
  }

  lemma MultipleDivides(a: nat, u: nat)
    requires u > 0
    ensures (a * u) % u == 0
  {
    var q, r := (a * u) / u, (a * u) % u;
    assert u * (a - q) == r;
    NoMultipleBelow(a - q, u);
  }

  lemma NoMultipleBelow(d: int, u: nat)
    ensures d >= 1 ==> u * d >= u
    ensures d <= -1 ==> u * -d >= u
  {
    if d >= 1 {
      MulMono(1, d, u);
    } else if d <= -1 {
      MulMono(1, -d, u);
    }
  }

  /** `2^k` is the unit a double of this size counts in: it divides exactly the values a
      double can hold. */
  lemma UnitDividesIff(v: nat, k: nat)
    requires v < Scaled(TWO_TO_THE_53, k) && (k > 0 ==> v >= Scaled(TWO_TO_THE_53, k - 1))
    ensures v % PowerOfTwo(k) == 0 <==> Representable(v)
  {
    var u := PowerOfTwo(k);
    if v % u == 0 {
      var m := v / u;
      assert v == m * u == Scaled(m, k);
      SmallFactor(m, TWO_TO_THE_53, u);
    }
    if Representable(v) {
      var m: nat, j: nat :| m <= TWO_TO_THE_53 && v == Scaled(m, j);
      if j >= k {
        ScaledDivides(m, j, k);
      } else {
        LargestBelow(v, m, j, k);
      }
    }
  }

  lemma SmallFactor(m: nat, n: nat, u: nat)
    requires u > 0 && m * u < n * u
    ensures m < n
  {
    if m >= n {
      MulMono(n, m, u);
    }
  }

  /** A value spelled with a smaller unit is the least of its size. */
  lemma LargestBelow(v: nat, m: nat, j: nat, k: nat)
    requires m <= TWO_TO_THE_53 && v == Scaled(m, j) && j < k && v >= Scaled(TWO_TO_THE_53, k - 1)
    ensures v % PowerOfTwo(k) == 0
  {
    PowersMultiply(j, k - 1 - j);
    var p, q := PowerOfTwo(j), PowerOfTwo(k - 1);
    MulMono(1, PowerOfTwo(k - 1 - j), p);
    MulMono(m, TWO_TO_THE_53, p);
    MulMono(p, q, TWO_TO_THE_53);
    assert v == TWO_TO_THE_53 * q;
    assert v == 0x10_0000_0000_0000 * PowerOfTwo(k);
    MultipleDivides(0x10_0000_0000_0000, PowerOfTwo(k));
  }

  lemma {:induction false} RoundExactly(v: nat, k: nat)
    requires k > 0 ==> v >= Scaled(TWO_TO_THE_53, k - 1)
    ensures Round(v, PowerOfTwo(k)) == v <==> Representable(v)
    decreases if v > PowerOfTwo(k) then v - PowerOfTwo(k) else 0
  {
    var u := PowerOfTwo(k);
    if v < Scaled(TWO_TO_THE_53, k) {
      NearestExactly(v, u);
      UnitDividesIff(v, k);
    } else {
      assert PowerOfTwo(k + 1) == 2 * u;
      RoundExactly(v, k + 1);
    }
  }

  /** A counter keeps its value exactly when it has at most 53 significant bits. */
  lemma DoubleExactly(v: int)
    ensures ToDouble(v) == v <==> Representable(v)
  {
    RoundExactly(Abs(v), 0);
    assert Representable(v) <==> Representable(Abs(v));
  }

  // ----- the pieces of a counting loop -----

  /** How far one increment moves the counter. */
  function StepBy(e: Expr, x: Name, consts: Consts, funcs: Funcs, shadowed: set<Name>): Option<int> {
    match e
    case Update(y, inc, _) => if y == x then Some(if inc then 1 else -1) else None
    case Assign(y, Some(op), r) =>
      if y == x && (op.Add? || op.Sub?) then Signed(op, EvalConst(r, consts, funcs, shadowed)) else None
    case Assign(y, None, Bin(op, Var(z), r)) =>
      if y == x && z == x && (op.Add? || op.Sub?) then Signed(op, EvalConst(r, consts, funcs, shadowed)) else None
    case _ => None
  }

  function Signed(op: BinOp, v: Option<int>): Option<int> {
    match v
    case Some(n) => Some(if op.Add? then n else -n)
    case None => None
  }

  /** A body with a jump, or one that declares the counter's name, is not unrolled. */
  predicate Blocks(ss: seq<Stmt>, x: Name)
    decreases ss, 0
  {
    ss != [] && (StmtBlocks(ss[0], x) || Blocks(ss[1..], x))
  }

  predicate StmtBlocks(st: Stmt, x: Name)
    decreases st, 1
  {
    match st
    case Let(ds) => x in DeclNames(ds)
    case If(_, t, f) => Blocks(t, x) || Blocks(f, x)
    case While(_, body) => Blocks(body, x)
    case For(init, _, _, body) => Blocks(init, x) || Blocks(body, x)
    case Return(_) => true
    case Break => true
    case Continue => true
    case _ => false
  }

  /** Every reference to the counter becomes its value. */
  function PutExpr(e: Expr, x: Name, lit: Expr): Expr {
    match e
    case Lit(_) => e
    case Var(y) => if y == x then lit else e
    case Un(op, a) => Un(op, PutExpr(a, x, lit))
    case Bin(op, l, r) => Bin(op, PutExpr(l, x, lit), PutExpr(r, x, lit))
    case Logic(isAnd, l, r) => Logic(isAnd, PutExpr(l, x, lit), PutExpr(r, x, lit))
    case Cond(b, t, f) => Cond(PutExpr(b, x, lit), PutExpr(t, x, lit), PutExpr(f, x, lit))
    case Call(f, args) => Call(f, PutAll(args, x, lit))
    case Index(b, i) => Index(PutExpr(b, x, lit), PutExpr(i, x, lit))
    case NewArr(site, n) => NewArr(site, PutExpr(n, x, lit))
    case ArrayLit(es) => ArrayLit(PutAll(es, x, lit))
    case Assign(y, op, r) => Assign(y, op, PutExpr(r, x, lit))
    case SetAt(b, i, op, r) => SetAt(PutExpr(b, x, lit), PutExpr(i, x, lit), op, PutExpr(r, x, lit))
    case Update(_, _, _) => e
  }

  function PutAll(es: seq<Expr>, x: Name, lit: Expr): seq<Expr> {
    if es == [] then [] else [PutExpr(es[0], x, lit)] + PutAll(es[1..], x, lit)
  }

  function PutOpt(e: Option<Expr>, x: Name, lit: Expr): Option<Expr> {
    match e case None => None case Some(a) => Some(PutExpr(a, x, lit))
  }

  function PutLets(ds: seq<Declarator>, x: Name, lit: Expr): seq<Declarator> {
    if ds == [] then [] else [Declarator(ds[0].x, PutOpt(ds[0].init, x, lit))] + PutLets(ds[1..], x, lit)
  }

  function PutStmt(st: Stmt, x: Name, lit: Expr): Stmt
    decreases st, 1
  {
    match st
    case Let(ds) => Let(PutLets(ds, x, lit))
    case Do(e) => Do(PutExpr(e, x, lit))
    case If(b, t, f) => If(PutExpr(b, x, lit), PutList(t, x, lit), PutList(f, x, lit))
    case While(b, body) => While(PutExpr(b, x, lit), PutList(body, x, lit))
    case For(init, test, step, body) =>
      For(PutList(init, x, lit), PutOpt(test, x, lit), PutOpt(step, x, lit), PutList(body, x, lit))
    case Return(e) => Return(PutOpt(e, x, lit))
    case Throw(e) => Throw(PutExpr(e, x, lit))
    case Break => st
    case Continue => st
  }

  function PutList(ss: seq<Stmt>, x: Name, lit: Expr): seq<Stmt>
    decreases ss, 0
  {
    if ss == [] then [] else [PutStmt(ss[0], x, lit)] + PutList(ss[1..], x, lit)
  }

  /** One copy of the body for each value; a counter spelled as a number passes through a double. */
  function Copies(body: seq<Stmt>, x: Name, vs: seq<int>, big: bool): seq<Stmt> {
    if vs == [] then []
    else PutList(body, x, Literal(if big then vs[0] else ToDouble(vs[0]))) + Copies(body, x, vs[1..], big)
  }

  /** Declares a name twice, or one that is taken around it. */
  predicate Collides(ss: seq<Stmt>, taken: set<Name>) {
    ss != [] && (DirectNames([ss[0]]) * taken != {} || Collides(ss[1..], taken + DirectNames([ss[0]])))
  }

  function UnrollCounting(x: Name, start: int, cmp: BinOp, bound: int, step: int, body: seq<Stmt>, big: bool,
                          taken: set<Name>): Option<seq<Stmt>> {
    if !Directed(cmp, step) || Blocks(body, x) then None
    else
      var n := Trips(start, cmp, bound, step);
      if n > MAX_UNROLL_ITERATIONS then None
      else
        var copies := Copies(body, x, Values(start, step, n), big);
        if Collides(copies, taken) then None else Some(copies)
  }

  /** `let x = <start>` alone. */
  function CounterOf(ss: seq<Stmt>): Option<(Name, Expr)> {
    if |ss| == 1 && ss[0].Let? && |ss[0].ds| == 1 && ss[0].ds[0].init.Some? then
      Some((ss[0].ds[0].x, ss[0].ds[0].init.value))
    else None
  }

  /** The parts of the loop once all of them are constants. */
  datatype Counting = Counting(x: Name, start: int, cmp: BinOp, bound: int, step: int, body: seq<Stmt>)

  function ReadLoop(init: seq<Stmt>, test: Option<Expr>, inc: Option<Expr>, body: seq<Stmt>,
                    consts: Consts, funcs: Funcs, shadowed: set<Name>): Option<Counting> {
    match (CounterOf(init), test, inc)
    case (Some((x, e)), Some(Bin(cmp, Var(y), b)), Some(i)) =>
      (match (EvalConst(e, consts, funcs, shadowed), EvalConst(b, consts, funcs, shadowed), StepBy(i, x, consts, funcs, shadowed))
       case (Some(start), Some(bound), Some(step)) =>
         if y == x && step != 0 then Some(Counting(x, start, cmp, bound, step, body)) else None
       case _ => None)
    case _ => None
  }

  function UnrollRead(r: Option<Counting>, big: bool, taken: set<Name>): Option<seq<Stmt>> {
    match r
    case Some(l) => UnrollCounting(l.x, l.start, l.cmp, l.bound, l.step, l.body, big, taken)
    case None => None
  }

  function UnrollFor(st: Stmt, big: bool, consts: Consts, funcs: Funcs, shadowed: set<Name>): Option<seq<Stmt>>
    requires st.For?
  {
    UnrollRead(ReadLoop(st.init, st.test, st.step, st.body, consts, funcs, shadowed), big, shadowed)
  }

  /** The `while` spelling: the declaration before it, the increment last in its body, and
      nothing after it that mentions the counter. */
  function UnrollWhile(prev: Stmt, st: Stmt, rest: seq<Stmt>, big: bool, consts: Consts, funcs: Funcs, shadowed: set<Name>)
    : Option<seq<Stmt>>
    requires st.While?
  {
    if st.body == [] || !st.body[|st.body| - 1].Do? then None
    else
      var n := |st.body| - 1;
      var r := ReadLoop([prev], Some(st.c), Some(st.body[n].e), st.body[..n], consts, funcs, shadowed);
      if r.Some? && r.value.x in NamesIn(rest) then None else UnrollRead(r, big, shadowed)
  }
}
