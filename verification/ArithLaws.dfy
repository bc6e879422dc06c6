/** What the operators of the constant evaluators compute, as laws that name none of their
    definitions, and that only one choice of operators obeys. */
module ArithLaws {
  import opened Arith

  /** The value of a binary operator on two values, or None where it declines. */
  type Operators = (BinOp, int, int) -> Option<int>

  /** Bit `i` of the infinite two's-complement word. */
  predicate Bit(a: int, i: nat)
    decreases i
  {
    if i == 0 then a % 2 == 1 else Bit(a / 2, i - 1)
  }

  // ----- the laws -----

  ghost predicate Sums(f: Operators) {
    && (forall a, b :: f(Add, a, b) == Some(a + b))
    && (forall a, b :: f(Sub, a, b) == Some(a - b))
    && (forall a, b :: f(Mul, a, b) == Some(a * b))
  }

  /** Comparisons give 1 for true and 0 for false. */
  ghost predicate Compares(f: Operators) {
    && (forall a, b :: f(Eq, a, b) == Some(if a == b then 1 else 0))
    && (forall a, b :: f(Ne, a, b) == Some(if a == b then 0 else 1))
    && (forall a, b :: f(Lt, a, b) == Some(if a < b then 1 else 0))
    && (forall a, b :: f(Le, a, b) == Some(if a <= b then 1 else 0))
    && (forall a, b :: f(Gt, a, b) == Some(if a > b then 1 else 0))
    && (forall a, b :: f(Ge, a, b) == Some(if a >= b then 1 else 0))
  }

  /** Quotient and remainder of a division toward zero. */
  predicate Division(a: int, b: int, q: int, r: int) {
    a == b * q + r && (-b < r < b || b < r < -b) && (r == 0 || (r < 0 <==> a < 0))
  }

  ghost predicate Divides(f: Operators) {
    && (forall a :: f(Div, a, 0) == None && f(Mod, a, 0) == None)
    && (forall a, b | b != 0 :: f(Div, a, b).Some? && f(Mod, a, b).Some?
                                && Division(a, b, f(Div, a, b).value, f(Mod, a, b).value))
  }

  ghost predicate Powers(f: Operators) {
    && (forall a :: f(Exp, a, 0) == Some(1) && f(Exp, a, 1) == Some(a))
    && (forall a, n | n < 0 :: f(Exp, a, n) == None)
    && (forall a, n: nat :: f(Exp, a, n).Some?)
    && (forall a, m: nat, n: nat :: PowersAdd(f, a, m, n))
  }

  ghost predicate PowersAdd(f: Operators, a: int, m: nat, n: nat)
    requires f(Exp, a, m).Some? && f(Exp, a, n).Some?
  {
    f(Exp, a, m + n) == Some(f(Exp, a, m).value * f(Exp, a, n).value)
  }

  /** Left shifts double; right shifts are the floor of the quotient by that power of two; and
      a negative distance shifts the other way. */
  ghost predicate Shifts(f: Operators) {
    && ShiftsLeft(f)
    && (forall a, n :: f(Shr, a, n).Some?)
    && (forall a, n: nat :: ShiftsDown(f, a, n))
    && (forall a, n :: ShiftsBack(f, a, n))
  }

  ghost predicate ShiftsLeft(f: Operators) {
    && (forall a :: f(Shl, a, 0) == Some(a) && f(Shl, a, 1) == Some(a + a))
    && (forall a, n :: f(Shl, a, n).Some?)
    && (forall a, m: nat, n: nat :: ShiftsAdd(f, a, m, n))
  }

  ghost predicate ShiftsAdd(f: Operators, a: int, m: nat, n: nat)
    requires f(Shl, a, m).Some?
  {
    f(Shl, a, m + n) == f(Shl, f(Shl, a, m).value, n)
  }

  ghost predicate ShiftsDown(f: Operators, a: int, n: nat)
    requires f(Shl, 1, n).Some? && f(Shr, a, n).Some?
  {
    Floored(a, f(Shl, 1, n).value, f(Shr, a, n).value)
  }

  ghost predicate ShiftsBack(f: Operators, a: int, n: int) {
    f(Shl, a, -n) == f(Shr, a, n)
  }

  predicate Floored(a: int, p: int, q: int) {
    p * q <= a < p * q + p
  }

  /** Every bit of the result is the operator of the operands' bits. */
  ghost predicate Bits(f: Operators) {
    && (forall a, b :: f(BitAnd, a, b).Some? && f(BitOr, a, b).Some? && f(BitXor, a, b).Some?)
    && (forall a, b, i: nat :: Bit(f(BitAnd, a, b).value, i) <==> Bit(a, i) && Bit(b, i))
    && (forall a, b, i: nat :: Bit(f(BitOr, a, b).value, i) <==> Bit(a, i) || Bit(b, i))
    && (forall a, b, i: nat :: Bit(f(BitXor, a, b).value, i) <==> Bit(a, i) != Bit(b, i))
  }

  ghost predicate Lawful(f: Operators) {
    Sums(f) && Compares(f) && Divides(f) && Powers(f) && Shifts(f) && Bits(f)
  }

  // ----- the evaluators' operators obey them -----

  lemma {:induction false} Times(a: int, b: int, c: int)
    ensures a * (b * c) == (a * b) * c
  {
  }

  lemma TruncDivides(a: int, b: int)
    requires b != 0
    ensures Division(a, b, TruncDiv(a, b), TruncMod(a, b))
  {
    var m, n := Abs(a), Abs(b);
    Euclid(m, n);
    Signed(a, b, m / n, m % n);
  }

  lemma Euclid(m: nat, n: nat)
    requires n > 0
    ensures m == n * (m / n) + m % n && m / n >= 0 && 0 <= m % n < n
  {
  }

  lemma Signed(a: int, b: int, q: nat, r: nat)
    requires Abs(a) == Abs(b) * q + r && r < Abs(b)
    ensures var s: int := if (a < 0) == (b < 0) then q else -(q as int); Division(a, b, s, a - b * s)
  {
    assert b * -(q as int) == -(b * q) && (b < 0 ==> Abs(b) * q == -(b * q));
  }

  lemma {:induction false} PowAdds(a: int, m: nat, n: nat)
    ensures Pow(a, m + n) == Pow(a, m) * Pow(a, n)
  {
    if m > 0 {
      PowAdds(a, m - 1, n);
      Times(a, Pow(a, m - 1), Pow(a, n));
    }
  }

  lemma {:induction false} PowPositive(n: nat)
    ensures Pow(2, n) > 0
  {
    if n > 0 {
      PowPositive(n - 1);
    }
  }

  lemma ShiftTwice(a: int, m: nat, n: nat)
    ensures ShiftLeft(a, m + n) == ShiftLeft(ShiftLeft(a, m), n)
  {
    PowAdds(2, m, n);
    Times(a, Pow(2, m), Pow(2, n));
  }

  lemma ShiftFloors(a: int, n: nat)
    ensures Floored(a, ShiftLeft(1, n), ShiftLeft(a, -(n as int)))
  {
    PowPositive(n);
    var p := Pow(2, n);
    if n == 0 {
      assert ShiftLeft(a, 0) == a * 1 && ShiftLeft(1, 0) == 1;
    } else {
      assert a == p * (a / p) + a % p;
    }
  }

  lemma {:induction false} BitwiseBits(f: (bool, bool) -> bool, a: int, b: int, i: nat)
    ensures Bit(Bitwise(f, a, b), i) <==> f(Bit(a, i), Bit(b, i))
    decreases Abs(a) + Abs(b), i
  {
    var bit := Bool(f(a % 2 == 1, b % 2 == 1));
    if (a == 0 || a == -1) && (b == 0 || b == -1) {
      AllAlike(a, i);
      AllAlike(b, i);
      AllAlike(-bit, i);
    } else {
      var half := Bitwise(f, a / 2, b / 2);
      assert (2 * half + bit) / 2 == half && (2 * half + bit) % 2 == bit;
      if i > 0 {
        BitwiseBits(f, a / 2, b / 2, i - 1);
      }
    }
  }

  lemma {:induction false} AllAlike(a: int, i: nat)
    requires a == 0 || a == -1
    ensures Bit(a, i) <==> a == -1
    decreases i
  {
    if i > 0 {
      AllAlike(a / 2, i - 1);
    }
  }

  lemma BinaryDivides()
    ensures Divides(Binary)
  {
    forall a, b | b != 0
      ensures Division(a, b, Binary(Div, a, b).value, Binary(Mod, a, b).value)
    {
      TruncDivides(a, b);
    }
  }

  lemma BinaryPowers()
    ensures Powers(Binary)
  {
    forall a, m: nat, n: nat
      ensures PowersAdd(Binary, a, m, n)
    {
      PowAdds(a, m, n);
    }
    forall a
      ensures Binary(Exp, a, 1) == Some(a)
    {
      assert Pow(a, 1) == a * Pow(a, 0);
    }
  }

  lemma BinaryShifts()
    ensures Shifts(Binary)
  {
    forall a, m: nat, n: nat
      ensures ShiftsAdd(Binary, a, m, n)
    {
      ShiftTwice(a, m, n);
    }
    forall a, n: nat
      ensures ShiftsDown(Binary, a, n)
    {
      ShiftFloors(a, n);
    }
    forall a
      ensures Binary(Shl, a, 1) == Some(a + a)
    {
      assert Pow(2, 1) == 2 * Pow(2, 0);
    }
  }

  lemma BinaryBits()
    ensures Bits(Binary)
  {
    forall a, b, i: nat
      ensures Bit(Binary(BitAnd, a, b).value, i) <==> Bit(a, i) && Bit(b, i)
      ensures Bit(Binary(BitOr, a, b).value, i) <==> Bit(a, i) || Bit(b, i)
      ensures Bit(Binary(BitXor, a, b).value, i) <==> Bit(a, i) != Bit(b, i)
    {
      BitwiseBits((p, q) => p && q, a, b, i);
      BitwiseBits((p, q) => p || q, a, b, i);
      BitwiseBits((p, q) => p != q, a, b, i);
    }
  }

  /** The operators both evaluators use obey every law. */
  lemma BinaryIsLawful()
    ensures Lawful(Binary)
  {
    BinarySums();
    BinaryDivides();
    BinaryPowers();
    BinaryShifts();
    BinaryBits();
  }

  lemma BinarySums()
    ensures Sums(Binary) && Compares(Binary)
  {
  }

  /** Unary operators: negation, nothing, every bit flipped, and 1 exactly for zero. */
  ghost predicate UnaryLawful(f: (UnOp, int) -> int) {
    && (forall a :: f(Neg, a) + a == 0 && f(Plus, a) == a && f(Not, a) == if a == 0 then 1 else 0)
    && (forall a, i: nat :: Bit(f(BitNot, a), i) <==> !Bit(a, i))
  }

  lemma {:induction false} BitFlipped(a: int, i: nat)
    ensures Bit(-a - 1, i) <==> !Bit(a, i)
    decreases i
  {
    if i > 0 {
      assert (-a - 1) / 2 == -(a / 2) - 1;
      BitFlipped(a / 2, i - 1);
    }
  }

  lemma UnaryIsLawful()
    ensures UnaryLawful(Unary)
  {
    forall a, i: nat
      ensures Bit(Unary(BitNot, a), i) <==> !Bit(a, i)
    {
      BitFlipped(a, i);
    }
  }

  lemma LawfulAlike(f: Operators, g: Operators)
    requires Lawful(f) && forall op, a, b :: g(op, a, b) == f(op, a, b)
    ensures Lawful(g)
  {
    assert Sums(g) && Compares(g) && Divides(g);
    assert Powers(g) by {
      forall a, m: nat, n: nat
        ensures PowersAdd(g, a, m, n)
      {
        assert PowersAdd(f, a, m, n);
      }
    }
    assert Shifts(g) by {
      ShiftsAlike(f, g);
    }
    assert Bits(g);
  }

  lemma ShiftsAlike(f: Operators, g: Operators)
    requires Shifts(f) && forall op, a, b :: g(op, a, b) == f(op, a, b)
    ensures Shifts(g)
  {
    forall a, m: nat, n: nat
      ensures ShiftsAdd(g, a, m, n)
    {
      var b := f(Shl, a, m).value;
      assert g(Shl, a, m) == Some(b) by { assert f(Shl, a, m).Some?; }
      assert g(Shl, b, n) == f(Shl, b, n);
      assert g(Shl, a, m + n) == f(Shl, a, m + n);
      assert ShiftsAdd(f, a, m, n);
    }
    forall a, n: nat
      ensures ShiftsDown(g, a, n)
    {
      assert ShiftsDown(f, a, n);
    }
    forall a, n
      ensures ShiftsBack(g, a, n)
    {
      assert ShiftsBack(f, a, n);
    }
  }

  // ----- and leave no choice -----

  lemma DivisionUnique(a: int, b: int, q: int, r: int, q': int, r': int)
    requires Division(a, b, q, r) && Division(a, b, q', r')
    ensures q == q' && r == r'
  {
    assert b * (q - q') == r' - r;
    assert b * (q' - q) == r - r';
    Stretch(b, q - q');
    Stretch(b, q' - q);
  }

  lemma Stretch(b: int, k: int)
    ensures k >= 1 ==> if b >= 0 then b * k >= b else b * k <= b
  {
  }

  lemma FlooredUnique(a: int, p: int, q: int, q': int)
    requires Floored(a, p, q) && Floored(a, p, q')
    ensures q == q'
  {
    assert p * (q - q') == p * q - p * q' && p * (q' - q) == p * q' - p * q;
    Stretch(p, q - q');
    Stretch(p, q' - q);
  }

  lemma {:induction false} SameBits(a: int, b: int)
    requires forall i: nat :: Bit(a, i) <==> Bit(b, i)
    ensures a == b
    decreases Abs(a) + Abs(b)
  {
    assert Bit(a, 0) <==> Bit(b, 0);
    if !((a == 0 || a == -1) && (b == 0 || b == -1)) {
      forall i: nat
        ensures Bit(a / 2, i) <==> Bit(b / 2, i)
      {
        assert Bit(a, i + 1) <==> Bit(b, i + 1);
      }
      SameBits(a / 2, b / 2);
    }
  }

  lemma {:induction false} SamePowers(f: Operators, g: Operators, a: int, n: nat)
    requires Powers(f) && Powers(g)
    ensures f(Exp, a, n) == g(Exp, a, n)
  {
    if n > 0 {
      SamePowers(f, g, a, n - 1);
      assert PowersAdd(f, a, n - 1, 1) && PowersAdd(g, a, n - 1, 1);
    }
  }

  function Doubled(a: int, n: nat): int {
    if n == 0 then a else 2 * Doubled(a, n - 1)
  }

  lemma LeftNext(f: Operators, a: int, n: nat)
    requires ShiftsLeft(f)
    ensures f(Shl, a, 0) == Some(a) && f(Shl, a, n).Some?
    ensures var b := f(Shl, a, n).value; f(Shl, a, n + 1) == Some(b + b)
  {
    assert ShiftsAdd(f, a, n, 1);
  }

  lemma {:induction false} LeftDoubles(f: Operators, a: int, n: nat)
    requires ShiftsLeft(f)
    ensures f(Shl, a, n) == Some(Doubled(a, n))
  {
    if n == 0 {
      LeftNext(f, a, 0);
    } else {
      LeftNext(f, a, n - 1);
      LeftDoubles(f, a, n - 1);
    }
  }

  lemma SameLeft(f: Operators, g: Operators, a: int, n: nat)
    requires ShiftsLeft(f) && ShiftsLeft(g)
    ensures f(Shl, a, n) == g(Shl, a, n)
  {
    LeftDoubles(f, a, n);
    LeftDoubles(g, a, n);
  }

  lemma SameRight(f: Operators, g: Operators, a: int, n: nat)
    requires Shifts(f) && Shifts(g)
    ensures f(Shr, a, n) == g(Shr, a, n)
  {
    SameLeft(f, g, 1, n);
    assert ShiftsDown(f, a, n) && ShiftsDown(g, a, n);
    FlooredUnique(a, f(Shl, 1, n).value, f(Shr, a, n).value, g(Shr, a, n).value);
  }

  lemma SameShifts(f: Operators, g: Operators, a: int, n: int)
    requires Shifts(f) && Shifts(g)
    ensures f(Shl, a, n) == g(Shl, a, n) && f(Shr, a, n) == g(Shr, a, n)
  {
    var m: nat := if n < 0 then -n else n;
    SameLeft(f, g, a, m);
    SameRight(f, g, a, m);
    assert ShiftsBack(f, a, m) && ShiftsBack(g, a, m) && ShiftsBack(f, a, n) && ShiftsBack(g, a, n);
  }

  /** So the laws say everything: operators obeying them are the same on all operands. */
  lemma LawsDecide(f: Operators, g: Operators, op: BinOp, a: int, b: int)
    requires Lawful(f) && Lawful(g)
    ensures f(op, a, b) == g(op, a, b)
  {
    if op.Div? || op.Mod? {
      if b != 0 {
        DivisionUnique(a, b, f(Div, a, b).value, f(Mod, a, b).value, g(Div, a, b).value, g(Mod, a, b).value);
      }
    } else if op.Exp? {
      if b >= 0 {
        SamePowers(f, g, a, b);
      }
    } else if op.Shl? || op.Shr? {
      SameShifts(f, g, a, b);
    } else if op.BitAnd? || op.BitOr? || op.BitXor? {
      SameBits(f(op, a, b).value, g(op, a, b).value);
    }
  }
}
