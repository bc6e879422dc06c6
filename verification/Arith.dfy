/** The operators both constant evaluators share, over unbounded integers.
    Booleans are the integers 0 and 1; `/` and `%` truncate toward zero, and the
    bitwise operators work on infinite two's-complement words, as bigints do. */
module Arith {

  datatype Option<+T> = None | Some(value: T)

  datatype UnOp = Neg | Plus | BitNot | Not

  datatype BinOp =
    | Add | Sub | Mul | Div | Mod | Exp
    | Eq | Ne | Lt | Le | Gt | Ge
    | BitAnd | BitOr | BitXor | Shl | Shr

  function Bool(b: bool): int {
    if b then 1 else 0
  }

  function Abs(a: int): nat {
    if a < 0 then -a else a
  }

  /** Quotient rounded toward zero. */
  function TruncDiv(a: int, b: int): int
    requires b != 0
  {
    var q := Abs(a) / Abs(b);
    if (a < 0) == (b < 0) then q else -q
  }

  /** Remainder with the sign of the dividend. */
  function TruncMod(a: int, b: int): int
    requires b != 0
  {
    a - b * TruncDiv(a, b)
  }

  function Pow(a: int, n: nat): int {
    if n == 0 then 1 else a * Pow(a, n - 1)
  }

  /** Halving rounds down, so -1 is the all-ones word and halves to itself. */
  function Bitwise(f: (bool, bool) -> bool, a: int, b: int): int
    decreases Abs(a) + Abs(b)
  {
    var bit := Bool(f(a % 2 == 1, b % 2 == 1));
    if (a == 0 || a == -1) && (b == 0 || b == -1) then -bit
    else 2 * Bitwise(f, a / 2, b / 2) + bit
  }

  function ShiftLeft(a: int, b: int): int {
    if b >= 0 then a * Pow(2, b) else FloorDiv(a, Pow(2, -b))
  }

  function FloorDiv(a: int, b: int): int {
    if b == 0 then 0 else if b > 0 then a / b else (-a) / (-b)
  }

  function Unary(op: UnOp, v: int): int {
    match op
    case Neg => -v
    case Plus => v
    case BitNot => -v - 1
    case Not => Bool(v == 0)
  }

  /** The value of a binary operator, or None where the evaluators decline. */
  function Binary(op: BinOp, a: int, b: int): Option<int> {
    match op
    case Add => Some(a + b)
    case Sub => Some(a - b)
    case Mul => Some(a * b)
    case Div => if b == 0 then None else Some(TruncDiv(a, b))
    case Mod => if b == 0 then None else Some(TruncMod(a, b))
    case Exp => if b < 0 then None else Some(Pow(a, b))
    case Eq => Some(Bool(a == b))
    case Ne => Some(Bool(a != b))
    case Lt => Some(Bool(a < b))
    case Le => Some(Bool(a <= b))
    case Gt => Some(Bool(a > b))
    case Ge => Some(Bool(a >= b))
    case BitAnd => Some(Bitwise((p, q) => p && q, a, b))
    case BitOr => Some(Bitwise((p, q) => p || q, a, b))
    case BitXor => Some(Bitwise((p, q) => p != q, a, b))
    case Shl => Some(ShiftLeft(a, b))
    case Shr => Some(ShiftLeft(a, -b))
  }
}
