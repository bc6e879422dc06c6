/** Array literals: packed to a common width when every element looks like a literal, written
    out one by one otherwise. */
module ArrayLiteral {
  import opened Arith
  import opened Bytes
  import opened Encode

  datatype ArrayError = TooLong | BadWidth | NegativePadding | ForcedDynamic | MixedElements

  datatype ArrayResult = Encoded(b: seq<byte>) | Refused(error: ArrayError)

  predicate IsStatic(e: seq<byte>) {
    e != [] && 1 <= e[0] <= BYTE_32
  }

  predicate IsDynamicLiteral(e: seq<byte>) {
    e != [] && (e[0] == BYTES || e[0] == BYTES_2 || e[0] == ARRAY || e[0] == ARRAY_2 || e[0] == TUPLE)
  }

  const READ_HEAP: byte := 0x98
  const CONCAT: byte := 0x96
  const SLICE: byte := 0x95
  const ABI_ENCODE: byte := 0xa0

  predicate IsDynamic(e: seq<byte>) {
    IsDynamicLiteral(e) || (e != [] && (e[0] == READ_HEAP || e[0] == CONCAT || e[0] == SLICE || e[0] == ABI_ENCODE))
  }

  predicate AllStatic(es: seq<seq<byte>>) {
    es == [] || (IsStatic(es[0]) && AllStatic(es[1..]))
  }

  predicate AllDynamic(es: seq<seq<byte>>) {
    es == [] || (IsDynamic(es[0]) && AllDynamic(es[1..]))
  }

  /** The widest width opcode among the elements. */
  function NaturalWidth(es: seq<seq<byte>>): int
    requires es != [] && AllStatic(es)
  {
    if |es| == 1 then es[0][0] else Max(es[0][0], NaturalWidth(es[1..]))
  }

  function Max(a: int, b: int): int {
    if a > b then a else b
  }

  predicate FitsIn(es: seq<seq<byte>>, w: nat) {
    es == [] || (0 < |es[0]| <= w + 1 && FitsIn(es[1..], w))
  }

  /** Every element without its opcode, padded on the left. */
  function Pack(es: seq<seq<byte>>, w: nat): seq<byte>
    requires FitsIn(es, w)
  {
    if es == [] then [] else Zeros(w + 1 - |es[0]|) + es[0][1..] + Pack(es[1..], w)
  }

  function Flat(es: seq<seq<byte>>): seq<byte> {
    if es == [] then [] else es[0] + Flat(es[1..])
  }

  function EncodeArray(es: seq<seq<byte>>, forced: Option<int>): ArrayResult {
    if es == [] then Encoded([ARRAY, 0, 1])
    else if |es| > 0xffff then Refused(TooLong)
    else if AllStatic(es) then
      var natural := NaturalWidth(es);
      var w := if forced.Some? then Max(forced.value, natural) else natural;
      if w < 1 || w > 32 then Refused(BadWidth)
      else if !FitsIn(es, w) then Refused(NegativePadding)
      else Encoded(LengthPrefix(|es|, ARRAY, ARRAY_2) + [w] + Pack(es, w))
    else if forced.Some? then Refused(ForcedDynamic)
    else if !AllDynamic(es) then Refused(MixedElements)
    else Encoded(LengthPrefix(|es|, ARRAY, ARRAY_2) + [if IsDynamicLiteral(es[0]) then es[0][0] else BYTES] + Flat(es))
  }

  /** Reads a packed array and leaves the rest. */
  function DecodePacked(b: seq<byte>): Option<(seq<nat>, seq<byte>)> {
    if |b| >= 3 && b[0] == ARRAY then Unpack(b[1], b[2], b[3..])
    else if |b| >= 4 && b[0] == ARRAY_2 then Unpack(FromBE(b[1..3]), b[3], b[4..])
    else None
  }

  function Unpack(n: nat, w: byte, b: seq<byte>): Option<(seq<nat>, seq<byte>)> {
    if n == 0 then Some(([], b))
    else if |b| < w then None
    else
      match Unpack(n - 1, w, b[w..])
      case Some((vs, rest)) => Some(([FromBE(b[..w])] + vs, rest))
      case None => None
  }

  /** The number each element spells after its first byte. */
  function Payloads(es: seq<seq<byte>>): seq<nat> {
    if es == [] then [] else [if es[0] == [] then 0 else FromBE(es[0][1..])] + Payloads(es[1..])
  }

  lemma {:induction false} UnpackPacked(es: seq<seq<byte>>, w: byte, rest: seq<byte>)
    requires FitsIn(es, w)
    ensures Unpack(|es|, w, Pack(es, w) + rest) == Some((Payloads(es), rest))
  {
    if es == [] {
      assert [] + rest == rest;
    } else {
      var first := Zeros(w as int + 1 - |es[0]|) + es[0][1..];
      var b := Pack(es, w) + rest;
      assert b == first + (Pack(es[1..], w) + rest);
      assert b[..w] == first && b[w..] == Pack(es[1..], w) + rest;
      PadLeft(w as int + 1 - |es[0]|, es[0][1..]);
      UnpackPacked(es[1..], w, rest);
    }
  }

  /** Whatever the elements are, as long as each starts like a literal and fits, the array
      holds the number each spells after its first byte. */
  lemma PackedHoldsPayloads(es: seq<seq<byte>>, forced: Option<int>, rest: seq<byte>)
    requires es != [] && AllStatic(es) && EncodeArray(es, forced).Encoded?
    ensures DecodePacked(EncodeArray(es, forced).b + rest) == Some((Payloads(es), rest))
  {
    var natural := NaturalWidth(es);
    var w := if forced.Some? then Max(forced.value, natural) else natural;
    UnpackPacked(es, w, rest);
    DecodeHeader(|es|, w, Pack(es, w), rest);
  }

  lemma DecodeHeader(n: nat, w: byte, packed: seq<byte>, rest: seq<byte>)
    requires n <= 0xffff
    ensures DecodePacked(LengthPrefix(n, ARRAY, ARRAY_2) + [w] + packed + rest) == Unpack(n, w, packed + rest)
  {
    var b := LengthPrefix(n, ARRAY, ARRAY_2) + [w] + packed + rest;
    if n <= 0xff {
      assert b[3..] == packed + rest;
    } else {
      TwoBytes(n / 256, n % 256);
      assert b[1..3] == [n / 256, n % 256];
      assert b[4..] == packed + rest;
    }
  }

  predicate AllWords(vs: seq<nat>) {
    vs == [] || (vs[0] < Pow256(32) && AllWords(vs[1..]))
  }

  function Literals(vs: seq<nat>): (es: seq<seq<byte>>)
    requires AllWords(vs)
    ensures |es| == |vs|
  {
    if vs == [] then [] else [LiteralOf(vs[0])] + Literals(vs[1..])
  }

  function LiteralOf(v: nat): (e: seq<byte>)
    requires v < Pow256(32)
    ensures IsStatic(e) && |e| == e[0] as int + 1
  {
    WidthBounded(v, 32);
    EncodeInt(v).value
  }

  lemma {:induction false} LiteralsSpell(vs: seq<nat>)
    requires AllWords(vs)
    ensures AllLiteral(Literals(vs)) && Payloads(Literals(vs)) == vs
  {
    if vs != [] {
      LiteralSpells(vs[0]);
      LiteralsSpell(vs[1..]);
      assert Literals(vs)[1..] == Literals(vs[1..]);
    }
  }

  lemma LiteralSpells(v: nat)
    requires v < Pow256(32)
    ensures FromBE(LiteralOf(v)[1..]) == v
  {
    WidthBounded(v, 32);
    FitsWidth(v);
    RoundTrip(v, Width(v));
    assert LiteralOf(v)[1..] == ToBE(v, Width(v));
  }

  /** Elements that are literals and nothing more. */
  predicate AllLiteral(es: seq<seq<byte>>) {
    es == [] || (IsStatic(es[0]) && |es[0]| == es[0][0] as int + 1 && AllLiteral(es[1..]))
  }

  lemma {:induction false} NaturalCovers(es: seq<seq<byte>>)
    requires es != [] && AllLiteral(es)
    ensures AllStatic(es) && 1 <= NaturalWidth(es) <= 32
    ensures forall w: nat | w >= NaturalWidth(es) :: FitsIn(es, w)
  {
    if |es| > 1 {
      NaturalCovers(es[1..]);
    } else {
      assert es[1..] == [];
    }
  }

  /** Literals come back whatever width is asked for, up to 32 bytes; past that the encoder refuses. */
  lemma ArrayRoundTrip(vs: seq<nat>, forced: Option<int>, rest: seq<byte>)
    requires vs != [] && |vs| <= 0xffff && AllWords(vs)
    ensures var r := EncodeArray(Literals(vs), forced);
            && (r.Encoded? <==> forced.Some? ==> forced.value <= 32)
            && (r.Encoded? ==> DecodePacked(r.b + rest) == Some((vs, rest)))
  {
    LiteralsSpell(vs);
    NaturalCovers(Literals(vs));
    if EncodeArray(Literals(vs), forced).Encoded? {
      PackedHoldsPayloads(Literals(vs), forced, rest);
    }
  }

  lemma LiteralWidth(v: nat)
    requires v < Pow256(32)
    ensures LiteralOf(v)[0] as int == Width(v)
  {
    WidthBounded(v, 32);
  }

  // ----- computed elements -----

  const ADD: byte := 0x21

  /** A sum of literals: the simplest element that is computed. */
  datatype Sum = Of(v: nat) | Plus(l: Sum, r: Sum)

  predicate Spelled(e: Sum) {
    match e
    case Of(v) => v < Pow256(32)
    case Plus(l, r) => Spelled(l) && Spelled(r)
  }

  /** The v12 code of an element: operands, then the operator. */
  function SumCode(e: Sum): (b: seq<byte>)
    requires Spelled(e)
    ensures IsStatic(b) && |b| > 1
  {
    match e
    case Of(v) => LiteralOf(v)
    case Plus(l, r) => SumCode(l) + SumCode(r) + [ADD]
  }

  function SumValue(e: Sum): nat {
    match e
    case Of(v) => v
    case Plus(l, r) => SumValue(l) + SumValue(r)
  }

  predicate AllSpelled(es: seq<Sum>) {
    es == [] || (Spelled(es[0]) && AllSpelled(es[1..]))
  }

  function Codes(es: seq<Sum>): (cs: seq<seq<byte>>)
    requires AllSpelled(es)
    ensures |cs| == |es| && AllStatic(cs)
  {
    if es == [] then [] else [SumCode(es[0])] + Codes(es[1..])
  }

  function SumValues(es: seq<Sum>): seq<nat> {
    if es == [] then [] else [SumValue(es[0])] + SumValues(es[1..])
  }

  /** Every element is one literal push and nothing after it. */
  predicate AllWhole(es: seq<Sum>) {
    es == [] || (es[0].Of? && AllWhole(es[1..]))
  }

  lemma {:induction false} JoinedBytes(a: seq<byte>, b: seq<byte>)
    ensures FromBE(a + b) >= FromBE(a) + FromBE(b)
  {
    if b == [] {
      assert a + b == a;
    } else {
      var n := |b| - 1;
      assert (a + b)[..|a| + n] == a + b[..n];
      JoinedBytes(a, b[..n]);
    }
  }

  /** Code read as a number is more than what it computes. */
  lemma {:induction false} CodeExceeds(e: Sum)
    requires Spelled(e)
    ensures FromBE(SumCode(e)) > SumValue(e)
  {
    var b := SumCode(e);
    match e
    case Of(v) =>
      LiteralSpells(v);
      JoinedBytes([b[0]], b[1..]);
      assert [b[0]] + b[1..] == b && [b[0]][..0] == [];
      assert FromBE([b[0]]) == 256 * FromBE([]) + b[0];
    case Plus(l, r) =>
      CodeExceeds(l);
      CodeExceeds(r);
      JoinedBytes(SumCode(l), SumCode(r));
      JoinedBytes(SumCode(l) + SumCode(r), [ADD]);
  }

  /** So is what follows its first byte, unless that is all a literal has. */
  lemma {:induction false} PayloadIsValueIffWhole(e: Sum)
    requires Spelled(e)
    ensures FromBE(SumCode(e)[1..]) >= SumValue(e)
    ensures FromBE(SumCode(e)[1..]) == SumValue(e) <==> e.Of?
  {
    match e
    case Of(v) => LiteralSpells(v);
    case Plus(l, r) =>
      PayloadIsValueIffWhole(l);
      CodeExceeds(r);
      AfterFirst(SumCode(l), SumCode(r), ADD);
  }

  lemma AfterFirst(l: seq<byte>, r: seq<byte>, op: byte)
    requires l != []
    ensures FromBE((l + r + [op])[1..]) >= FromBE(l[1..]) + FromBE(r)
  {
    assert (l + r + [op])[1..] == l[1..] + r + [op];
    JoinedBytes(l[1..], r);
    JoinedBytes(l[1..] + r, [op]);
  }

  lemma {:induction false} PayloadsAreValuesIffWhole(es: seq<Sum>)
    requires AllSpelled(es)
    ensures Payloads(Codes(es)) == SumValues(es) <==> AllWhole(es)
  {
    if es != [] {
      PayloadIsValueIffWhole(es[0]);
      PayloadsAreValuesIffWhole(es[1..]);
      var ps, vs := Payloads(Codes(es)), SumValues(es);
      assert Codes(es)[1..] == Codes(es[1..]);
      assert ps[0] == FromBE(SumCode(es[0])[1..]) && ps[1..] == Payloads(Codes(es[1..]));
      assert vs[0] == SumValue(es[0]) && vs[1..] == SumValues(es[1..]);
      assert ps == [ps[0]] + ps[1..] && vs == [vs[0]] + vs[1..];
    }
  }

  /** The encoder looks only at an element's first byte, so a sum passes for a literal. An array
      of sums it accepts holds their values exactly when every one is a lone literal. */
  lemma PackedHoldsValuesIffWhole(es: seq<Sum>, forced: Option<int>, rest: seq<byte>)
    requires es != [] && AllSpelled(es) && EncodeArray(Codes(es), forced).Encoded?
    ensures DecodePacked(EncodeArray(Codes(es), forced).b + rest) == Some((SumValues(es), rest)) <==> AllWhole(es)
  {
    PackedHoldsPayloads(Codes(es), forced, rest);
    PayloadsAreValuesIffWhole(es);
  }

  /** And it does accept some that are not: whatever sum fits the width stands beside a wide
      literal, and comes back as another number. */
  lemma CodeTakenForLiteral(x: Sum, wide: nat, rest: seq<byte>)
    requires Spelled(x) && !x.Of? && |SumCode(x)| <= 33 && wide < Pow256(32) && Width(wide) == 32
    ensures var es := [x, Of(wide)];
            && AllSpelled(es) && EncodeArray(Codes(es), None).Encoded?
            && DecodePacked(EncodeArray(Codes(es), None).b + rest) == Some(([FromBE(SumCode(x)[1..]), wide], rest))
            && FromBE(SumCode(x)[1..]) > SumValue(x)
  {
    var y := Of(wide);
    LiteralWidth(wide);
    LiteralSpells(wide);
    Pair(x, y);
    PairPacks(SumCode(x), SumCode(y), rest);
    PayloadIsValueIffWhole(x);
  }

  lemma Pair(x: Sum, y: Sum)
    requires Spelled(x) && Spelled(y)
    ensures AllSpelled([x, y]) && Codes([x, y]) == [SumCode(x), SumCode(y)]
    ensures SumValues([x, y]) == [SumValue(x), SumValue(y)]
    ensures AllWhole([x, y]) <==> x.Of? && y.Of?
  {
    Alone(y);
    var es := [x, y];
    assert es[0] == x && es[1..] == [y];
  }

  lemma Alone(y: Sum)
    requires Spelled(y)
    ensures AllSpelled([y]) && Codes([y]) == [SumCode(y)] && SumValues([y]) == [SumValue(y)]
    ensures AllWhole([y]) <==> y.Of?
  {
    var one := [y];
    assert one[0] == y && one[1..] == [];
    assert Codes(one[1..]) == [] && SumValues(one[1..]) == [];
  }

  lemma OneByte(v: nat)
    requires v < 256
    ensures v < Pow256(32) && |LiteralOf(v)| == 2
  {
    FitsWidth(v);
    PowGrows(1, 32);
    assert Pow256(1) == 256 * Pow256(0);
    LiteralWidth(v);
  }

  lemma {:induction false} PowGrows(a: nat, b: nat)
    requires a <= b
    ensures Pow256(a) <= Pow256(b)
  {
    if a < b {
      PowGrows(a, b - 1);
    }
  }

  lemma SumOfTwo(a: nat, b: nat)
    requires a < 256 && b < 256
    ensures var e := Sum.Plus(Of(a), Of(b)); Spelled(e) && |SumCode(e)| == 5 && SumValue(e) == a + b
  {
    OneByte(a);
    OneByte(b);
    assert Spelled(Of(a)) && Spelled(Of(b));
    assert SumCode(Of(a)) == LiteralOf(a) && SumCode(Of(b)) == LiteralOf(b);
    assert SumValue(Of(a)) == a && SumValue(Of(b)) == b;
  }

  /** `[a + b, wide]` is such an array: no byte sum comes back as itself. */
  lemma SumComesBackWrong(a: nat, b: nat, wide: nat, rest: seq<byte>) returns (es: seq<Sum>)
    requires a < 256 && b < 256 && wide < Pow256(32) && Width(wide) == 32
    ensures AllSpelled(es) && EncodeArray(Codes(es), None).Encoded?
    ensures |SumValues(es)| == 2 && SumValues(es)[0] == a + b && SumValues(es)[1] == wide
    ensures DecodePacked(EncodeArray(Codes(es), None).b + rest) != Some((SumValues(es), rest))
  {
    SumOfTwo(a, b);
    es := Misread(Sum.Plus(Of(a), Of(b)), wide, rest);
  }

  lemma Misread(x: Sum, wide: nat, rest: seq<byte>) returns (es: seq<Sum>)
    requires Spelled(x) && !x.Of? && |SumCode(x)| <= 33 && wide < Pow256(32) && Width(wide) == 32
    ensures AllSpelled(es) && EncodeArray(Codes(es), None).Encoded?
    ensures |SumValues(es)| == 2 && SumValues(es)[0] == SumValue(x) && SumValues(es)[1] == wide
    ensures DecodePacked(EncodeArray(Codes(es), None).b + rest) != Some((SumValues(es), rest))
  {
    es := [x, Of(wide)];
    CodeTakenForLiteral(x, wide, rest);
    Pair(x, Of(wide));
  }

  /** Two elements, the second of full width. */
  lemma PairPacks(e: seq<byte>, full: seq<byte>, rest: seq<byte>)
    requires IsStatic(e) && IsStatic(full) && full[0] == 32 && |e| <= 33 && |full| <= 33
    ensures var es := [e, full];
            && EncodeArray(es, None).Encoded?
            && DecodePacked(EncodeArray(es, None).b + rest) == Some(([FromBE(e[1..]), FromBE(full[1..])], rest))
  {
    var es := [e, full];
    assert es[1..] == [full] && [full][1..] == [];
    assert AllStatic([full]) && AllStatic(es);
    assert NaturalWidth([full]) == 32;
    assert NaturalWidth(es) == Max(e[0], NaturalWidth([full]));
    assert FitsIn([full], 32) && FitsIn(es, 32);
    PackedHoldsPayloads(es, None, rest);
    var a, b := FromBE(e[1..]), FromBE(full[1..]);
    assert Payloads([]) == [] && Payloads([full]) == [b] + [];
    assert Payloads(es) == [a] + Payloads([full]);
    assert [a] + ([b] + []) == [a, b];
  }
}
