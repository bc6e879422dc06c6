/** Exactly what is encodable, and how: the digits of a number, the size limits at every depth,
    and which array literals are accepted or refused. */
module EncodeExact {
  import opened Arith
  import opened Bytes
  import opened Encode
  import opened ArrayLiteral

  // ----- numbers -----

  lemma DivideTwice(v: nat, p: nat)
    requires p > 0
    ensures (v / 256) / p == v / (256 * p)
  {
    var q := v / (256 * p);
    var r := v - 256 * p * q;
    assert 0 <= r < 256 * p;
    assert v == 256 * (p * q) + r && v / 256 == p * q + r / 256;
    Quotient(p, q, r / 256);
  }

  lemma Quotient(p: nat, q: nat, r: nat)
    requires r < p
    ensures (p * q + r) / p == q
  {
    var n := p * q + r;
    SameQuotient(p, q, n / p, r, n % p);
  }

  lemma SameQuotient(p: nat, q: nat, d: nat, r: nat, m: nat)
    requires r < p && m < p && p * q + r == p * d + m
    ensures q == d
  {
    NotAbove(p, q, d, r, m);
    NotAbove(p, d, q, m, r);
  }

  lemma NotAbove(p: nat, q: nat, d: nat, r: nat, m: nat)
    requires m < p && p * q + r == p * d + m
    ensures q <= d
  {
    var more := q - d;
    assert p * more == m - r;
    assert more > 0 ==> p * more >= p;
  }

  /** Digit `i` from the left is the one of weight 256 to the `w - 1 - i`: most significant first. */
  lemma {:induction false} DigitAt(v: nat, w: nat, i: nat)
    requires i < w
    ensures ToBE(v, w)[i] as int == (v / Pow256(w - 1 - i)) % 256
  {
    if i < w - 1 {
      DigitAt(v / 256, w - 1, i);
      DivideTwice(v, Pow256(w - 2 - i));
    }
  }

  /** The width is the least that holds the number, zero taking one byte like any digit. */
  lemma {:induction false} WidthIsLeast(v: nat, w: nat)
    requires w >= 1
    ensures Width(v) <= w <==> v < Pow256(w)
  {
    if v < Pow256(w) {
      WidthBounded(v, w);
    } else {
      WidthExceeds(v, w);
    }
  }

  lemma {:induction false} WidthExceeds(v: nat, w: nat)
    requires w >= 1 && v >= Pow256(w)
    ensures Width(v) > w
  {
    if w > 1 {
      WidthExceeds(v / 256, w - 1);
    }
  }

  lemma {:induction false} Pow256IsPow(n: nat)
    ensures Pow256(n) == Pow(256, n)
  {
    if n > 0 {
      Pow256IsPow(n - 1);
    }
  }

  /** An integer is written exactly when its magnitude is below 256 to the 32: 0x29 in front if it is
      negative, how many digits, and the digits, most significant first and none of them spare. */
  lemma IntExactly(v: int) returns (digits: seq<byte>)
    ensures var e, n := EncodeInt(v), Abs(v);
            && (e.Some? <==> n < Pow(256, 32))
            && (e.Some? ==> |digits| < 256 && Spells(digits, n)
                            && e.value == if v < 0 then [0x29, |digits|] + digits else [|digits|] + digits)
  {
    var n := Abs(v);
    digits := ToBE(n, Width(n));
    Pow256IsPow(32);
    ShortestSpelling(n);
    if n < Pow256(32) {
      WidthBounded(n, 32);
      Signed(v, digits);
    }
  }

  lemma Signed(v: int, digits: seq<byte>)
    requires EncodeInt(v).Some? && digits == ToBE(Abs(v), Width(Abs(v)))
    ensures |digits| < 256 && EncodeInt(v).value == if v < 0 then [0x29, |digits|] + digits else [|digits|] + digits
  {
    WidthBounded(Abs(v), 32);
  }

  /** The digits of `n` in base 256, as few as there can be. */
  ghost predicate Spells(digits: seq<byte>, n: nat) {
    && digits != [] && n < Pow256(|digits|)
    && (|digits| > 1 ==> n >= Pow256(|digits| - 1))
    && forall i | 0 <= i < |digits| :: digits[i] as int == (n / Pow256(|digits| - 1 - i)) % 256
  }

  lemma ShortestSpelling(n: nat)
    ensures Spells(ToBE(n, Width(n)), n)
  {
    var w := Width(n);
    FitsWidth(n);
    if w > 1 {
      WidthIsLeast(n, w - 1);
    }
    forall i | 0 <= i < w
      ensures ToBE(n, w)[i] as int == (n / Pow256(w - 1 - i)) % 256
    {
      DigitAt(n, w, i);
    }
  }

  // ----- arguments -----

  /** `x` is in `a` at some depth. */
  ghost predicate In(x: Arg, a: Arg)
    decreases a
  {
    || x == a
    || match a
       case List(items) => exists i | 0 <= i < |items| :: In(x, items[i])
       case Object(fields) => exists i | 0 <= i < |fields| :: (assert fields decreases to fields[i]; In(x, fields[i].1))
       case _ => false
  }

  predicate SmallEnough(x: Arg) {
    match x
    case Num(v) => Abs(v) < Pow256(32)
    case Blob(data) => |data| <= 65535
    case _ => true
  }

  lemma {:induction false} Oversized(a: Arg) returns (x: Arg)
    requires EncodeArg(a) == None
    ensures In(x, a) && !SmallEnough(x)
  {
    x := a;
    match a
    case List(items) =>
      var i := FirstItem(items);
      x := Oversized(items[i]);
    case Object(fields) =>
      var i := FirstField(fields);
      assert fields decreases to fields[i];
      x := Oversized(fields[i].1);
    case _ =>
  }

  lemma {:induction false} FirstItem(items: seq<Arg>) returns (i: nat)
    requires EncodeAll(items) == None
    ensures i < |items| && EncodeArg(items[i]) == None
  {
    i := 0;
    if EncodeArg(items[0]).Some? {
      i := FirstItem(items[1..]);
      i := i + 1;
    }
  }

  lemma {:induction false} FirstField(fields: seq<(string, Arg)>) returns (i: nat)
    requires EncodeFields(fields) == None
    ensures i < |fields| && EncodeArg(fields[i].1) == None
  {
    i := 0;
    if EncodeArg(fields[0].1).Some? {
      i := FirstField(fields[1..]);
      i := i + 1;
    }
  }

  lemma {:induction false} AllEncoded(items: seq<Arg>, i: nat)
    requires EncodeAll(items).Some? && i < |items|
    ensures EncodeArg(items[i]).Some?
  {
    if i > 0 {
      AllEncoded(items[1..], i - 1);
    }
  }

  lemma {:induction false} FieldsEncoded(fields: seq<(string, Arg)>, i: nat)
    requires EncodeFields(fields).Some? && i < |fields|
    ensures EncodeArg(fields[i].1).Some?
  {
    if i > 0 {
      FieldsEncoded(fields[1..], i - 1);
    }
  }

  lemma {:induction false} EncodedIsSmall(a: Arg, x: Arg)
    requires EncodeArg(a).Some? && In(x, a)
    ensures SmallEnough(x)
    decreases a
  {
    if x != a {
      match a
      case List(items) =>
        var i :| 0 <= i < |items| && In(x, items[i]);
        AllEncoded(items, i);
        EncodedIsSmall(items[i], x);
      case Object(fields) =>
        var i :| 0 <= i < |fields| && In(x, fields[i].1);
        assert fields decreases to fields[i];
        FieldsEncoded(fields, i);
        EncodedIsSmall(fields[i].1, x);
    }
  }

  /** An argument is encodable exactly when no number in it, at any depth, takes more than 32
      bytes and no byte string more than 65,535. */
  lemma EncodableExactly(a: Arg)
    ensures EncodeArg(a).Some? <==> forall x | In(x, a) :: SmallEnough(x)
  {
    if EncodeArg(a).Some? {
      forall x | In(x, a)
        ensures SmallEnough(x)
      {
        EncodedIsSmall(a, x);
      }
    } else {
      var _ := Oversized(a);
    }
  }

  // ----- array literals -----

  lemma {:induction false} StaticMeans(es: seq<seq<byte>>)
    ensures AllStatic(es) <==> forall i | 0 <= i < |es| :: IsStatic(es[i])
  {
    if es != [] {
      StaticMeans(es[1..]);
      assert forall i | 0 < i < |es| :: es[i] == es[1..][i - 1];
    }
  }

  lemma {:induction false} DynamicMeans(es: seq<seq<byte>>)
    ensures AllDynamic(es) <==> forall i | 0 <= i < |es| :: IsDynamic(es[i])
  {
    if es != [] {
      DynamicMeans(es[1..]);
      assert forall i | 0 < i < |es| :: es[i] == es[1..][i - 1];
    }
  }

  lemma {:induction false} FitsMeans(es: seq<seq<byte>>, w: nat)
    ensures FitsIn(es, w) <==> forall i | 0 <= i < |es| :: 0 < |es[i]| <= w + 1
  {
    if es != [] {
      FitsMeans(es[1..], w);
      assert forall i | 0 < i < |es| :: es[i] == es[1..][i - 1];
    }
  }

  /** As wide as the widest element, or as asked for if that is more. */
  ghost predicate IsWidth(es: seq<seq<byte>>, forced: Option<int>, w: int) {
    && (forall i | 0 <= i < |es| :: es[i] != [] && es[i][0] as int <= w)
    && (forced.Some? ==> forced.value <= w)
    && (forced == Some(w) || exists i | 0 <= i < |es| :: es[i] != [] && es[i][0] as int == w)
  }

  lemma {:induction false} NaturalIsWidest(es: seq<seq<byte>>) returns (k: nat)
    requires es != [] && AllStatic(es)
    ensures k < |es| && es[k] != [] && es[k][0] as int == NaturalWidth(es)
    ensures forall i | 0 <= i < |es| :: es[i] != [] && es[i][0] as int <= NaturalWidth(es)
  {
    k := 0;
    if |es| > 1 {
      var j := NaturalIsWidest(es[1..]);
      assert forall i | 0 < i < |es| :: es[i] == es[1..][i - 1];
      k := if es[0][0] as int > NaturalWidth(es[1..]) then 0 else j + 1;
    }
  }

  /** Which error, if any, an array literal of so many elements is refused with. */
  ghost predicate RefusedAs(es: seq<seq<byte>>, forced: Option<int>, w: int, e: ArrayError) {
    match e
    case TooLong => |es| > 65535
    case BadWidth => |es| <= 65535 && (forall i | 0 <= i < |es| :: IsStatic(es[i])) && w > 32
    case NegativePadding =>
      |es| <= 65535 && (forall i | 0 <= i < |es| :: IsStatic(es[i])) && w <= 32 && exists i | 0 <= i < |es| :: |es[i]| > w + 1
    case ForcedDynamic => |es| <= 65535 && (exists i | 0 <= i < |es| :: !IsStatic(es[i])) && forced.Some?
    case MixedElements =>
      |es| <= 65535 && (exists i | 0 <= i < |es| :: !IsStatic(es[i])) && forced == None
      && exists i | 0 <= i < |es| :: !IsDynamic(es[i])
  }

  /** An array literal is refused exactly when it is too long, asked to be wider than a word, has
      an element longer than its width, is dynamic at a width asked for, or is neither all static
      nor all dynamic; an accepted one starts with its count and its width or element type. An
      empty one is never refused and says one byte wide. */
  lemma AcceptedExactly(es: seq<seq<byte>>, forced: Option<int>) returns (w: int)
    ensures es != [] && AllStatic(es) ==> IsWidth(es, forced, w)
    ensures var r := EncodeArray(es, forced);
            && (es == [] ==> r == Encoded([0x92, 0x00, 0x01]))
            && (es != [] ==> forall e :: r == Refused(e) <==> RefusedAs(es, forced, w, e))
            && (es != [] && r.Encoded? ==>
                  var n, kind := |es|, if AllStatic(es) then w else if IsDynamicLiteral(es[0]) then es[0][0] as int else 0x90;
                  if n <= 255 then 2 < |r.b| && r.b[0] == 0x92 && r.b[1] as int == n && r.b[2] as int == kind
                  else 3 < |r.b| && r.b[0] == 0x93 && 256 * r.b[1] as int + r.b[2] as int == n && r.b[3] as int == kind)
  {
    w := 0;
    StaticMeans(es);
    DynamicMeans(es);
    if es != [] && AllStatic(es) {
      var k := NaturalIsWidest(es);
      w := if forced.Some? then Max(forced.value, NaturalWidth(es)) else NaturalWidth(es);
      assert IsStatic(es[0]);
      FitsMeans(es, w);
    }
  }

  // ----- arrays of byte strings and tuples -----

  function Encodings(items: seq<Arg>): (es: seq<seq<byte>>)
    requires EncodeAll(items).Some?
    ensures |es| == |items|
  {
    if items == [] then [] else [EncodeArg(items[0]).value] + Encodings(items[1..])
  }

  lemma {:induction false} EncodingsFlat(items: seq<Arg>)
    requires EncodeAll(items).Some?
    ensures Flat(Encodings(items)) == EncodeAll(items).value
  {
    if items != [] {
      EncodingsFlat(items[1..]);
      assert Encodings(items)[1..] == Encodings(items[1..]);
    }
  }

  lemma {:induction false} EncodingsDynamic(items: seq<Arg>)
    requires EncodeAll(items).Some? && forall i | 0 <= i < |items| :: !items[i].Num?
    ensures AllDynamic(Encodings(items))
  {
    if items != [] {
      EncodingsDynamic(items[1..]);
      assert Encodings(items)[1..] == Encodings(items[1..]);
      assert IsDynamicLiteral(EncodeArg(items[0]).value);
    }
  }

  /** An array of byte strings, tuples and objects is accepted, and its elements come back. */
  lemma DynamicRoundTrip(items: seq<Arg>, rest: seq<byte>) returns (header: nat)
    requires items != [] && |items| <= 65535 && EncodeAll(items).Some? && AllSmall(items)
    requires forall i | 0 <= i < |items| :: !items[i].Num?
    ensures var r := EncodeArray(Encodings(items), None);
            && r.Encoded? && header <= |r.b|
            && DecodeMany(|items|, r.b[header..] + rest) == Some((TreesOf(items), rest))
  {
    var es := Encodings(items);
    EncodingsFlat(items);
    EncodingsDynamic(items);
    PrefixCodeAll(items, rest);
    header := if |items| <= 0xff then 3 else 4;
    assert EncodeArg(items[0]).Some? && es[0] == EncodeArg(items[0]).value;
    assert !IsStatic(es[0]);
    assert EncodeArray(es, None).b[header..] == Flat(es);
  }
}
