/** Bytes and big-endian numbers. */
module Bytes {

  type byte = b: int | 0 <= b < 256

  function Pow256(n: nat): (p: nat)
    ensures p > 0
  {
    if n == 0 then 1 else 256 * Pow256(n - 1)
  }

  /** The last `w` base-256 digits of `v`, most significant first. */
  function ToBE(v: nat, w: nat): (b: seq<byte>)
    ensures |b| == w
  {
    if w == 0 then [] else ToBE(v / 256, w - 1) + [v % 256]
  }

  function FromBE(b: seq<byte>): nat {
    if b == [] then 0 else 256 * FromBE(b[..|b| - 1]) + b[|b| - 1]
  }

  /** How many bytes a number needs; zero still takes one. */
  function Width(v: nat): (w: nat)
    ensures w >= 1
  {
    if v < 256 then 1 else 1 + Width(v / 256)
  }

  lemma {:induction false} RoundTrip(v: nat, w: nat)
    requires v < Pow256(w)
    ensures FromBE(ToBE(v, w)) == v
  {
    if w > 0 {
      RoundTrip(v / 256, w - 1);
      assert ToBE(v, w)[..w - 1] == ToBE(v / 256, w - 1);
    }
  }

  lemma {:induction false} FitsWidth(v: nat)
    ensures v < Pow256(Width(v))
  {
    if v >= 256 {
      FitsWidth(v / 256);
    }
  }

  lemma {:induction false} WidthBounded(v: nat, w: nat)
    requires v < Pow256(w) && w >= 1
    ensures Width(v) <= w
  {
    if v >= 256 {
      assert w > 1;
      WidthBounded(v / 256, w - 1);
    }
  }

  lemma {:induction false} PadLeft(n: nat, b: seq<byte>)
    ensures FromBE(Zeros(n) + b) == FromBE(b)
  {
    if b == [] {
      assert Zeros(n) + b == Zeros(n);
      ZerosValue(n);
    } else {
      assert (Zeros(n) + b)[..n + |b| - 1] == Zeros(n) + b[..|b| - 1];
      PadLeft(n, b[..|b| - 1]);
    }
  }

  function Zeros(n: nat): (b: seq<byte>)
    ensures |b| == n
  {
    seq(n, _ => 0)
  }

  lemma {:induction false} ZerosValue(n: nat)
    ensures FromBE(Zeros(n)) == 0
  {
    if n > 0 {
      ZerosValue(n - 1);
      assert Zeros(n)[..n - 1] == Zeros(n - 1);
    }
  }

  /** Two bytes of a number below 2^16. */
  lemma TwoBytes(hi: byte, lo: byte)
    ensures FromBE([hi, lo]) == 256 * hi + lo
  {
    assert [hi, lo][..1] == [hi] && [hi][..0] == [];
    assert FromBE([hi]) == 256 * FromBE([]) + hi;
  }
}
