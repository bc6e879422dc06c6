/** The section "Formal Specification of the Encoding" of the Solidity Contract ABI
    Specification: static values in place, dynamic ones behind an offset. */
module AbiEncoding {
  import opened Arith
  import opened Bytes

  type Ident = string

  datatype Component = Component(name: Option<Ident>, t: Type)

  /** Word stands for every elementary static type, Blob for `bytes` and `string`. */
  datatype Type =
    | Word
    | Blob
    | Array(elem: Type)
    | Fixed(elem: Type, n: nat)
    | Tuple(components: seq<Component>)

  datatype Value = VWord(n: nat) | VBlob(bs: seq<byte>) | VList(vs: seq<Value>)

  predicate IsStatic(t: Type) {
    match t
    case Word => true
    case Blob => false
    case Array(_) => false
    case Fixed(e, _) => IsStatic(e)
    case Tuple(cs) => forall i | 0 <= i < |cs| :: IsStatic(cs[i].t)
  }

  /** An encoded component. */
  datatype Part = Part(dynamic: bool, enc: seq<byte>)

  function Uint(n: nat): seq<byte> {
    ToBE(n, 32)
  }

  function HeadSize(ps: seq<Part>): nat {
    if ps == [] then 0 else (if ps[0].dynamic then 32 else |ps[0].enc|) + HeadSize(ps[1..])
  }

  function Tails(ps: seq<Part>): seq<byte> {
    if ps == [] then [] else (if ps[0].dynamic then ps[0].enc else []) + Tails(ps[1..])
  }

  /** Heads, when the next tail will start at `at`. */
  function Heads(ps: seq<Part>, at: nat): seq<byte> {
    if ps == [] then []
    else if ps[0].dynamic then Uint(at) + Heads(ps[1..], at + |ps[0].enc|)
    else ps[0].enc + Heads(ps[1..], at)
  }

  function HeadTail(ps: seq<Part>): seq<byte> {
    Heads(ps, HeadSize(ps)) + Tails(ps)
  }

  function PadRight(bs: seq<byte>): seq<byte> {
    bs + Zeros((32 - |bs| % 32) % 32)
  }

  /** Nothing for a value that is not of the type. */
  function Enc(t: Type, v: Value): seq<byte>
    decreases v, 1
  {
    match (t, v)
    case (Word, VWord(n)) => Uint(n)
    case (Blob, VBlob(bs)) => Uint(|bs|) + PadRight(bs)
    case (Array(e), VList(vs)) => Uint(|vs|) + HeadTail(PartsAll(e, vs))
    case (Fixed(e, _), VList(vs)) => HeadTail(PartsAll(e, vs))
    case (Tuple(cs), VList(vs)) => if |cs| == |vs| then HeadTail(PartsOf(cs, vs)) else []
    case _ => []
  }

  function PartsAll(e: Type, vs: seq<Value>): seq<Part>
    decreases vs, 0
  {
    if vs == [] then [] else [Part(!IsStatic(e), Enc(e, vs[0]))] + PartsAll(e, vs[1..])
  }

  function PartsOf(cs: seq<Component>, vs: seq<Value>): seq<Part>
    requires |cs| == |vs|
    decreases vs, 0
  {
    if vs == [] then [] else [Part(!IsStatic(cs[0].t), Enc(cs[0].t, vs[0]))] + PartsOf(cs[1..], vs[1..])
  }

  // ----- what a list of parts contributes -----

  lemma {:induction false} Concat(p: seq<Part>, q: seq<Part>, at: nat)
    ensures HeadSize(p + q) == HeadSize(p) + HeadSize(q)
    ensures Tails(p + q) == Tails(p) + Tails(q)
    ensures Heads(p + q, at) == Heads(p, at) + Heads(q, at + |Tails(p)|)
  {
    if p == [] {
      assert p + q == q;
    } else {
      assert (p + q)[1..] == p[1..] + q;
      Concat(p[1..], q, if p[0].dynamic then at + |p[0].enc| else at);
    }
  }

  lemma {:induction false} HeadsSize(ps: seq<Part>, at: nat)
    ensures |Heads(ps, at)| == HeadSize(ps)
  {
    if ps != [] {
      HeadsSize(ps[1..], if ps[0].dynamic then at + |ps[0].enc| else at);
    }
  }

  lemma One(d: Part, at: nat)
    ensures HeadSize([d]) == if d.dynamic then 32 else |d.enc|
    ensures d.dynamic ==> Heads([d], at) == Uint(at) && Tails([d]) == d.enc
  {
    assert [d][1..] == [];
  }

  /** The offset written for a dynamic part is where its tail is. */
  lemma OffsetPointsAtTail(p: seq<Part>, d: Part, q: seq<Part>, ps: seq<Part>, at: nat)
    requires d.dynamic && ps == p + ([d] + q) && at == HeadSize(ps) + |Tails(p)|
    ensures HeadSize(p) + 32 <= |HeadTail(ps)| && at + |d.enc| <= |HeadTail(ps)|
    ensures HeadTail(ps)[HeadSize(p)..HeadSize(p) + 32] == Uint(at)
    ensures HeadTail(ps)[at..at + |d.enc|] == d.enc
  {
    var size := HeadSize(ps);
    Around(p, d, q, size);
    HeadsSize(p, size);
    HeadsSize(ps, size);
    var a, c := Heads(p, size), Heads(q, at + |d.enc|);
    assert HeadTail(ps) == (a + Uint(at) + c) + (Tails(p) + d.enc + Tails(q));
    Both(a, Uint(at), c, Tails(p), d.enc, Tails(q), HeadTail(ps));
  }

  lemma Both(a: seq<byte>, b: seq<byte>, c: seq<byte>, x: seq<byte>, y: seq<byte>, z: seq<byte>, all: seq<byte>)
    requires all == (a + b + c) + (x + y + z)
    ensures all[|a|..|a| + |b|] == b
    ensures all[|a + b + c| + |x|..|a + b + c| + |x| + |y|] == y
  {
    Between(a, b, c + (x + y + z));
    Between((a + b + c) + x, y, z);
    assert (a + b + c) + (x + y + z) == a + b + (c + (x + y + z));
    assert (a + b + c) + (x + y + z) == (a + b + c) + x + y + z;
  }

  lemma Around(p: seq<Part>, d: Part, q: seq<Part>, at: nat)
    requires d.dynamic
    ensures var all, here := p + ([d] + q), at + |Tails(p)|;
            && Heads(all, at) == Heads(p, at) + Uint(here) + Heads(q, here + |d.enc|)
            && Tails(all) == Tails(p) + d.enc + Tails(q)
  {
    Concat(p, [d] + q, at);
    Concat([d], q, at + |Tails(p)|);
    One(d, at + |Tails(p)|);
  }

  lemma Between(a: seq<byte>, b: seq<byte>, c: seq<byte>)
    ensures (a + b + c)[|a|..|a| + |b|] == b
  {
  }

  /** Interchangeable inside any list of parts. */
  ghost predicate Same(p: seq<Part>, q: seq<Part>) {
    HeadSize(p) == HeadSize(q) && Tails(p) == Tails(q) && forall at: nat :: Heads(p, at) == Heads(q, at)
  }

  lemma SameConcat(p: seq<Part>, p': seq<Part>, q: seq<Part>, q': seq<Part>)
    requires Same(p, p') && Same(q, q')
    ensures Same(p + q, p' + q')
  {
    Concat(p, q, 0);
    Concat(p', q', 0);
    forall at: nat
      ensures Heads(p + q, at) == Heads(p' + q', at)
    {
      assert Heads(q, at + |Tails(p)|) == Heads(q', at + |Tails(p)|);
      SameHeads(p, p', q, q', at);
    }
  }

  lemma SameHeads(p: seq<Part>, p': seq<Part>, q: seq<Part>, q': seq<Part>, at: nat)
    requires Tails(p) == Tails(p') && Heads(p, at) == Heads(p', at)
    requires Heads(q, at + |Tails(p)|) == Heads(q', at + |Tails(p)|)
    ensures Heads(p + q, at) == Heads(p' + q', at)
  {
    Concat(p, q, at);
    Concat(p', q', at);
  }

  predicate AllStatic(ps: seq<Part>) {
    ps == [] || (!ps[0].dynamic && AllStatic(ps[1..]))
  }

  lemma {:induction false} StaticHeads(ps: seq<Part>, at: nat, other: nat)
    requires AllStatic(ps)
    ensures Heads(ps, at) == Heads(ps, other) && Tails(ps) == []
  {
    if ps != [] {
      StaticHeads(ps[1..], at, other);
    }
  }

  lemma {:induction false} StaticParts(cs: seq<Component>, vs: seq<Value>)
    requires |cs| == |vs| && forall i | 0 <= i < |cs| :: IsStatic(cs[i].t)
    ensures AllStatic(PartsOf(cs, vs))
  {
    if vs != [] {
      forall i | 0 <= i < |cs| - 1
        ensures IsStatic(cs[1..][i].t)
      {
        assert cs[1..][i] == cs[i + 1];
      }
      StaticParts(cs[1..], vs[1..]);
    }
  }

  /** Static parts may be spliced into the list around them, or encoded apart as one part. */
  lemma Splice(ps: seq<Part>)
    requires AllStatic(ps)
    ensures Same(ps, [Part(false, HeadTail(ps))])
  {
    var one := [Part(false, HeadTail(ps))];
    assert one[1..] == [];
    HeadsSize(ps, HeadSize(ps));
    StaticHeads(ps, 0, 0);
    forall at: nat
      ensures Heads(ps, at) == Heads(one, at)
    {
      StaticHeads(ps, at, HeadSize(ps));
    }
  }
}
