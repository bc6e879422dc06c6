/** A decoder for the standard's encoding that looks only at a type and the bytes, as a contract
    does: it gets every value back, so no two values of a type have the same bytes. */
module AbiDecode {
  import opened Arith
  import opened Bytes
  import opened AbiEncoding

  /** Values of a type: words and lengths below 2^256, lists as long as the type says. */
  predicate Fits(t: Type, v: Value)
    decreases v, 1
  {
    match (t, v)
    case (Word, VWord(n)) => n < Pow256(32)
    case (Blob, VBlob(bs)) => |bs| < Pow256(32)
    case (Array(e), VList(vs)) => |vs| < Pow256(32) && AllFit(e, vs)
    case (Fixed(e, n), VList(vs)) => |vs| == n && AllFit(e, vs)
    case (Tuple(cs), VList(vs)) => |cs| == |vs| && EachFits(cs, vs)
    case _ => false
  }

  predicate AllFit(e: Type, vs: seq<Value>)
    decreases vs, 0
  {
    vs == [] || (Fits(e, vs[0]) && AllFit(e, vs[1..]))
  }

  predicate EachFits(cs: seq<Component>, vs: seq<Value>)
    requires |cs| == |vs|
    decreases vs, 0
  {
    vs == [] || (Fits(cs[0].t, vs[0]) && EachFits(cs[1..], vs[1..]))
  }

  // ----- the decoder -----

  /** How many bytes every value of a static type takes. */
  function StaticBytes(t: Type): nat
    decreases t
  {
    match t
    case Fixed(e, n) => n * StaticBytes(e)
    case Tuple(cs) => StaticBytesOf(cs)
    case _ => 32
  }

  function StaticBytesOf(cs: seq<Component>): nat
    decreases cs
  {
    if cs == [] then 0 else (assert cs decreases to cs[0]; StaticBytes(cs[0].t) + StaticBytesOf(cs[1..]))
  }

  /** A component takes its own bytes in the head when static, and an offset when not. */
  function HeadBytes(t: Type): nat {
    if IsStatic(t) then StaticBytes(t) else 32
  }

  function FirstWord(b: seq<byte>): Option<nat> {
    if 32 <= |b| then Some(FromBE(b[..32])) else None
  }

  /** The value of type `t` at the start of `b`. */
  function Read(t: Type, b: seq<byte>): Option<Value>
    decreases t, 0
  {
    match t
    case Word => (match FirstWord(b) case Some(n) => Some(VWord(n)) case None => None)
    case Blob =>
      (match FirstWord(b)
       case Some(n) => if 32 + n <= |b| then Some(VBlob(b[32..][..n])) else None
       case None => None)
    case Array(e) => (match FirstWord(b) case Some(n) => ListOf(ReadMany(e, n, b[32..], b[32..])) case None => None)
    case Fixed(e, n) => ListOf(ReadMany(e, n, b, b))
    case Tuple(cs) => ListOf(ReadFields(cs, b, b))
  }

  function ListOf(vs: Option<seq<Value>>): Option<Value> {
    match vs case Some(list) => Some(VList(list)) case None => None
  }

  /** The component whose head `head` starts with; offsets count from the start of `block`. */
  function ReadAt(t: Type, block: seq<byte>, head: seq<byte>): Option<Value>
    decreases t, 1
  {
    if IsStatic(t) then Read(t, head)
    else
      match FirstWord(head)
      case Some(offset) => if offset <= |block| then Read(t, block[offset..]) else None
      case None => None
  }

  function ReadMany(e: Type, n: nat, block: seq<byte>, head: seq<byte>): Option<seq<Value>>
    decreases e, 2, n
  {
    if n == 0 then Some([])
    else if |head| < HeadBytes(e) then None
    else
      match (ReadAt(e, block, head), ReadMany(e, n - 1, block, head[HeadBytes(e)..]))
      case (Some(v), Some(vs)) => Some([v] + vs)
      case _ => None
  }

  function ReadFields(cs: seq<Component>, block: seq<byte>, head: seq<byte>): Option<seq<Value>>
    decreases cs, 0
  {
    if cs == [] then Some([])
    else if |head| < HeadBytes(cs[0].t) then None
    else
      assert cs decreases to cs[0];
      match (ReadAt(cs[0].t, block, head), ReadFields(cs[1..], block, head[HeadBytes(cs[0].t)..]))
      case (Some(v), Some(vs)) => Some([v] + vs)
      case _ => None
  }

  // ----- static types -----

  lemma {:induction false} AllStaticSize(ps: seq<Part>)
    requires AllStatic(ps)
    ensures |HeadTail(ps)| == HeadSize(ps)
  {
    HeadsSize(ps, HeadSize(ps));
    StaticHeads(ps, 0, 0);
  }

  /** Values of a static type are as long as the type says. */
  lemma {:induction false} StaticSize(t: Type, v: Value)
    requires IsStatic(t) && Fits(t, v)
    ensures |Enc(t, v)| == StaticBytes(t)
    decreases v, 1
  {
    match t
    case Word =>
    case Fixed(e, n) => StaticElements(e, v.vs);
    case Tuple(cs) => StaticFields(cs, v.vs);
  }

  lemma {:induction false} StaticElements(e: Type, vs: seq<Value>)
    requires IsStatic(e) && AllFit(e, vs)
    ensures |HeadTail(PartsAll(e, vs))| == |vs| * StaticBytes(e)
    decreases vs, 1
  {
    ElementHeads(e, vs);
    AllStaticSize(PartsAll(e, vs));
  }

  lemma {:induction false} ElementHeads(e: Type, vs: seq<Value>)
    requires IsStatic(e) && AllFit(e, vs)
    ensures AllStatic(PartsAll(e, vs)) && HeadSize(PartsAll(e, vs)) == |vs| * StaticBytes(e)
    decreases vs, 0
  {
    if vs != [] {
      assert vs decreases to vs[0];
      StaticSize(e, vs[0]);
      ElementHeads(e, vs[1..]);
      OneMore(|vs[1..]|, StaticBytes(e));
    }
  }

  lemma OneMore(n: nat, k: nat)
    ensures (n + 1) * k == k + n * k
  {
  }

  lemma {:induction false} StaticFields(cs: seq<Component>, vs: seq<Value>)
    requires |cs| == |vs| && EachFits(cs, vs) && IsStatic(Tuple(cs))
    ensures |HeadTail(PartsOf(cs, vs))| == StaticBytesOf(cs)
    decreases vs, 1
  {
    FieldHeads(cs, vs);
    AllStaticSize(PartsOf(cs, vs));
  }

  lemma {:induction false} FieldHeads(cs: seq<Component>, vs: seq<Value>)
    requires |cs| == |vs| && EachFits(cs, vs) && IsStatic(Tuple(cs))
    ensures AllStatic(PartsOf(cs, vs)) && HeadSize(PartsOf(cs, vs)) == StaticBytesOf(cs)
    decreases vs, 0
  {
    if vs != [] {
      assert vs decreases to vs[0];
      StaticSize(cs[0].t, vs[0]);
      assert forall i | 0 <= i < |cs| - 1 :: cs[1..][i] == cs[i + 1];
      FieldHeads(cs[1..], vs[1..]);
    }
  }

  // ----- reading back -----

  lemma Past(x: seq<byte>, y: seq<byte>, b: seq<byte>)
    requires x + y <= b
    ensures x <= b && y <= b[|x|..]
  {
    assert (x + y)[..|x|] == x && (x + y)[|x|..] == y;
  }

  lemma WordBack(n: nat, b: seq<byte>)
    requires n < Pow256(32) && Uint(n) <= b
    ensures FirstWord(b) == Some(n)
  {
    RoundTrip(n, 32);
    assert b[..32] == Uint(n);
  }

  /** Whatever follows the encoding of a value, reading its type there gives the value. */
  lemma {:induction false} ReadsBack(t: Type, v: Value, b: seq<byte>)
    requires Fits(t, v) && Enc(t, v) <= b && |Enc(t, v)| < Pow256(32)
    ensures Read(t, b) == Some(v)
    decreases v, 2
  {
    match t
    case Word => WordBack(v.n, b);
    case Blob => BlobBack(v.bs, b);
    case Array(e) =>
      Past(Uint(|v.vs|), HeadTail(PartsAll(e, v.vs)), b);
      WordBack(|v.vs|, b);
      AllBack(e, v.vs, b[32..]);
    case Fixed(e, _) => AllBack(e, v.vs, b);
    case Tuple(cs) =>
      var ps := PartsOf(cs, v.vs);
      BlockLaid(ps, b);
      FieldsBack(cs, v.vs, b, b, HeadSize(ps));
  }

  lemma BlobBack(bs: seq<byte>, b: seq<byte>)
    requires |bs| < Pow256(32) && Enc(Blob, VBlob(bs)) <= b
    ensures Read(Blob, b) == Some(VBlob(bs))
  {
    Past(Uint(|bs|), PadRight(bs), b);
    Past(bs, Zeros((32 - |bs| % 32) % 32), b[32..]);
    WordBack(|bs|, b);
    assert b[32..][..|bs|] == bs;
  }

  /** One part: its bytes first if static, or else an offset and its bytes there. */
  predicate PartLaid(d: Part, block: seq<byte>, head: seq<byte>, tail: nat) {
    && |d.enc| < Pow256(32)
    && if d.dynamic then FirstWord(head) == Some(tail) && tail <= |block| && d.enc <= block[tail..] else d.enc <= head
  }

  /** All of them, the heads one after another and the tails from `tail` on. */
  predicate Laid(ps: seq<Part>, block: seq<byte>, head: seq<byte>, tail: nat) {
    ps == [] ||
    (PartLaid(ps[0], block, head, tail)
     && if ps[0].dynamic then Laid(ps[1..], block, head[32..], tail + |ps[0].enc|)
        else Laid(ps[1..], block, head[|ps[0].enc|..], tail))
  }

  lemma {:induction false} HeadsLaid(ps: seq<Part>, block: seq<byte>, head: seq<byte>, tail: nat)
    requires Heads(ps, tail) <= head && |Heads(ps, tail)| < Pow256(32)
    requires tail <= |block| && Tails(ps) <= block[tail..] && tail + |Tails(ps)| < Pow256(32)
    ensures Laid(ps, block, head, tail)
  {
    if ps != [] {
      var d, rest := ps[0], ps[1..];
      if d.dynamic {
        Past(Uint(tail), Heads(rest, tail + |d.enc|), head);
        Past(d.enc, Tails(rest), block[tail..]);
        WordBack(tail, head);
        assert block[tail..][|d.enc|..] == block[tail + |d.enc|..];
        HeadsLaid(rest, block, head[32..], tail + |d.enc|);
      } else {
        Past(d.enc, Heads(rest, tail), head);
        assert Tails(ps) == Tails(rest);
        HeadsLaid(rest, block, head[|d.enc|..], tail);
      }
    }
  }

  lemma BlockLaid(ps: seq<Part>, block: seq<byte>)
    requires HeadTail(ps) <= block && |HeadTail(ps)| < Pow256(32)
    ensures Laid(ps, block, block, HeadSize(ps))
  {
    HeadsSize(ps, HeadSize(ps));
    Past(Heads(ps, HeadSize(ps)), Tails(ps), block);
    HeadsLaid(ps, block, block, HeadSize(ps));
  }

  lemma {:induction false} OneBack(t: Type, v: Value, block: seq<byte>, head: seq<byte>, tail: nat)
    requires Fits(t, v) && PartLaid(Part(!IsStatic(t), Enc(t, v)), block, head, tail)
    ensures ReadAt(t, block, head) == Some(v) && HeadBytes(t) <= |head|
    ensures IsStatic(t) ==> |Enc(t, v)| == HeadBytes(t)
    decreases v, 3
  {
    if IsStatic(t) {
      StaticSize(t, v);
      ReadsBack(t, v, head);
    } else {
      ReadsBack(t, v, block[tail..]);
    }
  }

  lemma {:induction false} AllBack(e: Type, vs: seq<Value>, b: seq<byte>)
    requires AllFit(e, vs) && HeadTail(PartsAll(e, vs)) <= b && |HeadTail(PartsAll(e, vs))| < Pow256(32)
    ensures ReadMany(e, |vs|, b, b) == Some(vs)
    decreases vs, 2
  {
    BlockLaid(PartsAll(e, vs), b);
    ManyBack(e, vs, b, b, HeadSize(PartsAll(e, vs)));
  }

  lemma {:induction false} ManyBack(e: Type, vs: seq<Value>, block: seq<byte>, head: seq<byte>, tail: nat)
    requires AllFit(e, vs) && Laid(PartsAll(e, vs), block, head, tail)
    ensures ReadMany(e, |vs|, block, head) == Some(vs)
    decreases vs, 1
  {
    if vs != [] {
      assert vs decreases to vs[0];
      OneBack(e, vs[0], block, head, tail);
      ManyBack(e, vs[1..], block, head[HeadBytes(e)..], if IsStatic(e) then tail else tail + |Enc(e, vs[0])|);
      assert vs == [vs[0]] + vs[1..];
      ManyStep(e, vs[0], vs[1..], block, head);
    }
  }

  lemma ManyStep(e: Type, v: Value, vs: seq<Value>, block: seq<byte>, head: seq<byte>)
    requires HeadBytes(e) <= |head| && ReadAt(e, block, head) == Some(v)
    requires ReadMany(e, |vs|, block, head[HeadBytes(e)..]) == Some(vs)
    ensures ReadMany(e, |vs| + 1, block, head) == Some([v] + vs)
  {
  }

  lemma {:induction false} FieldsBack(cs: seq<Component>, vs: seq<Value>, block: seq<byte>, head: seq<byte>, tail: nat)
    requires |cs| == |vs| && EachFits(cs, vs) && Laid(PartsOf(cs, vs), block, head, tail)
    ensures ReadFields(cs, block, head) == Some(vs)
    decreases vs, 1
  {
    if vs != [] {
      assert vs decreases to vs[0];
      var t := cs[0].t;
      OneBack(t, vs[0], block, head, tail);
      FieldsBack(cs[1..], vs[1..], block, head[HeadBytes(t)..], if IsStatic(t) then tail else tail + |Enc(t, vs[0])|);
      assert [vs[0]] + vs[1..] == vs;
    }
  }

  /** So the standard's encoding is injective on the values of a type. */
  lemma EncInjective(t: Type, v: Value, w: Value)
    requires Fits(t, v) && Fits(t, w) && Enc(t, v) == Enc(t, w) && |Enc(t, v)| < Pow256(32)
    ensures v == w
  {
    ReadsBack(t, v, Enc(t, v));
    ReadsBack(t, w, Enc(t, w));
  }

  /** Behind its length a byte string is padded with zeros to the next multiple of 32. */
  lemma BlobPadded(bs: seq<byte>)
    ensures var e := Enc(Blob, VBlob(bs));
            && |e| % 32 == 0 && 32 + |bs| <= |e| < 64 + |bs| && e[32..32 + |bs|] == bs
            && forall i | 32 + |bs| <= i < |e| :: e[i] == 0
  {
    var e, pad := Enc(Blob, VBlob(bs)), Zeros((32 - |bs| % 32) % 32);
    assert e == Uint(|bs|) + (bs + pad);
    assert forall i | 32 + |bs| <= i < |e| :: e[i] == pad[i - 32 - |bs|];
  }

  // ----- what static means -----

  /** No tuple is empty and no array of a fixed length has length zero, as in any Solidity type. */
  predicate Solid(t: Type) {
    match t
    case Array(e) => Solid(e)
    case Fixed(e, n) => n > 0 && Solid(e)
    case Tuple(cs) => cs != [] && AllSolid(cs)
    case _ => true
  }

  predicate AllSolid(cs: seq<Component>) {
    cs == [] || (assert cs decreases to cs[0]; Solid(cs[0].t) && AllSolid(cs[1..]))
  }

  function Repeat(v: Value, n: nat): seq<Value> {
    if n == 0 then [] else [v] + Repeat(v, n - 1)
  }

  /** Some value of every type. */
  function Plain(t: Type): Value
    decreases t
  {
    match t
    case Word => VWord(0)
    case Blob => VBlob([])
    case Array(_) => VList([])
    case Fixed(e, n) => VList(Repeat(Plain(e), n))
    case Tuple(cs) => VList(PlainAll(cs))
  }

  function PlainAll(cs: seq<Component>): (vs: seq<Value>)
    ensures |vs| == |cs|
    decreases cs
  {
    if cs == [] then [] else (assert cs decreases to cs[0]; [Plain(cs[0].t)] + PlainAll(cs[1..]))
  }

  lemma {:induction false} RepeatFits(e: Type, v: Value, n: nat)
    requires Fits(e, v)
    ensures |Repeat(v, n)| == n && AllFit(e, Repeat(v, n))
  {
    if n > 0 {
      RepeatFits(e, v, n - 1);
    }
  }

  lemma {:induction false} PlainFits(t: Type)
    ensures Fits(t, Plain(t))
    decreases t
  {
    match t
    case Fixed(e, n) =>
      PlainFits(e);
      RepeatFits(e, Plain(e), n);
    case Tuple(cs) => PlainAllFit(cs);
    case _ =>
  }

  lemma {:induction false} PlainAllFit(cs: seq<Component>)
    ensures EachFits(cs, PlainAll(cs))
    decreases cs
  {
    if cs != [] {
      assert cs decreases to cs[0];
      PlainFits(cs[0].t);
      PlainAllFit(cs[1..]);
    }
  }

  lemma {:induction false} SolidBytes(t: Type)
    requires Solid(t) && IsStatic(t)
    ensures StaticBytes(t) >= 32
    decreases t
  {
    match t
    case Word =>
    case Fixed(e, n) =>
      SolidBytes(e);
      OneMore(n - 1, StaticBytes(e));
    case Tuple(cs) =>
      assert cs decreases to cs[0];
      SolidBytes(cs[0].t);
  }

  lemma {:induction false} Differ(t: Type) returns (v: Value, w: Value)
    requires Solid(t) && !IsStatic(t)
    ensures Fits(t, v) && Fits(t, w) && |Enc(t, v)| < |Enc(t, w)|
    decreases t
  {
    v, w := Plain(t), Plain(t);
    match t
    case Blob => w := VBlob([0]);
    case Array(e) => w := OneElement(e);
    case Fixed(e, n) =>
      var a, c := Differ(e);
      v, w := DifferFirst(e, n, a, c);
    case Tuple(cs) =>
      var vs, ws := DifferIn(cs);
      HeadsSize(PartsOf(cs, vs), HeadSize(PartsOf(cs, vs)));
      HeadsSize(PartsOf(cs, ws), HeadSize(PartsOf(cs, ws)));
      v, w := VList(vs), VList(ws);
  }

  /** An array of one element is longer than an empty one. */
  lemma OneElement(e: Type) returns (w: Value)
    requires Solid(e)
    ensures Fits(Array(e), w) && |Enc(Array(e), VList([]))| < |Enc(Array(e), w)|
  {
    w := VList([Plain(e)]);
    PlainFits(e);
    if IsStatic(e) {
      SolidBytes(e);
      StaticSize(e, Plain(e));
    }
    Alone(e, Plain(e));
    OnePart(Part(!IsStatic(e), Enc(e, Plain(e))));
  }

  lemma Alone(e: Type, v: Value)
    requires Fits(e, v)
    ensures PartsAll(e, [v]) == [Part(!IsStatic(e), Enc(e, v))] && AllFit(e, [v])
  {
    assert [v][1..] == [];
    assert PartsAll(e, [v][1..]) == [];
  }

  lemma OnePart(d: Part)
    ensures |HeadTail([d])| >= if d.dynamic then 32 else |d.enc|
  {
    One(d, 0);
    HeadsSize([d], HeadSize([d]));
  }

  lemma DifferFirst(e: Type, n: nat, a: Value, c: Value) returns (v: Value, w: Value)
    requires n > 0 && !IsStatic(e) && Fits(e, a) && Fits(e, c) && |Enc(e, a)| < |Enc(e, c)|
    ensures Fits(Fixed(e, n), v) && Fits(Fixed(e, n), w) && |Enc(Fixed(e, n), v)| < |Enc(Fixed(e, n), w)|
  {
    var rest := Repeat(Plain(e), n - 1);
    PlainFits(e);
    RepeatFits(e, Plain(e), n - 1);
    v, w := VList([a] + rest), VList([c] + rest);
    var p, q := PartsAll(e, v.vs), PartsAll(e, w.vs);
    HeadsSize(p, HeadSize(p));
    HeadsSize(q, HeadSize(q));
  }

  lemma {:induction false} DifferIn(cs: seq<Component>) returns (vs: seq<Value>, ws: seq<Value>)
    requires AllSolid(cs) && !IsStatic(Tuple(cs))
    ensures |vs| == |cs| == |ws| && EachFits(cs, vs) && EachFits(cs, ws)
    ensures HeadSize(PartsOf(cs, vs)) == HeadSize(PartsOf(cs, ws)) && |Tails(PartsOf(cs, vs))| < |Tails(PartsOf(cs, ws))|
    decreases cs
  {
    assert cs decreases to cs[0];
    var t := cs[0].t;
    if IsStatic(t) {
      assert forall i | 0 < i < |cs| :: cs[i] == cs[1..][i - 1];
      vs, ws := DifferIn(cs[1..]);
      PlainFits(t);
      vs, ws := [Plain(t)] + vs, [Plain(t)] + ws;
    } else {
      var a, c := Differ(t);
      PlainAllFit(cs[1..]);
      vs, ws := [a] + PlainAll(cs[1..]), [c] + PlainAll(cs[1..]);
    }
  }

  /** A type is static exactly when all its values are equally long, which is when splicing one
      leaves every offset around it as it was. */
  lemma StaticIffOneSize(t: Type)
    requires Solid(t)
    ensures IsStatic(t) <==> forall v, w | Fits(t, v) && Fits(t, w) :: |Enc(t, v)| == |Enc(t, w)|
  {
    if IsStatic(t) {
      forall v, w | Fits(t, v) && Fits(t, w)
        ensures |Enc(t, v)| == |Enc(t, w)|
      {
        StaticSize(t, v);
        StaticSize(t, w);
      }
    } else {
      var _, _ := Differ(t);
    }
  }
}
