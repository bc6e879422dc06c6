/** How values are written into bytecode: integers, byte strings, tuples and array literals. */
module Encode {
  import opened Arith
  import opened Bytes

  const BYTE_32: byte := 0x20
  const NEG: byte := 0x29
  const BYTES: byte := 0x90
  const BYTES_2: byte := 0x91
  const ARRAY: byte := 0x92
  const ARRAY_2: byte := 0x93
  const TUPLE: byte := 0x94

  /** A compile-time argument. An object is its fields in key order. */
  datatype Arg =
    | Num(v: int)
    | Blob(data: seq<byte>)
    | List(items: seq<Arg>)
    | Object(fields: seq<(string, Arg)>)

  /** What a decoder can see: an object comes back as a list of its fields. */
  datatype Tree = TNum(v: int) | TBlob(data: seq<byte>) | TList(items: seq<Tree>)

  function TreeOf(a: Arg): Tree {
    match a
    case Num(v) => TNum(v)
    case Blob(data) => TBlob(data)
    case List(items) => TList(TreesOf(items))
    case Object(fields) => TList(FieldTrees(fields))
  }

  function TreesOf(items: seq<Arg>): (ts: seq<Tree>)
    ensures |ts| == |items|
  {
    if items == [] then [] else [TreeOf(items[0])] + TreesOf(items[1..])
  }

  function FieldTrees(fields: seq<(string, Arg)>): (ts: seq<Tree>)
    ensures |ts| == |fields|
  {
    if fields == [] then []
    else
      assert fields decreases to fields[0];
      [TreeOf(fields[0].1)] + FieldTrees(fields[1..])
  }

  // ----- encoding -----

  /** A width opcode and the magnitude, behind NEG when negative; None past 32 bytes. */
  function EncodeInt(v: int): Option<seq<byte>> {
    var n := Abs(v);
    if n >= Pow256(32) then None
    else
      WidthBounded(n, 32);
      var digits := [Width(n) as byte] + ToBE(n, Width(n));
      Some(if v < 0 then [NEG] + digits else digits)
  }

  function LengthPrefix(n: nat, short: byte, long: byte): seq<byte>
    requires n < 0x10000
  {
    if n <= 0xff then [short, n] else [long, n / 256, n % 256]
  }

  function EncodeBytes(data: seq<byte>): Option<seq<byte>> {
    if |data| > 0xffff then None else Some(LengthPrefix(|data|, BYTES, BYTES_2) + data)
  }

  /** A tuple's length is one byte, whatever it is. */
  function EncodeArg(a: Arg): Option<seq<byte>> {
    match a
    case Num(v) => EncodeInt(v)
    case Blob(data) => EncodeBytes(data)
    case List(items) =>
      (match EncodeAll(items)
       case Some(flat) => Some([TUPLE, |items| % 256] + flat)
       case None => None)
    case Object(fields) =>
      (match EncodeFields(fields)
       case Some(flat) => Some([TUPLE, |fields| % 256] + flat)
       case None => None)
  }

  function EncodeAll(items: seq<Arg>): Option<seq<byte>> {
    if items == [] then Some([])
    else
      match (EncodeArg(items[0]), EncodeAll(items[1..]))
      case (Some(b), Some(rest)) => Some(b + rest)
      case _ => None
  }

  function EncodeFields(fields: seq<(string, Arg)>): Option<seq<byte>> {
    if fields == [] then Some([])
    else
      assert fields decreases to fields[0];
      match (EncodeArg(fields[0].1), EncodeFields(fields[1..]))
      case (Some(b), Some(rest)) => Some(b + rest)
      case _ => None
  }

  // ----- decoding -----

  /** Reads one value and leaves the rest. */
  function Decode(b: seq<byte>): (r: Option<(Tree, seq<byte>)>)
    ensures r.Some? ==> |r.value.1| < |b|
    decreases |b|, 0
  {
    if b == [] then None
    else if b[0] == NEG then
      match Decode(b[1..])
      case Some((TNum(n), rest)) => Some((TNum(-n), rest))
      case _ => None
    else if 1 <= b[0] <= BYTE_32 then
      if |b| <= b[0] then None else Some((TNum(FromBE(b[1..b[0] as int + 1])), b[b[0] as int + 1..]))
    else if b[0] == BYTES then
      if |b| < 2 || |b| - 2 < b[1] then None else Some((TBlob(b[2..b[1] as int + 2]), b[b[1] as int + 2..]))
    else if b[0] == BYTES_2 then
      if |b| < 3 || |b| < 3 + FromBE(b[1..3]) then None
      else Some((TBlob(b[3..3 + FromBE(b[1..3])]), b[3 + FromBE(b[1..3])..]))
    else if b[0] == TUPLE && |b| >= 2 then
      match DecodeMany(b[1], b[2..])
      case Some((ts, rest)) => Some((TList(ts), rest))
      case None => None
    else None
  }

  function DecodeMany(n: nat, b: seq<byte>): (r: Option<(seq<Tree>, seq<byte>)>)
    ensures r.Some? ==> |r.value.1| <= |b| && |r.value.0| == n
    decreases |b|, 1
  {
    if n == 0 then Some(([], b))
    else
      match Decode(b)
      case None => None
      case Some((t, rest)) =>
        match DecodeMany(n - 1, rest)
        case Some((ts, rest2)) => Some(([t] + ts, rest2))
        case None => None
  }

  /** Every tuple, at every depth, has at most 255 elements. */
  predicate Small(a: Arg) {
    match a
    case List(items) => |items| <= 255 && AllSmall(items)
    case Object(fields) => |fields| <= 255 && FieldsSmall(fields)
    case _ => true
  }

  predicate AllSmall(items: seq<Arg>) {
    items == [] || (Small(items[0]) && AllSmall(items[1..]))
  }

  predicate FieldsSmall(fields: seq<(string, Arg)>) {
    fields == [] || (assert fields decreases to fields[0]; Small(fields[0].1) && FieldsSmall(fields[1..]))
  }

  lemma DecodeNat(n: nat, rest: seq<byte>)
    requires n < Pow256(32)
    ensures 1 <= Width(n) <= 32 && Decode([Width(n)] + ToBE(n, Width(n)) + rest) == Some((TNum(n), rest))
  {
    WidthBounded(n, 32);
    FitsWidth(n);
    RoundTrip(n, Width(n));
    DecodeDigits(Width(n), ToBE(n, Width(n)), rest);
  }

  lemma DecodeNegative(b: seq<byte>, n: int, rest: seq<byte>)
    requires Decode(b) == Some((TNum(n), rest))
    ensures Decode([NEG] + b) == Some((TNum(-n), rest))
  {
    assert ([NEG] + b)[1..] == b;
  }

  lemma DecodeInt(v: int, rest: seq<byte>)
    requires EncodeInt(v).Some?
    ensures Decode(EncodeInt(v).value + rest) == Some((TNum(v), rest))
  {
    var n := Abs(v);
    DecodeNat(n, rest);
    var digits: seq<byte> := [Width(n)] + ToBE(n, Width(n));
    DecodeNegative(digits + rest, n, rest);
    SignFirst(digits, rest);
  }

  lemma SignFirst(digits: seq<byte>, rest: seq<byte>)
    ensures [NEG] + digits + rest == [NEG] + (digits + rest)
  {
  }

  lemma DecodeDigits(w: nat, digits: seq<byte>, rest: seq<byte>)
    requires 1 <= w <= 32 && |digits| == w
    ensures Decode([w] + digits + rest) == Some((TNum(FromBE(digits)), rest))
  {
    var b := [w] + digits + rest;
    assert b[1..w + 1] == digits && b[w + 1..] == rest;
  }

  lemma DecodeBytes(data: seq<byte>, rest: seq<byte>)
    requires EncodeBytes(data).Some?
    ensures Decode(EncodeBytes(data).value + rest) == Some((TBlob(data), rest))
  {
    var n := |data|;
    var b := EncodeBytes(data).value + rest;
    if n <= 0xff {
      assert b[2..2 + n] == data && b[2 + n..] == rest;
    } else {
      TwoBytes(n / 256, n % 256);
      assert b[1..3] == [n / 256, n % 256];
      assert b[3..3 + n] == data && b[3 + n..] == rest;
    }
  }

  lemma DecodeTuple(n: byte, flat: seq<byte>, rest: seq<byte>)
    ensures Decode([TUPLE, n] + flat + rest) == match DecodeMany(n, flat + rest)
                                                case Some((ts, rest2)) => Some((TList(ts), rest2))
                                                case None => None
  {
    var b := [TUPLE, n] + flat + rest;
    assert b[2..] == flat + rest;
  }

  /** A short tuple whose elements come back comes back. */
  lemma TupleBack(n: nat, flat: seq<byte>, rest: seq<byte>, ts: seq<Tree>)
    requires n <= 255 && DecodeMany(n, flat + rest) == Some((ts, rest))
    ensures Decode([TUPLE, n % 256] + flat + rest) == Some((TList(ts), rest))
  {
    DecodeTuple(n % 256, flat, rest);
  }

  /** The encoding is a prefix code: what was written comes back, and what follows is untouched. */
  lemma {:induction false} PrefixCode(a: Arg, rest: seq<byte>)
    requires EncodeArg(a).Some? && Small(a)
    ensures Decode(EncodeArg(a).value + rest) == Some((TreeOf(a), rest))
    decreases a, 1
  {
    match a
    case Num(v) => DecodeInt(v, rest);
    case Blob(data) => DecodeBytes(data, rest);
    case List(items) => PrefixCodeList(items, rest);
    case Object(fields) => PrefixCodeObject(fields, rest);
  }

  lemma {:induction false} PrefixCodeList(items: seq<Arg>, rest: seq<byte>)
    requires EncodeAll(items).Some? && |items| <= 255 && AllSmall(items)
    ensures Decode([TUPLE, |items| % 256] + EncodeAll(items).value + rest) == Some((TList(TreesOf(items)), rest))
    decreases items, 1
  {
    PrefixCodeAll(items, rest);
    TupleBack(|items|, EncodeAll(items).value, rest, TreesOf(items));
  }

  lemma {:induction false} PrefixCodeObject(fields: seq<(string, Arg)>, rest: seq<byte>)
    requires EncodeFields(fields).Some? && |fields| <= 255 && FieldsSmall(fields)
    ensures Decode([TUPLE, |fields| % 256] + EncodeFields(fields).value + rest) == Some((TList(FieldTrees(fields)), rest))
    decreases fields, 1
  {
    PrefixCodeFields(fields, rest);
    TupleBack(|fields|, EncodeFields(fields).value, rest, FieldTrees(fields));
  }

  lemma {:induction false} PrefixCodeAll(items: seq<Arg>, rest: seq<byte>)
    requires EncodeAll(items).Some? && AllSmall(items)
    ensures DecodeMany(|items|, EncodeAll(items).value + rest) == Some((TreesOf(items), rest))
    decreases items, 0
  {
    if items == [] {
      assert [] + rest == rest;
    } else {
      var b, tail := EncodeArg(items[0]).value, EncodeAll(items[1..]).value;
      assert EncodeAll(items).value + rest == b + (tail + rest);
      PrefixCode(items[0], tail + rest);
      PrefixCodeAll(items[1..], rest);
    }
  }

  lemma {:induction false} PrefixCodeFields(fields: seq<(string, Arg)>, rest: seq<byte>)
    requires EncodeFields(fields).Some? && FieldsSmall(fields)
    ensures DecodeMany(|fields|, EncodeFields(fields).value + rest) == Some((FieldTrees(fields), rest))
    decreases fields, 0
  {
    if fields == [] {
      assert [] + rest == rest;
    } else {
      assert fields decreases to fields[0];
      var b, tail := EncodeArg(fields[0].1).value, EncodeFields(fields[1..]).value;
      assert EncodeFields(fields).value + rest == b + (tail + rest);
      PrefixCode(fields[0].1, tail + rest);
      PrefixCodeFields(fields[1..], rest);
    }
  }

  // ----- longer tuples are lost -----

  /** A decoder gets back something else, or nothing. */
  predicate Lost(t: Tree, r: Option<(Tree, seq<byte>)>) {
    r.Some? ==> r.value.0 != t
  }

  predicate LostAll(ts: seq<Tree>, r: Option<(seq<Tree>, seq<byte>)>) {
    r.Some? ==> r.value.0 != ts
  }

  lemma {:induction false} LongTupleLost(a: Arg, rest: seq<byte>)
    requires EncodeArg(a).Some? && !Small(a)
    ensures Lost(TreeOf(a), Decode(EncodeArg(a).value + rest))
  {
    match a
    case List(items) =>
      DecodeTuple(|items| % 256, EncodeAll(items).value, rest);
      if |items| <= 255 {
        LongTupleLostAll(items, rest);
      }
    case Object(fields) =>
      DecodeTuple(|fields| % 256, EncodeFields(fields).value, rest);
      if |fields| <= 255 {
        LongTupleLostFields(fields, rest);
      }
  }

  lemma {:induction false} LongTupleLostAll(items: seq<Arg>, rest: seq<byte>)
    requires EncodeAll(items).Some? && !AllSmall(items)
    ensures LostAll(TreesOf(items), DecodeMany(|items|, EncodeAll(items).value + rest))
  {
    var b, tail := EncodeArg(items[0]).value, EncodeAll(items[1..]).value;
    assert EncodeAll(items).value + rest == b + (tail + rest);
    assert TreesOf(items)[0] == TreeOf(items[0]) && TreesOf(items)[1..] == TreesOf(items[1..]);
    if Small(items[0]) {
      PrefixCode(items[0], tail + rest);
      LongTupleLostAll(items[1..], rest);
    } else {
      LongTupleLost(items[0], tail + rest);
    }
  }

  lemma {:induction false} LongTupleLostFields(fields: seq<(string, Arg)>, rest: seq<byte>)
    requires EncodeFields(fields).Some? && !FieldsSmall(fields)
    ensures LostAll(FieldTrees(fields), DecodeMany(|fields|, EncodeFields(fields).value + rest))
  {
    assert fields decreases to fields[0];
    var b, tail := EncodeArg(fields[0].1).value, EncodeFields(fields[1..]).value;
    assert EncodeFields(fields).value + rest == b + (tail + rest);
    assert FieldTrees(fields)[0] == TreeOf(fields[0].1) && FieldTrees(fields)[1..] == FieldTrees(fields[1..]);
    if Small(fields[0].1) {
      PrefixCode(fields[0].1, tail + rest);
      LongTupleLostFields(fields[1..], rest);
    } else {
      LongTupleLost(fields[0].1, tail + rest);
    }
  }

  /** So an argument survives exactly when no tuple in it is longer than 255. */
  lemma RecoveredIffSmall(a: Arg, rest: seq<byte>)
    requires EncodeArg(a).Some?
    ensures Decode(EncodeArg(a).value + rest) == Some((TreeOf(a), rest)) <==> Small(a)
  {
    if Small(a) {
      PrefixCode(a, rest);
    } else {
      LongTupleLost(a, rest);
    }
  }

  // ----- objects: fields in key order, however they were written -----

  type Field = (string, Arg)

  function Insert(f: Field, fs: seq<Field>, rank: string -> int): seq<Field> {
    if fs == [] || rank(f.0) <= rank(fs[0].0) then [f] + fs else [fs[0]] + Insert(f, fs[1..], rank)
  }

  /** A stable sort by the rank of the key in the collation order. */
  function SortFields(fs: seq<Field>, rank: string -> int): seq<Field> {
    if fs == [] then [] else Insert(fs[0], SortFields(fs[1..], rank), rank)
  }

  ghost predicate Ascending(fs: seq<Field>, rank: string -> int) {
    forall i, j | 0 <= i < j < |fs| :: rank(fs[i].0) <= rank(fs[j].0)
  }

  lemma {:induction false} InsertKeeps(f: Field, fs: seq<Field>, rank: string -> int)
    ensures multiset(Insert(f, fs, rank)) == multiset(fs) + multiset{f}
  {
    if fs != [] && rank(f.0) > rank(fs[0].0) {
      InsertKeeps(f, fs[1..], rank);
      assert fs == [fs[0]] + fs[1..];
    }
  }

  lemma {:induction false} InsertSorts(f: Field, fs: seq<Field>, rank: string -> int)
    requires Ascending(fs, rank)
    ensures Ascending(Insert(f, fs, rank), rank)
  {
    if fs != [] && rank(f.0) > rank(fs[0].0) {
      var rest := Insert(f, fs[1..], rank);
      InsertSorts(f, fs[1..], rank);
      InsertKeeps(f, fs[1..], rank);
      forall i | 0 <= i < |rest|
        ensures rank(fs[0].0) <= rank(rest[i].0)
      {
        assert rest[i] in multiset(rest);
        assert rest[i] in fs[1..] || rest[i] == f;
      }
      LeastFirst(fs[0], rest, rank);
    }
  }

  lemma LeastFirst(f: Field, rest: seq<Field>, rank: string -> int)
    requires Ascending(rest, rank) && forall i | 0 <= i < |rest| :: rank(f.0) <= rank(rest[i].0)
    ensures Ascending([f] + rest, rank)
  {
  }

  lemma {:induction false} SortSorts(fs: seq<Field>, rank: string -> int)
    ensures Ascending(SortFields(fs, rank), rank) && multiset(SortFields(fs, rank)) == multiset(fs)
  {
    if fs != [] {
      SortSorts(fs[1..], rank);
      InsertSorts(fs[0], SortFields(fs[1..], rank), rank);
      InsertKeeps(fs[0], SortFields(fs[1..], rank), rank);
      assert fs == [fs[0]] + fs[1..];
    }
  }

  lemma SameTail(a: seq<Field>, b: seq<Field>)
    requires a != [] && b != [] && a[0] == b[0] && multiset(a) == multiset(b)
    ensures multiset(a[1..]) == multiset(b[1..])
  {
    assert a == [a[0]] + a[1..] && b == [b[0]] + b[1..];
    assert multiset(a[1..]) == multiset(a) - multiset{a[0]};
    assert multiset(b[1..]) == multiset(b) - multiset{b[0]};
  }

  lemma {:induction false} SortedUnique(a: seq<Field>, b: seq<Field>, rank: string -> int)
    requires Ascending(a, rank) && Ascending(b, rank) && multiset(a) == multiset(b)
    requires forall f, g | f in a && g in a && rank(f.0) == rank(g.0) :: f == g
    ensures a == b
  {
    if a == [] {
      assert |multiset(b)| == 0;
    } else {
      assert a[0] in multiset(b) && b[0] in multiset(a);
      assert rank(a[0].0) == rank(b[0].0);
      SameTail(a, b);
      SortedUnique(a[1..], b[1..], rank);
    }
  }

  /** Writing an object's fields in another order changes nothing. */
  lemma FieldOrderIrrelevant(a: seq<Field>, b: seq<Field>, rank: string -> int)
    requires multiset(a) == multiset(b)
    requires forall f, g | f in a && g in a && rank(f.0) == rank(g.0) :: f == g
    ensures EncodeArg(Object(SortFields(a, rank))) == EncodeArg(Object(SortFields(b, rank)))
  {
    SortSorts(a, rank);
    SortSorts(b, rank);
    forall f | f in SortFields(a, rank)
      ensures f in a
    {
      assert f in multiset(SortFields(a, rank));
    }
    SortedUnique(SortFields(a, rank), SortFields(b, rank), rank);
  }
}
