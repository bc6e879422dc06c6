/** Key order: an object is what its keys hold, and its fields are sorted before they are
    serialized, so two values share a serialization exactly when they hold the same. */
module CacheKeyOrder {
  import opened CacheKey

  type Fields = seq<(string, Json)>

  // ----- what a value holds -----

  datatype Meaning = Leaf(v: Json) | List(items: seq<Meaning>) | Record(fields: map<string, Meaning>)

  function MeaningOf(v: Json): Meaning
    decreases v, 1
  {
    match v
    case Arr(items) => List(MeaningsOf(items))
    case Obj(fields) => Record(RecordOf(fields))
    case _ => Leaf(v)
  }

  function MeaningsOf(items: seq<Json>): seq<Meaning>
    decreases items, 0
  {
    if items == [] then [] else [MeaningOf(items[0])] + MeaningsOf(items[1..])
  }

  function RecordOf(fields: Fields): map<string, Meaning>
    decreases fields, 0
  {
    if fields == [] then map[]
    else
      assert fields decreases to fields[0];
      assert fields[0] decreases to fields[0].1;
      RecordOf(fields[1..])[fields[0].0 := MeaningOf(fields[0].1)]
  }

  function KeysOf(fields: Fields): set<string> {
    if fields == [] then {} else {fields[0].0} + KeysOf(fields[1..])
  }

  lemma {:induction false} RecordKeys(fields: Fields)
    ensures RecordOf(fields).Keys == KeysOf(fields)
  {
    if fields != [] {
      RecordKeys(fields[1..]);
    }
  }

  /** No object has a key twice. */
  predicate WellFormed(v: Json)
    decreases v, 1
  {
    match v
    case Arr(items) => AllWellFormed(items)
    case Obj(fields) => FieldsWellFormed(fields)
    case _ => true
  }

  predicate AllWellFormed(items: seq<Json>)
    decreases items, 0
  {
    items == [] || (WellFormed(items[0]) && AllWellFormed(items[1..]))
  }

  predicate FieldsWellFormed(fields: Fields)
    decreases fields, 0
  {
    fields == [] ||
    (assert fields decreases to fields[0];
     assert fields[0] decreases to fields[0].1;
     fields[0].0 !in KeysOf(fields[1..]) && WellFormed(fields[0].1) && FieldsWellFormed(fields[1..]))
  }

  /** A value as JavaScript has it. */
  type Plain = v: Json | WellFormed(v) witness Null

  // ----- sorting -----

  /** The order of JavaScript strings: by their code units. */
  predicate Before(a: string, b: string) {
    b != [] && (a == [] || a[0] < b[0] || (a[0] == b[0] && Before(a[1..], b[1..])))
  }

  lemma {:induction false} BeforeTotal(a: string, b: string)
    ensures a == b || Before(a, b) || Before(b, a)
    ensures !(Before(a, b) && Before(b, a)) && (Before(a, b) ==> a != b)
  {
    if a != [] && b != [] {
      BeforeTotal(a[1..], b[1..]);
      assert a == [a[0]] + a[1..] && b == [b[0]] + b[1..];
    }
  }

  lemma {:induction false} BeforeChains(a: string, b: string, c: string)
    requires Before(a, b) && Before(b, c)
    ensures Before(a, c)
  {
    if a != [] {
      if a[0] == b[0] && b[0] == c[0] {
        BeforeChains(a[1..], b[1..], c[1..]);
      }
    }
  }

  function Insert(f: (string, Json), fields: Fields): Fields {
    if fields == [] || Before(f.0, fields[0].0) then [f] + fields else [fields[0]] + Insert(f, fields[1..])
  }

  function InOrder(v: Json): Json
    decreases v, 1
  {
    match v
    case Arr(items) => Arr(AllInOrder(items))
    case Obj(fields) => Obj(Sorted(fields))
    case _ => v
  }

  function AllInOrder(items: seq<Json>): seq<Json>
    decreases items, 0
  {
    if items == [] then [] else [InOrder(items[0])] + AllInOrder(items[1..])
  }

  function Sorted(fields: Fields): Fields
    decreases fields, 0
  {
    if fields == [] then []
    else
      assert fields decreases to fields[0];
      assert fields[0] decreases to fields[0].1;
      Insert((fields[0].0, InOrder(fields[0].1)), Sorted(fields[1..]))
  }

  /** The key of a value: its fields sorted, then serialized. */
  function StableStringify(v: Json): string {
    Stringify(InOrder(v))
  }

  // ----- sorting changes no meaning -----

  lemma {:induction false} InsertMeans(f: (string, Json), fields: Fields)
    requires f.0 !in KeysOf(fields)
    ensures RecordOf(Insert(f, fields)) == RecordOf(fields)[f.0 := MeaningOf(f.1)]
    ensures KeysOf(Insert(f, fields)) == KeysOf(fields) + {f.0}
  {
    if fields == [] || Before(f.0, fields[0].0) {
      assert ([f] + fields)[1..] == fields;
    } else {
      var rest := Insert(f, fields[1..]);
      InsertMeans(f, fields[1..]);
      assert ([fields[0]] + rest)[1..] == rest;
    }
  }

  lemma {:induction false} InOrderMeans(v: Json)
    requires WellFormed(v)
    ensures MeaningOf(InOrder(v)) == MeaningOf(v)
    decreases v, 1
  {
    match v
    case Arr(items) => AllInOrderMeans(items);
    case Obj(fields) => SortedMeans(fields);
    case _ =>
  }

  lemma {:induction false} AllInOrderMeans(items: seq<Json>)
    requires AllWellFormed(items)
    ensures MeaningsOf(AllInOrder(items)) == MeaningsOf(items)
    decreases items, 0
  {
    if items != [] {
      InOrderMeans(items[0]);
      AllInOrderMeans(items[1..]);
      assert AllInOrder(items)[1..] == AllInOrder(items[1..]);
    }
  }

  lemma {:induction false} SortedMeans(fields: Fields)
    requires FieldsWellFormed(fields)
    ensures RecordOf(Sorted(fields)) == RecordOf(fields) && KeysOf(Sorted(fields)) == KeysOf(fields)
    decreases fields, 0
  {
    if fields != [] {
      assert fields decreases to fields[0];
      assert fields[0] decreases to fields[0].1;
      InOrderMeans(fields[0].1);
      SortedMeans(fields[1..]);
      InsertMeans((fields[0].0, InOrder(fields[0].1)), Sorted(fields[1..]));
    }
  }

  // ----- and leaves one spelling for each meaning -----

  predicate Below(key: string, fields: Fields) {
    forall k | k in KeysOf(fields) :: Before(key, k)
  }

  /** Sorted at every depth. */
  predicate Canonical(v: Json)
    decreases v, 1
  {
    match v
    case Arr(items) => AllCanonical(items)
    case Obj(fields) => FieldsCanonical(fields)
    case _ => true
  }

  predicate AllCanonical(items: seq<Json>)
    decreases items, 0
  {
    items == [] || (Canonical(items[0]) && AllCanonical(items[1..]))
  }

  predicate FieldsCanonical(fields: Fields)
    decreases fields, 0
  {
    fields == [] ||
    (assert fields decreases to fields[0];
     assert fields[0] decreases to fields[0].1;
     Below(fields[0].0, fields[1..]) && Canonical(fields[0].1) && FieldsCanonical(fields[1..]))
  }

  lemma {:induction false} InsertCanonical(f: (string, Json), fields: Fields)
    requires FieldsCanonical(fields) && Canonical(f.1) && f.0 !in KeysOf(fields)
    ensures FieldsCanonical(Insert(f, fields)) && KeysOf(Insert(f, fields)) == KeysOf(fields) + {f.0}
  {
    if fields == [] {
      assert [f] + fields == [f] && [f][1..] == [];
    } else {
      BeforeTotal(f.0, fields[0].0);
      if Before(f.0, fields[0].0) {
        assert ([f] + fields)[1..] == fields;
        forall k | k in KeysOf(fields)
          ensures Before(f.0, k)
        {
          if k != fields[0].0 {
            BeforeChains(f.0, fields[0].0, k);
          }
        }
      } else {
        var rest := Insert(f, fields[1..]);
        InsertCanonical(f, fields[1..]);
        assert ([fields[0]] + rest)[1..] == rest;
      }
    }
  }

  lemma {:induction false} InOrderCanonical(v: Json)
    requires WellFormed(v)
    ensures Canonical(InOrder(v))
    decreases v, 1
  {
    match v
    case Arr(items) => AllInOrderCanonical(items);
    case Obj(fields) => SortedCanonical(fields);
    case _ =>
  }

  lemma {:induction false} AllInOrderCanonical(items: seq<Json>)
    requires AllWellFormed(items)
    ensures AllCanonical(AllInOrder(items))
    decreases items, 0
  {
    if items != [] {
      InOrderCanonical(items[0]);
      AllInOrderCanonical(items[1..]);
      assert AllInOrder(items)[1..] == AllInOrder(items[1..]);
    }
  }

  lemma {:induction false} SortedCanonical(fields: Fields)
    requires FieldsWellFormed(fields)
    ensures FieldsCanonical(Sorted(fields)) && KeysOf(Sorted(fields)) == KeysOf(fields)
    decreases fields, 0
  {
    if fields != [] {
      assert fields decreases to fields[0];
      assert fields[0] decreases to fields[0].1;
      InOrderCanonical(fields[0].1);
      SortedCanonical(fields[1..]);
      InsertCanonical((fields[0].0, InOrder(fields[0].1)), Sorted(fields[1..]));
    }
  }

  lemma {:induction false} OneSpelling(a: Json, b: Json)
    requires Canonical(a) && Canonical(b) && MeaningOf(a) == MeaningOf(b)
    ensures a == b
    decreases a, 1
  {
    match a
    case Arr(items) => ItemsOneSpelling(items, b.items);
    case Obj(fields) => FieldsOneSpelling(fields, b.fields);
    case _ =>
  }

  lemma {:induction false} ItemsOneSpelling(a: seq<Json>, b: seq<Json>)
    requires AllCanonical(a) && AllCanonical(b) && MeaningsOf(a) == MeaningsOf(b)
    ensures a == b
    decreases a, 0
  {
    if a != [] && b != [] {
      assert MeaningsOf(a)[0] == MeaningsOf(b)[0] && MeaningsOf(a)[1..] == MeaningsOf(b)[1..];
      OneSpelling(a[0], b[0]);
      ItemsOneSpelling(a[1..], b[1..]);
      assert a == [a[0]] + a[1..] && b == [b[0]] + b[1..];
    }
  }

  lemma {:induction false} FieldsOneSpelling(a: Fields, b: Fields)
    requires FieldsCanonical(a) && FieldsCanonical(b) && RecordOf(a) == RecordOf(b)
    ensures a == b
    decreases a, 0
  {
    RecordKeys(a);
    RecordKeys(b);
    if a != [] && b != [] {
      assert a decreases to a[0];
      assert a[0] decreases to a[0].1;
      LeastKeySame(a, b);
      OneSpelling(a[0].1, b[0].1);
      RestSame(a, b);
      FieldsOneSpelling(a[1..], b[1..]);
      assert a == [a[0]] + a[1..] && b == [b[0]] + b[1..];
    }
  }

  lemma LeastKeySame(a: Fields, b: Fields)
    requires FieldsCanonical(a) && FieldsCanonical(b) && a != [] && b != [] && KeysOf(a) == KeysOf(b)
    ensures a[0].0 == b[0].0
  {
    BeforeTotal(a[0].0, b[0].0);
    assert a[0].0 in KeysOf(b) && b[0].0 in KeysOf(a);
  }

  /** With the least field gone from both, the rest still agree. */
  lemma RestSame(a: Fields, b: Fields)
    requires FieldsCanonical(a) && FieldsCanonical(b) && a != [] && b != []
    requires a[0].0 == b[0].0 && RecordOf(a) == RecordOf(b)
    ensures RecordOf(a[1..]) == RecordOf(b[1..])
  {
    RecordKeys(a[1..]);
    RecordKeys(b[1..]);
    LeastGone(a);
    LeastGone(b);
  }

  lemma LeastGone(a: Fields)
    requires FieldsCanonical(a) && a != []
    ensures RecordOf(a[1..]) == RecordOf(a) - {a[0].0}
  {
    RecordKeys(a[1..]);
    BeforeTotal(a[0].0, a[0].0);
    assert a[0].0 !in KeysOf(a[1..]);
  }

  /** Values share a serialization exactly when they hold the same, in whatever order their
      fields were given. */
  lemma StableIffSameMeaning(a: Plain, b: Plain)
    ensures StableStringify(a) == StableStringify(b) <==> MeaningOf(a) == MeaningOf(b)
  {
    InOrderMeans(a);
    InOrderMeans(b);
    InOrderCanonical(a);
    InOrderCanonical(b);
    if StableStringify(a) == StableStringify(b) {
      StringifyInjective(InOrder(a), InOrder(b));
    }
    if MeaningOf(a) == MeaningOf(b) {
      OneSpelling(InOrder(a), InOrder(b));
    }
  }

  // ----- records with given keys -----

  /** The object with these keys and values. */
  function Zip(keys: seq<string>, values: seq<Json>): Fields
    requires |keys| == |values|
  {
    if keys == [] then [] else [(keys[0], values[0])] + Zip(keys[1..], values[1..])
  }

  predicate NoKeyTwice(keys: seq<string>) {
    keys == [] || (keys[0] !in keys[1..] && NoKeyTwice(keys[1..]))
  }

  lemma {:induction false} ZipKeys(keys: seq<string>, values: seq<Json>)
    requires |keys| == |values|
    ensures KeysOf(Zip(keys, values)) == set k | k in keys
  {
    if keys != [] {
      ZipKeys(keys[1..], values[1..]);
      assert Zip(keys, values)[1..] == Zip(keys[1..], values[1..]);
      assert keys == [keys[0]] + keys[1..];
    }
  }

  lemma {:induction false} ZipWellFormed(keys: seq<string>, values: seq<Json>)
    requires |keys| == |values| && NoKeyTwice(keys) && AllWellFormed(values)
    ensures FieldsWellFormed(Zip(keys, values))
  {
    if keys != [] {
      ZipKeys(keys[1..], values[1..]);
      ZipWellFormed(keys[1..], values[1..]);
      assert Zip(keys, values)[1..] == Zip(keys[1..], values[1..]);
    }
  }

  /** Records over the same keys are the same exactly when their values are, one by one. */
  lemma {:induction false} ZipSame(keys: seq<string>, a: seq<Json>, b: seq<Json>)
    requires |keys| == |a| == |b| && NoKeyTwice(keys)
    ensures RecordOf(Zip(keys, a)) == RecordOf(Zip(keys, b)) <==> MeaningsOf(a) == MeaningsOf(b)
  {
    if keys != [] {
      ZipSame(keys[1..], a[1..], b[1..]);
      ZipStep(keys, a);
      ZipStep(keys, b);
      var ra, rb := RecordOf(Zip(keys[1..], a[1..])), RecordOf(Zip(keys[1..], b[1..]));
      RecordKeys(Zip(keys[1..], a[1..]));
      RecordKeys(Zip(keys[1..], b[1..]));
      ZipKeys(keys[1..], a[1..]);
      ZipKeys(keys[1..], b[1..]);
      PutSame(ra, rb, keys[0], MeaningOf(a[0]), MeaningOf(b[0]));
      assert MeaningsOf(a) == [MeaningOf(a[0])] + MeaningsOf(a[1..]);
      assert MeaningsOf(b) == [MeaningOf(b[0])] + MeaningsOf(b[1..]);
      ConsSame(MeaningOf(a[0]), MeaningsOf(a[1..]), MeaningOf(b[0]), MeaningsOf(b[1..]));
    }
  }

  lemma ZipStep(keys: seq<string>, a: seq<Json>)
    requires |keys| == |a| && keys != []
    ensures RecordOf(Zip(keys, a)) == RecordOf(Zip(keys[1..], a[1..]))[keys[0] := MeaningOf(a[0])]
  {
    assert Zip(keys, a)[1..] == Zip(keys[1..], a[1..]);
  }

  lemma PutSame(ra: map<string, Meaning>, rb: map<string, Meaning>, key: string, x: Meaning, y: Meaning)
    requires key !in ra && key !in rb
    ensures ra[key := x] == rb[key := y] <==> ra == rb && x == y
  {
    if ra[key := x] == rb[key := y] {
      assert ra == ra[key := x] - {key} && rb == rb[key := y] - {key};
      assert ra[key := x][key] == x && rb[key := y][key] == y;
    }
  }

  lemma ConsSame(x: Meaning, xs: seq<Meaning>, y: Meaning, ys: seq<Meaning>)
    ensures [x] + xs == [y] + ys <==> x == y && xs == ys
  {
    if [x] + xs == [y] + ys {
      assert ([x] + xs)[1..] == xs && ([y] + ys)[1..] == ys;
    }
  }
}
