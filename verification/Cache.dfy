/** The compile cache: which compiles share an entry, what a bounded store holds after any
    history, and what its keys leave out. */
module Cache {
  import opened Arith
  import opened CacheKey
  import opened CacheKeyOrder

  // ----- keys -----

  datatype Options = Options(
    target: Option<string>, staged: Option<bool>, tsSource: Option<bool>, treeshake: Option<bool>, fold: Option<bool>,
    defines: Option<Plain>, args: Option<Plain>, contracts: Option<Plain>, baseDirs: Option<seq<string>>,
    hasTransform: bool, extra: Option<Plain>, fileLabel: Option<string>)

  function Or<T>(o: Option<T>, default: T): T {
    match o case Some(v) => v case None => default
  }

  function Texts(ss: seq<string>): seq<Json> {
    if ss == [] then [] else [Str(ss[0])] + Texts(ss[1..])
  }

  function Resolved(dirs: seq<string>, resolve: string -> string): seq<string> {
    if dirs == [] then [] else [resolve(dirs[0])] + Resolved(dirs[1..], resolve)
  }

  function Dirs(o: Options, resolve: string -> string): Json {
    match o.baseDirs case Some(dirs) => Arr(Texts(Resolved(dirs, resolve))) case None => Null
  }

  const KEYS: seq<string> :=
    ["source", "target", "staged", "tsSource", "treeshake", "fold", "defines", "args", "contracts", "baseDirs",
     "hasTransform", "extra"]

  /** The inputs with defaults applied. */
  function Inputs(source: string, o: Options, resolve: string -> string): seq<Json> {
    [Str(source), Str(Or(o.target, "v1")), Bool(Or(o.staged, false)), Bool(Or(o.tsSource, false)),
     Bool(Or(o.treeshake, true)), Bool(Or(o.fold, true)), Or(o.defines, Null), Or(o.args, Null), Or(o.contracts, Null),
     Dirs(o, resolve), Bool(o.hasTransform), Or(o.extra, Null)]
  }

  function Keyed(source: string, o: Options, resolve: string -> string): Json {
    Obj(Zip(KEYS, Inputs(source, o, resolve)))
  }

  function CompileCacheKey(source: string, o: Options, resolve: string -> string): string {
    StableStringify(Keyed(source, o, resolve))
  }

  /** The same to whoever reads it by key: field order aside, and missing taken as null. */
  predicate SameValue(a: Option<Plain>, b: Option<Plain>) {
    MeaningOf(Or(a, Null)) == MeaningOf(Or(b, Null))
  }

  /** Equal in everything but the label, up to defaults, field order, missing against null, and
      how a base directory is spelled. */
  predicate SameInputs(s1: string, o1: Options, s2: string, o2: Options, resolve: string -> string) {
    && s1 == s2 && o1.hasTransform == o2.hasTransform
    && Or(o1.target, "v1") == Or(o2.target, "v1") && Or(o1.staged, false) == Or(o2.staged, false)
    && Or(o1.tsSource, false) == Or(o2.tsSource, false)
    && Or(o1.treeshake, true) == Or(o2.treeshake, true) && Or(o1.fold, true) == Or(o2.fold, true)
    && SameValue(o1.defines, o2.defines) && SameValue(o1.args, o2.args)
    && SameValue(o1.contracts, o2.contracts) && SameValue(o1.extra, o2.extra)
    && (match (o1.baseDirs, o2.baseDirs)
        case (Some(d1), Some(d2)) => Resolved(d1, resolve) == Resolved(d2, resolve)
        case (None, None) => true
        case _ => false)
  }

  lemma KeysOnce()
    ensures NoKeyTwice(KEYS)
  {
    forall i, j | 0 <= i < j < |KEYS|
      ensures KEYS[i] != KEYS[j]
    {
      KeysDiffer(KEYS[i], KEYS[j], i, j);
    }
    OnceIfDifferent(KEYS);
  }

  lemma KeysDiffer(a: string, b: string, i: nat, j: nat)
    requires i < j < 12 && a == KEYS[i] && b == KEYS[j]
    ensures a != b
  {
    assert |a| != |b| || a[0] != b[0] || a[1] != b[1];
  }

  lemma {:induction false} OnceIfDifferent(keys: seq<string>)
    requires forall i, j | 0 <= i < j < |keys| :: keys[i] != keys[j]
    ensures NoKeyTwice(keys)
  {
    if keys != [] {
      var rest := keys[1..];
      assert forall i | 0 <= i < |rest| :: rest[i] == keys[i + 1];
      OnceIfDifferent(rest);
    }
  }

  lemma {:induction false} TextsWellFormed(ss: seq<string>)
    ensures AllWellFormed(Texts(ss))
    ensures forall i | 0 <= i < |Texts(ss)| :: Texts(ss)[i].Str?
  {
    if ss != [] {
      TextsWellFormed(ss[1..]);
      assert Texts(ss)[1..] == Texts(ss[1..]);
    }
  }

  lemma {:induction false} TextsMean(a: seq<string>, b: seq<string>)
    ensures MeaningsOf(Texts(a)) == MeaningsOf(Texts(b)) <==> a == b
  {
    if a != [] && b != [] {
      TextsMean(a[1..], b[1..]);
      assert Texts(a)[1..] == Texts(a[1..]) && Texts(b)[1..] == Texts(b[1..]);
      ConsSame(MeaningOf(Str(a[0])), MeaningsOf(Texts(a[1..])), MeaningOf(Str(b[0])), MeaningsOf(Texts(b[1..])));
      assert a == [a[0]] + a[1..] && b == [b[0]] + b[1..];
    }
  }

  lemma DirsMean(o1: Options, o2: Options, resolve: string -> string)
    ensures MeaningOf(Dirs(o1, resolve)) == MeaningOf(Dirs(o2, resolve)) <==>
            match (o1.baseDirs, o2.baseDirs)
            case (Some(d1), Some(d2)) => Resolved(d1, resolve) == Resolved(d2, resolve)
            case (None, None) => true
            case _ => false
  {
    if o1.baseDirs.Some? && o2.baseDirs.Some? {
      TextsMean(Resolved(o1.baseDirs.value, resolve), Resolved(o2.baseDirs.value, resolve));
    }
  }

  lemma DirsWellFormed(o: Options, resolve: string -> string)
    ensures WellFormed(Dirs(o, resolve))
  {
    if o.baseDirs.Some? {
      TextsWellFormed(Resolved(o.baseDirs.value, resolve));
    }
  }

  lemma EachInputWellFormed(source: string, o: Options, resolve: string -> string)
    ensures forall i | 0 <= i < 12 :: WellFormed(Inputs(source, o, resolve)[i])
  {
    DirsWellFormed(o, resolve);
  }

  lemma InputsWellFormed(source: string, o: Options, resolve: string -> string)
    ensures WellFormed(Keyed(source, o, resolve))
  {
    KeysOnce();
    EachInputWellFormed(source, o, resolve);
    RecordWellFormed(KEYS, Inputs(source, o, resolve));
  }

  lemma RecordWellFormed(keys: seq<string>, values: seq<Json>)
    requires |keys| == |values| && NoKeyTwice(keys) && forall i | 0 <= i < |values| :: WellFormed(values[i])
    ensures WellFormed(Obj(Zip(keys, values)))
  {
    EachWellFormed(values);
    ZipWellFormed(keys, values);
  }

  lemma {:induction false} EachWellFormed(vs: seq<Json>)
    requires forall i | 0 <= i < |vs| :: WellFormed(vs[i])
    ensures AllWellFormed(vs)
  {
    if vs != [] {
      EachWellFormed(vs[1..]);
    }
  }

  lemma {:induction false} EachMeans(a: seq<Json>, b: seq<Json>)
    requires |a| == |b|
    ensures MeaningsOf(a) == MeaningsOf(b) <==> forall i | 0 <= i < |a| :: MeaningOf(a[i]) == MeaningOf(b[i])
  {
    if a != [] {
      EachMeans(a[1..], b[1..]);
      ConsSame(MeaningOf(a[0]), MeaningsOf(a[1..]), MeaningOf(b[0]), MeaningsOf(b[1..]));
    }
  }

  /** Two compiles share a key exactly when their inputs are the same. */
  lemma KeyIffSameInputs(s1: string, o1: Options, s2: string, o2: Options, resolve: string -> string)
    ensures CompileCacheKey(s1, o1, resolve) == CompileCacheKey(s2, o2, resolve) <==> SameInputs(s1, o1, s2, o2, resolve)
  {
    var a, b := Inputs(s1, o1, resolve), Inputs(s2, o2, resolve);
    InputsWellFormed(s1, o1, resolve);
    InputsWellFormed(s2, o2, resolve);
    StableIffSameMeaning(Keyed(s1, o1, resolve), Keyed(s2, o2, resolve));
    KeysOnce();
    ZipSame(KEYS, a, b);
    EachMeans(a, b);
    InputsMean(s1, o1, s2, o2, resolve, a, b);
  }

  lemma InputsMean(s1: string, o1: Options, s2: string, o2: Options, resolve: string -> string, a: seq<Json>, b: seq<Json>)
    requires a == Inputs(s1, o1, resolve) && b == Inputs(s2, o2, resolve)
    ensures (forall i | 0 <= i < |a| :: MeaningOf(a[i]) == MeaningOf(b[i])) <==> SameInputs(s1, o1, s2, o2, resolve)
  {
    if forall i | 0 <= i < |a| :: MeaningOf(a[i]) == MeaningOf(b[i]) {
      AlikeInputs(s1, o1, s2, o2, resolve, a, b);
    }
    if SameInputs(s1, o1, s2, o2, resolve) {
      DirsMean(o1, o2, resolve);
    }
  }

  lemma AlikeInputs(s1: string, o1: Options, s2: string, o2: Options, resolve: string -> string, a: seq<Json>, b: seq<Json>)
    requires a == Inputs(s1, o1, resolve) && b == Inputs(s2, o2, resolve)
    requires forall i | 0 <= i < |a| :: MeaningOf(a[i]) == MeaningOf(b[i])
    ensures SameInputs(s1, o1, s2, o2, resolve)
  {
    DirsMean(o1, o2, resolve);
    assert MeaningOf(a[0]) == MeaningOf(b[0]) && MeaningOf(a[1]) == MeaningOf(b[1]) && MeaningOf(a[2]) == MeaningOf(b[2]);
    assert MeaningOf(a[3]) == MeaningOf(b[3]) && MeaningOf(a[4]) == MeaningOf(b[4]) && MeaningOf(a[5]) == MeaningOf(b[5]);
    assert MeaningOf(a[6]) == MeaningOf(b[6]) && MeaningOf(a[7]) == MeaningOf(b[7]) && MeaningOf(a[8]) == MeaningOf(b[8]);
    assert MeaningOf(a[9]) == MeaningOf(b[9]) && MeaningOf(a[10]) == MeaningOf(b[10]);
    assert MeaningOf(a[11]) == MeaningOf(b[11]);
  }

  // ----- the bounded store -----

  /** Oldest first, as a JavaScript Map keeps its keys. */
  type Store<R> = seq<(string, R)>

  function Without<R>(s: Store<R>, key: string): Store<R> {
    if s == [] then []
    else
      var n := |s| - 1;
      if s[n].0 == key then Without(s[..n], key) else Without(s[..n], key) + [s[n]]
  }

  function Value<R>(s: Store<R>, key: string): Option<R> {
    if s == [] then None
    else if s[|s| - 1].0 == key then Some(s[|s| - 1].1)
    else Value(s[..|s| - 1], key)
  }

  datatype Op<R> = Get(key: string) | Set(key: string, v: R) | Clear

  /** A hit moves its key to the newest place; a store over its cap drops the oldest. */
  function Apply<R>(s: Store<R>, op: Op<R>, max: nat): Store<R> {
    match op
    case Get(key) => (match Value(s, key) case Some(v) => Without(s, key) + [(key, v)] case None => s)
    case Set(key, v) => (var t := Without(s, key) + [(key, v)]; if |t| > max then t[1..] else t)
    case Clear => []
  }

  class CompileCache<R(==)> {
    const maxEntries: nat
    var store: Store<R>
    var hits: nat
    var misses: nat

    constructor (maxEntries: nat)
      requires maxEntries >= 1
      ensures this.maxEntries == maxEntries && store == [] && hits == 0 && misses == 0
    {
      this.maxEntries := maxEntries;
      store, hits, misses := [], 0, 0;
    }

    method Lookup(key: string) returns (r: Option<R>)
      modifies this
      ensures r == Value(old(store), key) && store == Apply(old(store), Get(key), maxEntries)
      ensures if r.Some? then hits == old(hits) + 1 && misses == old(misses)
              else hits == old(hits) && misses == old(misses) + 1
    {
      r := Value(store, key);
      if r == None {
        misses := misses + 1;
      } else {
        hits := hits + 1;
        store := Without(store, key) + [(key, r.value)];
      }
    }

    method Put(key: string, v: R)
      modifies this
      ensures store == Apply(old(store), Set(key, v), maxEntries) && hits == old(hits) && misses == old(misses)
    {
      store := Without(store, key) + [(key, v)];
      if |store| > maxEntries {
        store := store[1..];
      }
    }

    method ClearAll()
      modifies this
      ensures store == [] && hits == 0 && misses == 0
    {
      store, hits, misses := [], 0, 0;
    }
  }

  function After<R>(h: seq<Op<R>>, max: nat): Store<R> {
    if h == [] then [] else Apply(After(h[..|h| - 1], max), h[|h| - 1], max)
  }

  // ----- recency, without a cap -----

  /** Whether the last operation of a history used a key: wrote it, or read it while it was kept. */
  predicate Used<R>(h: seq<Op<R>>, max: nat, key: string)
    requires h != []
  {
    match h[|h| - 1]
    case Get(k) => k == key && Value(After(h[..|h| - 1], max), key).Some?
    case Set(k, _) => k == key
    case Clear => false
  }

  /** When a key was last used, or -1 if not since the last clear. */
  function LastUse<R>(h: seq<Op<R>>, max: nat, key: string): int {
    if h == [] || h[|h| - 1].Clear? then -1
    else if Used(h, max, key) then |h| - 1
    else LastUse(h[..|h| - 1], max, key)
  }

  function LastValue<R>(h: seq<Op<R>>, key: string): Option<R> {
    if h == [] then None
    else
      match h[|h| - 1]
      case Clear => None
      case Set(k, v) => if k == key then Some(v) else LastValue(h[..|h| - 1], key)
      case Get(_) => LastValue(h[..|h| - 1], key)
  }

  /** Everything used since the last clear, least recent first. */
  function Recent<R>(h: seq<Op<R>>, max: nat): Store<R> {
    if h == [] then []
    else
      var u := Recent(h[..|h| - 1], max);
      match h[|h| - 1]
      case Clear => []
      case Set(k, v) => Without(u, k) + [(k, v)]
      case Get(k) =>
        match Value(After(h[..|h| - 1], max), k)
        case Some(v) => Without(u, k) + [(k, v)]
        case None => u
  }

  function Newest<R>(s: Store<R>, n: nat): Store<R> {
    if |s| <= n then s else s[|s| - n..]
  }

  /** No key twice. */
  predicate Distinct<R>(s: Store<R>) {
    s == [] || (Value(s[..|s| - 1], s[|s| - 1].0) == None && Distinct(s[..|s| - 1]))
  }

  lemma {:induction false} ValueAppend<R>(a: Store<R>, b: Store<R>, key: string)
    ensures Value(a + b, key) == if Value(b, key).Some? then Value(b, key) else Value(a, key)
  {
    if b == [] {
      assert a + b == a;
    } else {
      var n := |b| - 1;
      assert (a + b)[..|a| + n] == a + b[..n];
      ValueAppend(a, b[..n], key);
    }
  }

  lemma {:induction false} WithoutAppend<R>(a: Store<R>, b: Store<R>, key: string)
    ensures Without(a + b, key) == Without(a, key) + Without(b, key)
  {
    if b == [] {
      assert a + b == a;
    } else {
      var n := |b| - 1;
      assert (a + b)[..|a| + n] == a + b[..n];
      WithoutAppend(a, b[..n], key);
    }
  }

  lemma {:induction false} WithoutValue<R>(s: Store<R>, key: string, k: string)
    ensures Value(Without(s, key), k) == if k == key then None else Value(s, k)
  {
    if s != [] {
      var n := |s| - 1;
      WithoutValue(s[..n], key, k);
      ValueAppend(Without(s[..n], key), [s[n]], k);
    }
  }

  lemma {:induction false} WithoutAbsent<R>(s: Store<R>, key: string)
    requires Value(s, key) == None
    ensures Without(s, key) == s
  {
    if s != [] {
      WithoutAbsent(s[..|s| - 1], key);
    }
  }

  /** One entry at most carries a key. */
  lemma {:induction false} WithoutSize<R>(s: Store<R>, key: string)
    requires Distinct(s)
    ensures |Without(s, key)| == |s| - if Value(s, key).Some? then 1 else 0
  {
    if s != [] {
      var n := |s| - 1;
      if s[n].0 == key {
        WithoutAbsent(s[..n], key);
      } else {
        WithoutSize(s[..n], key);
      }
    }
  }

  lemma DistinctAdd<R>(s: Store<R>, key: string, v: R)
    requires Distinct(s) && Value(s, key) == None
    ensures Distinct(s + [(key, v)])
  {
    assert (s + [(key, v)])[..|s|] == s;
  }

  lemma {:induction false} WithoutDistinct<R>(s: Store<R>, key: string)
    requires Distinct(s)
    ensures Distinct(Without(s, key))
  {
    if s != [] {
      var n := |s| - 1;
      WithoutDistinct(s[..n], key);
      if s[n].0 != key {
        WithoutValue(s[..n], key, s[n].0);
        DistinctAdd(Without(s[..n], key), s[n].0, s[n].1);
        assert Without(s, key) == Without(s[..n], key) + [(s[n].0, s[n].1)];
      }
    }
  }

  lemma {:induction false} DistinctSplit<R>(a: Store<R>, b: Store<R>, key: string)
    requires Distinct(a + b)
    ensures Distinct(b)
    ensures Value(b, key).Some? ==> Value(a, key) == None
  {
    if b != [] {
      var n := |b| - 1;
      assert (a + b)[..|a| + n] == a + b[..n];
      DistinctSplit(a, b[..n], key);
      ValueAppend(a, b[..n], b[n].0);
    }
  }

  /** Moving a key to the end and keeping the newest `max` commute. */
  lemma MoveToEnd<R>(u: Store<R>, key: string, v: R, max: nat)
    requires Distinct(u) && max >= 1
    ensures var t := Without(Newest(u, max), key) + [(key, v)];
            Newest(Without(u, key) + [(key, v)], max) == if |t| > max then t[1..] else t
    ensures Distinct(Without(u, key) + [(key, v)])
  {
    WithoutSize(u, key);
    WithoutDistinct(u, key);
    WithoutValue(u, key, key);
    DistinctAdd(Without(u, key), key, v);
    if |u| > max {
      assert u == u[..|u| - max] + u[|u| - max..];
      MoveAmongKept(u[..|u| - max], u[|u| - max..], key, v);
    }
  }

  lemma MoveAmongKept<R>(gone: Store<R>, kept: Store<R>, key: string, v: R)
    requires Distinct(gone + kept) && kept != []
    ensures var t := Without(kept, key) + [(key, v)];
            Newest(Without(gone + kept, key) + [(key, v)], |kept|) == if |t| > |kept| then t[1..] else t
  {
    var t := Without(kept, key) + [(key, v)];
    WithoutAppend(gone, kept, key);
    DistinctSplit(gone, kept, key);
    WithoutSize(kept, key);
    assert Without(gone + kept, key) + [(key, v)] == Without(gone, key) + t;
    if Value(kept, key).Some? {
      assert |t| == |kept|;
    } else {
      assert |t| == |kept| + 1;
    }
  }

  lemma {:induction false} NewestPart<R>(u: Store<R>, max: nat, key: string)
    requires Distinct(u)
    ensures Distinct(Newest(u, max))
    ensures Value(Newest(u, max), key).Some? ==> Value(Newest(u, max), key) == Value(u, key)
  {
    if |u| > max {
      assert u == u[..|u| - max] + u[|u| - max..];
      DistinctSplit(u[..|u| - max], u[|u| - max..], key);
      ValueAppend(u[..|u| - max], u[|u| - max..], key);
    }
  }

  /** After any history the store is the newest `max` of everything in use. */
  lemma {:induction false} StoreIsNewest<R>(h: seq<Op<R>>, max: nat)
    requires max >= 1
    ensures Distinct(Recent(h, max)) && After(h, max) == Newest(Recent(h, max), max)
  {
    if h != [] {
      var n := |h| - 1;
      var u := Recent(h[..n], max);
      StoreIsNewest(h[..n], max);
      match h[n]
      case Clear =>
      case Set(k, v) => MoveToEnd(u, k, v, max);
      case Get(k) =>
        var kept := After(h[..n], max);
        var v := Value(kept, k);
        if v.Some? {
          MoveToEnd(u, k, v.value, max);
          NewestPart(u, max, k);
          WithoutSize(kept, k);
        }
    }
  }

  /** Uses get later along a store, all before `end`. */
  predicate Rising<R>(u: Store<R>, h: seq<Op<R>>, max: nat, end: int) {
    u == [] || (var last := LastUse(h, max, u[|u| - 1].0); last < end && Rising(u[..|u| - 1], h, max, last))
  }

  /** Recency means what it says: keys stand in the order of their last use, and a key is
      there exactly when it was used since the last clear, with the value last given to it. */
  ghost predicate ByLastUse<R(!new)>(u: Store<R>, h: seq<Op<R>>, max: nat) {
    && Rising(u, h, max, |h|)
    && (forall key :: Value(u, key).Some? <==> LastUse(h, max, key) >= 0)
    && (forall key :: Value(u, key).Some? ==> Value(u, key) == LastValue(h, key))
  }

  lemma {:induction false} WithoutRising<R>(u: Store<R>, key: string, h: seq<Op<R>>, max: nat, end: int)
    requires Rising(u, h, max, end)
    ensures Rising(Without(u, key), h, max, end)
  {
    if u != [] {
      var n := |u| - 1;
      WithoutRising(u[..n], key, h, max, LastUse(h, max, u[n].0));
      assert (Without(u[..n], key) + [u[n]])[..|Without(u[..n], key)|] == Without(u[..n], key);
    }
  }

  lemma {:induction false} StillRising<R>(u: Store<R>, h: seq<Op<R>>, g: seq<Op<R>>, max: nat, end: int)
    requires Rising(u, h, max, end)
    requires forall k | Value(u, k).Some? :: LastUse(g, max, k) == LastUse(h, max, k)
    ensures Rising(u, g, max, end)
  {
    if u != [] {
      var n := |u| - 1;
      assert Value(u, u[n].0).Some?;
      StillRising(u[..n], h, g, max, LastUse(h, max, u[n].0));
    }
  }

  lemma {:induction false} RecentByLastUse<R(!new)>(h: seq<Op<R>>, max: nat)
    requires max >= 1
    ensures ByLastUse(Recent(h, max), h, max)
  {
    if h != [] {
      var n := |h| - 1;
      var u := Recent(h[..n], max);
      RecentByLastUse(h[..n], max);
      match h[n]
      case Clear =>
      case Set(k, v) => MovedByLastUse(h, max, u, k, v);
      case Get(k) =>
        var v := Value(After(h[..n], max), k);
        if v.Some? {
          StoreIsNewest(h[..n], max);
          NewestPart(u, max, k);
          MovedByLastUse(h, max, u, k, v.value);
        } else {
          forall key
            ensures LastUse(h, max, key) == LastUse(h[..n], max, key)
          {
            assert !Used(h, max, key);
          }
          StillRising(u, h[..n], h, max, n);
        }
    }
  }

  lemma MovedByLastUse<R(!new)>(h: seq<Op<R>>, max: nat, u: Store<R>, key: string, v: R)
    requires h != [] && !h[|h| - 1].Clear? && ByLastUse(u, h[..|h| - 1], max)
    requires Used(h, max, key) && LastValue(h, key) == Some(v)
    requires forall k | k != key :: !Used(h, max, k) && LastValue(h, k) == LastValue(h[..|h| - 1], k)
    ensures ByLastUse(Without(u, key) + [(key, v)], h, max)
  {
    var n := |h| - 1;
    var w := Without(u, key);
    var t := w + [(key, v)];
    forall k
      ensures Value(w, k) == if k == key then None else Value(u, k)
      ensures Value(t, k) == if k == key then Some(v) else Value(u, k)
      ensures k != key ==> LastUse(h, max, k) == LastUse(h[..n], max, k)
    {
      WithoutValue(u, key, k);
      ValueAppend(w, [(key, v)], k);
      assert k != key ==> !Used(h, max, k);
    }
    WithoutRising(u, key, h[..n], max, n);
    StillRising(w, h[..n], h, max, n);
    assert t[..|w|] == w;
  }

  /** The store over every history: the most recently used keys, at most `max` of them, in
      order of last use, each with the last value it was given. */
  lemma StoreHoldsMostRecent<R(!new)>(h: seq<Op<R>>, max: nat)
    requires max >= 1
    ensures var s := After(h, max);
            && |s| <= max && Distinct(s)
            && s == Newest(Recent(h, max), max) && ByLastUse(Recent(h, max), h, max)
  {
    StoreIsNewest(h, max);
    RecentByLastUse(h, max);
    NewestPart(Recent(h, max), max, "");
  }

  // ----- inputs the key cannot see -----

  /** Compiling depends on nothing the key leaves out. */
  ghost predicate KeyedOnly<R(!new)>(build: (string, Options) -> Option<R>, resolve: string -> string) {
    forall s1, o1, s2, o2 | SameInputs(s1, o1, s2, o2, resolve) :: build(s1, o1) == build(s2, o2)
  }

  /** What a compile reads besides its keyed inputs: the modules it imports, from the source
      and the directories, and the transform applied to their text. */
  datatype Surroundings = Surroundings(modules: (string, Json) -> string, transform: string -> string)

  function ModuleText(source: string, o: Options, resolve: string -> string, w: Surroundings): string {
    var text := w.modules(source, Dirs(o, resolve));
    if o.hasTransform then w.transform(text) else text
  }

  /** A compile from scratch: `back` is everything after the inputs have been gathered. */
  function CompileFresh<R>(source: string, o: Options, resolve: string -> string, w: Surroundings,
                           back: (Meaning, string) -> Option<R>): Option<R> {
    back(MeaningOf(Keyed(source, o, resolve)), ModuleText(source, o, resolve, w))
  }

  /** While files and transform stay as they are, compiling depends on the key alone, and so
      every cached compile is a fresh one. */
  lemma SteadySurroundingsAreKeyed<R(!new)>(resolve: string -> string, w: Surroundings, back: (Meaning, string) -> Option<R>)
    ensures KeyedOnly((source, o) => CompileFresh(source, o, resolve, w, back), resolve)
  {
    forall s1, o1, s2, o2 | SameInputs(s1, o1, s2, o2, resolve)
      ensures CompileFresh(s1, o1, resolve, w, back) == CompileFresh(s2, o2, resolve, w, back)
    {
      KeyIffSameInputs(s1, o1, s2, o2, resolve);
      InputsWellFormed(s1, o1, resolve);
      InputsWellFormed(s2, o2, resolve);
      StableIffSameMeaning(Keyed(s1, o1, resolve), Keyed(s2, o2, resolve));
      SameDirs(s1, o1, s2, o2, resolve);
    }
  }

  lemma SameDirs(s1: string, o1: Options, s2: string, o2: Options, resolve: string -> string)
    requires SameInputs(s1, o1, s2, o2, resolve)
    ensures Dirs(o1, resolve) == Dirs(o2, resolve)
  {
  }

  /** When they change in between, the second of two compiles of the same thing is answered
      right exactly when the imported text came out the same, whether a file was edited or the
      transform swapped. Here `back` tells any two texts apart. */
  lemma StaleUnlessTextSame<R>(source: string, o: Options, resolve: string -> string, before: Surroundings,
                               now: Surroundings, back: (Meaning, string) -> Option<R>, max: nat)
    requires max >= 1 && CompileFresh(source, o, resolve, before, back).Some?
    requires forall k, t1, t2 :: back(k, t1) == back(k, t2) ==> t1 == t2
    ensures var key := CompileCacheKey(source, o, resolve);
            var kept := After([Set(key, CompileFresh(source, o, resolve, before, back).value)], max);
            Value(kept, key) == CompileFresh(source, o, resolve, now, back) <==>
            ModuleText(source, o, resolve, before) == ModuleText(source, o, resolve, now)
  {
    var key := CompileCacheKey(source, o, resolve);
    var v := CompileFresh(source, o, resolve, before, back).value;
    var h := [Set(key, v)];
    assert h[..0] == [] && After(h, max) == [(key, v)];
  }

  /** The remedy: compiles that name their surroundings in `cacheKeyExtra` never share an entry
      when these differ. */
  lemma ExtraKeepsApart(s1: string, o1: Options, s2: string, o2: Options, resolve: string -> string)
    requires !SameValue(o1.extra, o2.extra)
    ensures CompileCacheKey(s1, o1, resolve) != CompileCacheKey(s2, o2, resolve)
  {
    KeyIffSameInputs(s1, o1, s2, o2, resolve);
  }

  /** The label, which a compile reads, is one input the key leaves out. */
  lemma LabelNotKeyed(source: string, o: Options, other: Option<string>, resolve: string -> string)
    ensures CompileCacheKey(source, o, resolve) == CompileCacheKey(source, o.(fileLabel := other), resolve)
  {
    KeyIffSameInputs(source, o, source, o.(fileLabel := other), resolve);
  }
}
