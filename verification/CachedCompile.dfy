/** Cached compiles over results that callers may change: what a caller does to its result
    never reaches the cache, and what the cache does never reaches a caller's result. */
module CachedCompile {
  import opened Arith
  import opened Bytes
  import opened Cache

  // ----- what a result says -----

  datatype Meta = Meta(ref: string, pubkey: Option<string>, writable: bool, signer: bool)

  datatype ArgKind = Scalar | Dynamic

  datatype Slot = Slot(arg: nat, kind: ArgKind, offset: nat, length: nat)

  datatype Plan = Plan(metas: seq<Meta>, usesRawIndices: bool)

  datatype Layout = Layout(programLength: nat, byteLength: nat, slots: seq<Slot>)

  datatype Compiled = Compiled(bytecode: seq<seq<byte>>, warnings: seq<string>, plan: Option<Plan>, layout: Option<Layout>)

  // ----- the objects that say it -----

  /** A growable list. */
  class List<T> {
    var items: seq<T>

    constructor (items: seq<T>)
      ensures this.items == items
    {
      this.items := items;
    }
  }

  /** A flat object: fields holding strings, numbers and flags only. */
  class Cell<T> {
    var v: T

    constructor (v: T)
      ensures this.v == v
    {
      this.v := v;
    }
  }

  function Rows(arrays: seq<array<byte>>): (r: seq<seq<byte>>)
    reads arrays
    ensures |r| == |arrays| && forall i | 0 <= i < |r| :: r[i] == arrays[i][..]
  {
    seq(|arrays|, i requires 0 <= i < |arrays| reads arrays => arrays[i][..])
  }

  function Values<T>(cells: seq<Cell<T>>): (r: seq<T>)
    reads cells
    ensures |r| == |cells| && forall i | 0 <= i < |r| :: r[i] == cells[i].v
  {
    seq(|cells|, i requires 0 <= i < |cells| reads cells => cells[i].v)
  }

  method FreshArrays(rows: seq<seq<byte>>) returns (out: seq<array<byte>>)
    ensures Rows(out) == rows && forall a | a in out :: fresh(a)
  {
    out := [];
    for i := 0 to |rows|
      invariant |out| == i
      invariant forall j | 0 <= j < i :: fresh(out[j]) && out[j][..] == rows[j]
    {
      var row := rows[i];
      var a := new byte[|row|](j requires 0 <= j < |row| => row[j]);
      out := out + [a];
    }
  }

  method FreshCells<T>(values: seq<T>) returns (out: seq<Cell<T>>)
    ensures Values(out) == values && forall c | c in out :: fresh(c)
  {
    out := [];
    for i := 0 to |values|
      invariant |out| == i
      invariant forall j | 0 <= j < i :: fresh(out[j]) && out[j].v == values[j]
    {
      var c := new Cell(values[i]);
      out := out + [c];
    }
  }

  /** A list of byte buffers. */
  class Segments {
    var items: seq<array<byte>>
    ghost var Repr: set<object>

    ghost predicate Valid()
      reads this, Repr
    {
      this in Repr && forall a | a in items :: a in Repr
    }

    ghost function Now(): seq<seq<byte>>
      requires Valid()
      reads this, Repr
    {
      Rows(items)
    }

    constructor (rows: seq<seq<byte>>)
      ensures Valid() && fresh(Repr) && Now() == rows
    {
      items, Repr := [], {this};
      new;
      items := FreshArrays(rows);
      Repr := {this} + set a: object | a in items;
    }

    method Clone() returns (c: Segments)
      requires Valid()
      ensures c.Valid() && fresh(c.Repr) && c.Now() == Now()
    {
      c := new Segments(Rows(items));
    }
  }

  /** A list of flat objects. */
  class Cells<T> {
    var items: seq<Cell<T>>
    ghost var Repr: set<object>

    ghost predicate Valid()
      reads this, Repr
    {
      this in Repr && forall c | c in items :: c in Repr
    }

    ghost function Now(): seq<T>
      requires Valid()
      reads this, Repr
    {
      Values(items)
    }

    constructor (values: seq<T>)
      ensures Valid() && fresh(Repr) && Now() == values
    {
      items, Repr := [], {this};
      new;
      items := FreshCells(values);
      Repr := {this} + set c: object | c in items;
    }
  }

  class AccountPlan {
    var metas: Cells<Meta>
    var usesRawIndices: bool
    ghost var Repr: set<object>

    ghost predicate Valid()
      reads this, Repr
    {
      this in Repr && metas in Repr && metas.Repr <= Repr && this !in metas.Repr && metas.Valid()
    }

    ghost function Now(): Plan
      requires Valid()
      reads this, Repr
    {
      Plan(metas.Now(), usesRawIndices)
    }

    constructor (metas: Cells<Meta>, usesRawIndices: bool)
      requires metas.Valid()
      ensures Valid() && Repr == {this} + metas.Repr && Now() == Plan(metas.Now(), usesRawIndices)
    {
      this.metas, this.usesRawIndices := metas, usesRawIndices;
      Repr := {this} + metas.Repr;
    }

    method Clone() returns (c: AccountPlan)
      requires Valid()
      ensures c.Valid() && fresh(c.Repr) && c.Now() == Now()
    {
      var copy := new Cells(Values(metas.items));
      c := new AccountPlan(copy, usesRawIndices);
    }
  }

  class ArgsLayout {
    var programLength: nat
    var byteLength: nat
    var slots: Cells<Slot>
    ghost var Repr: set<object>

    ghost predicate Valid()
      reads this, Repr
    {
      this in Repr && slots in Repr && slots.Repr <= Repr && this !in slots.Repr && slots.Valid()
    }

    ghost function Now(): Layout
      requires Valid()
      reads this, Repr
    {
      Layout(programLength, byteLength, slots.Now())
    }

    constructor (programLength: nat, byteLength: nat, slots: Cells<Slot>)
      requires slots.Valid()
      ensures Valid() && Repr == {this} + slots.Repr && Now() == Layout(programLength, byteLength, slots.Now())
    {
      this.programLength, this.byteLength, this.slots := programLength, byteLength, slots;
      Repr := {this} + slots.Repr;
    }

    method Clone() returns (c: ArgsLayout)
      requires Valid()
      ensures c.Valid() && fresh(c.Repr) && c.Now() == Now()
    {
      var copy := new Cells(Values(slots.items));
      c := new ArgsLayout(programLength, byteLength, copy);
    }
  }

  class CompileResult {
    var bytecode: Segments
    var warnings: List<string>
    var accountPlan: AccountPlan?
    var argsLayout: ArgsLayout?
    ghost var Repr: set<object>

    ghost predicate Valid()
      reads this, Repr
    {
      && this in Repr && warnings in Repr
      && bytecode in Repr && bytecode.Repr <= Repr && bytecode.Valid()
      && (accountPlan != null ==> accountPlan in Repr && accountPlan.Repr <= Repr && accountPlan.Valid())
      && (argsLayout != null ==> argsLayout in Repr && argsLayout.Repr <= Repr && argsLayout.Valid())
    }

    /** What it says now. */
    ghost function Now(): Compiled
      requires Valid()
      reads this, Repr
    {
      Compiled(bytecode.Now(), warnings.items,
               if accountPlan == null then None else Some(accountPlan.Now()),
               if argsLayout == null then None else Some(argsLayout.Now()))
    }

    /** The parts become this result's own. */
    constructor (bytecode: Segments, warnings: List<string>)
      requires bytecode.Valid()
      ensures Valid() && Repr == {this, warnings} + bytecode.Repr && accountPlan == null && argsLayout == null
      ensures Now() == Compiled(bytecode.Now(), warnings.items, None, None)
    {
      this.bytecode, this.warnings, this.accountPlan, this.argsLayout := bytecode, warnings, null, null;
      Repr := {this, warnings} + bytecode.Repr;
    }

    method SetPlan(plan: AccountPlan)
      requires Valid() && plan.Valid() && this !in plan.Repr
      modifies this
      ensures Valid() && Repr == old(Repr) + plan.Repr && argsLayout == old(argsLayout)
      ensures Now() == old(Now()).(plan := Some(plan.Now()))
    {
      accountPlan := plan;
      Repr := Repr + plan.Repr;
    }

    method SetLayout(layout: ArgsLayout)
      requires Valid() && layout.Valid() && this !in layout.Repr
      modifies this
      ensures Valid() && Repr == old(Repr) + layout.Repr && Now() == old(Now()).(layout := Some(layout.Now()))
    {
      argsLayout := layout;
      Repr := Repr + layout.Repr;
    }

    /** A copy that says the same and shares nothing. */
    method Clone() returns (c: CompileResult)
      requires Valid()
      ensures c.Valid() && fresh(c.Repr) && c.Now() == old(Now())
    {
      c := CopyHead();
      CopyPlan(c);
      CopyLayout(c);
    }

    method CopyHead() returns (c: CompileResult)
      requires Valid()
      ensures Valid() && Now() == old(Now())
      ensures c.Valid() && fresh(c.Repr) && c.accountPlan == null && c.argsLayout == null
      ensures c.Now() == old(Now()).(plan := None, layout := None)
    {
      var rows := bytecode.Clone();
      var notes := new List(warnings.items);
      c := new CompileResult(rows, notes);
    }

    method CopyPlan(c: CompileResult)
      requires Valid() && c.Valid() && c.accountPlan == null && c !in Repr
      modifies c
      ensures Valid() && Now() == old(Now())
      ensures c.Valid() && fresh(c.Repr - old(c.Repr)) && c.argsLayout == old(c.argsLayout)
      ensures c.Now() == old(c.Now()).(plan := old(Now()).plan)
    {
      if accountPlan != null {
        var plan := accountPlan.Clone();
        c.SetPlan(plan);
      }
    }

    method CopyLayout(c: CompileResult)
      requires Valid() && c.Valid() && c.argsLayout == null && c !in Repr
      modifies c
      ensures c.Valid() && fresh(c.Repr - old(c.Repr))
      ensures c.Now() == old(c.Now()).(layout := old(Now()).layout)
    {
      if argsLayout != null {
        var layout := argsLayout.Clone();
        c.SetLayout(layout);
      }
    }
  }

  /** What a compile that succeeds hands out: objects of its own. */
  method Allocate(v: Compiled) returns (r: CompileResult)
    ensures r.Valid() && fresh(r.Repr) && r.Now() == v
  {
    r := AllocateHead(v);
    AddPlan(r, v.plan);
    AddLayout(r, v.layout);
  }

  method AllocateHead(v: Compiled) returns (r: CompileResult)
    ensures r.Valid() && fresh(r.Repr) && r.accountPlan == null && r.argsLayout == null
    ensures r.Now() == v.(plan := None, layout := None)
  {
    var rows := new Segments(v.bytecode);
    var notes := new List(v.warnings);
    r := new CompileResult(rows, notes);
  }

  method NewPlan(p: Plan) returns (plan: AccountPlan)
    ensures plan.Valid() && fresh(plan.Repr) && plan.Now() == p
  {
    var metas := new Cells(p.metas);
    plan := new AccountPlan(metas, p.usesRawIndices);
  }

  method NewLayout(l: Layout) returns (layout: ArgsLayout)
    ensures layout.Valid() && fresh(layout.Repr) && layout.Now() == l
  {
    var slots := new Cells(l.slots);
    layout := new ArgsLayout(l.programLength, l.byteLength, slots);
  }

  method AddPlan(r: CompileResult, p: Option<Plan>)
    requires r.Valid() && r.accountPlan == null
    modifies r
    ensures r.Valid() && fresh(r.Repr - old(r.Repr)) && r.argsLayout == old(r.argsLayout)
    ensures r.Now() == old(r.Now()).(plan := p)
  {
    if p.Some? {
      var plan := NewPlan(p.value);
      r.SetPlan(plan);
    }
  }

  method AddLayout(r: CompileResult, l: Option<Layout>)
    requires r.Valid() && r.argsLayout == null
    modifies r
    ensures r.Valid() && fresh(r.Repr - old(r.Repr))
    ensures r.Now() == old(r.Now()).(layout := l)
  {
    if l.Some? {
      var layout := NewLayout(l.value);
      r.SetLayout(layout);
    }
  }

  // ----- the cache over such objects -----

  /** Everything the entries consist of is the cache's own. */
  ghost predicate Keeps(s: Store<CompileResult>, owned: set<object>)
    reads owned
  {
    forall key | Value(s, key).Some? :: KeepsOne(Value(s, key).value, owned)
  }

  ghost predicate KeepsOne(r: CompileResult, owned: set<object>)
    reads owned
  {
    r in owned && r.Repr <= owned && r.Valid()
  }

  /** An entry says now what compiling any of its key's inputs gives. */
  ghost predicate Faithful(s: Store<CompileResult>, owned: set<object>, build: (string, Options) -> Option<Compiled>,
                           resolve: string -> string)
    requires Keeps(s, owned)
    reads owned
  {
    forall src, o :: Answers(s, owned, build, src, o, CompileCacheKey(src, o, resolve))
  }

  ghost predicate Answers(s: Store<CompileResult>, owned: set<object>, build: (string, Options) -> Option<Compiled>,
                          src: string, o: Options, key: string)
    requires Keeps(s, owned)
    reads owned
  {
    Value(s, key).Some? ==> build(src, o) == Some(Value(s, key).value.Now())
  }

  /** A cache in order: `owned` is out of every caller's reach. */
  ghost predicate Sound(cache: CompileCache<CompileResult>, owned: set<object>,
                        build: (string, Options) -> Option<Compiled>, resolve: string -> string)
    reads cache, owned
  {
    cache !in owned && Keeps(cache.store, owned) && Faithful(cache.store, owned, build, resolve)
  }

  /** One of the cache's own objects went in under the key. */
  ghost predicate Stored(t: Store<CompileResult>, s: Store<CompileResult>, key: string, max: nat, owned: set<object>) {
    exists c: CompileResult :: c in owned && t == Apply(s, Set(key, c), max)
  }

  /** A compile through the cache; one that throws is `null`, and leaves nothing behind. */
  method Compile(source: string, options: Options, cache: CompileCache<CompileResult>, ghost owned: set<object>,
                 build: (string, Options) -> Option<Compiled>, resolve: string -> string)
    returns (r: CompileResult?, ghost owned2: set<object>)
    requires KeyedOnly(build, resolve) && Sound(cache, owned, build, resolve)
    modifies cache
    ensures Sound(cache, owned2, build, resolve) && owned <= owned2 && fresh(owned2 - owned)
    ensures r == null <==> build(source, options) == None
    ensures r != null ==> r.Valid() && fresh(r.Repr) && r.Repr !! owned2 && build(source, options) == Some(r.Now())
    ensures var key, s := CompileCacheKey(source, options, resolve), old(cache.store);
            if Value(s, key).Some? then cache.store == Apply(s, Get(key), cache.maxEntries)
            else if r == null then cache.store == s
            else Stored(cache.store, s, key, cache.maxEntries, owned2)
  {
    var key := CompileCacheKey(source, options, resolve);
    owned2 := owned;
    ghost var before := cache.store;
    assert Answers(before, owned, build, source, options, key);
    var hit := cache.Lookup(key);
    GetKeeps(before, key, cache.maxEntries, owned, build, resolve);
    if hit.Some? {
      assert KeepsOne(hit.value, owned);
      r := hit.value.Clone();
      return;
    }
    var built := build(source, options);
    if built == None {
      return null, owned;
    }
    r := Allocate(built.value);
    owned2 := Remember(source, options, r, cache, owned, build, resolve);
  }

  /** Into the cache goes a copy. */
  method Remember(source: string, options: Options, r: CompileResult, cache: CompileCache<CompileResult>,
                  ghost owned: set<object>, build: (string, Options) -> Option<Compiled>, resolve: string -> string)
    returns (ghost owned2: set<object>)
    requires KeyedOnly(build, resolve) && Sound(cache, owned, build, resolve)
    requires r.Valid() && cache !in r.Repr && r.Repr !! owned && build(source, options) == Some(r.Now())
    modifies cache
    ensures Sound(cache, owned2, build, resolve) && owned <= owned2 && fresh(owned2 - owned) && r.Repr !! owned2
    ensures Stored(cache.store, old(cache.store), CompileCacheKey(source, options, resolve), cache.maxEntries, owned2)
  {
    var copy := r.Clone();
    ghost var before := cache.store;
    owned2 := owned + copy.Repr;
    cache.Put(CompileCacheKey(source, options, resolve), copy);
    PutKeeps(before, source, options, copy, cache.maxEntries, owned, build, resolve);
    assert copy in owned2;
  }

  lemma GetKeeps(s: Store<CompileResult>, key: string, max: nat, owned: set<object>,
                 build: (string, Options) -> Option<Compiled>, resolve: string -> string)
    requires Keeps(s, owned) && Faithful(s, owned, build, resolve)
    ensures var t := Apply(s, Get(key), max);
            Keeps(t, owned) && Faithful(t, owned, build, resolve)
  {
    var t := Apply(s, Get(key), max);
    forall k
      ensures Value(t, k) == Value(s, k)
    {
      if Value(s, key).Some? {
        WithoutValue(s, key, k);
        ValueAppend(Without(s, key), [(key, Value(s, key).value)], k);
      }
    }
    forall src, o
      ensures Answers(t, owned, build, src, o, CompileCacheKey(src, o, resolve))
    {
      assert Answers(s, owned, build, src, o, CompileCacheKey(src, o, resolve));
    }
  }

  lemma PutValue(s: Store<CompileResult>, key: string, v: CompileResult, max: nat, k: string)
    ensures var w := Value(Apply(s, Set(key, v), max), k);
            w.Some? ==> w == if k == key then Some(v) else Value(s, k)
  {
    var t := Without(s, key) + [(key, v)];
    WithoutValue(s, key, k);
    ValueAppend(Without(s, key), [(key, v)], k);
    if |t| > max {
      assert t == t[..1] + t[1..];
      ValueAppend(t[..1], t[1..], k);
    }
  }

  lemma PutKeeps(s: Store<CompileResult>, source: string, options: Options, v: CompileResult, max: nat, owned: set<object>,
                 build: (string, Options) -> Option<Compiled>, resolve: string -> string)
    requires KeyedOnly(build, resolve) && Keeps(s, owned) && Faithful(s, owned, build, resolve)
    requires v.Valid() && build(source, options) == Some(v.Now())
    ensures var t := Apply(s, Set(CompileCacheKey(source, options, resolve), v), max);
            Keeps(t, owned + v.Repr) && Faithful(t, owned + v.Repr, build, resolve)
  {
    var key := CompileCacheKey(source, options, resolve);
    var t := Apply(s, Set(key, v), max);
    forall k | Value(t, k).Some?
      ensures KeepsOne(Value(t, k).value, owned + v.Repr)
    {
      PutValue(s, key, v, max, k);
    }
    forall src, o
      ensures Answers(t, owned + v.Repr, build, src, o, CompileCacheKey(src, o, resolve))
    {
      var k := CompileCacheKey(src, o, resolve);
      PutValue(s, key, v, max, k);
      assert Answers(s, owned, build, src, o, k);
      KeyIffSameInputs(source, options, src, o, resolve);
    }
  }

  ghost predicate LeftAlone(r: CompileResult, theirs: set<object>, answer: Option<Compiled>)
    reads r, r.Repr
  {
    r.Valid() && r.Repr !! theirs && Some(r.Now()) == answer
  }

  /** One compile, and then the caller does whatever it likes to what is `theirs`, the new
      result too if it means to touch it. */
  method Turn(source: string, options: Options, touches: bool, cache: CompileCache<CompileResult>,
              ghost owned: set<object>, ghost theirs: set<object>,
              build: (string, Options) -> Option<Compiled>, resolve: string -> string)
    returns (r: CompileResult?, ghost answer: Option<Compiled>, ghost owned2: set<object>, ghost theirs2: set<object>)
    requires KeyedOnly(build, resolve) && Sound(cache, owned, build, resolve)
    requires theirs !! owned && cache !in theirs
    modifies cache, theirs
    ensures Sound(cache, owned2, build, resolve) && owned <= owned2 && fresh(owned2 - owned)
    ensures theirs2 !! owned2 && cache !in theirs2 && theirs <= theirs2 && fresh(theirs2 - theirs)
    ensures answer == build(source, options)
    ensures !touches && r != null ==> LeftAlone(r, theirs2, answer) && fresh(r.Repr)
  {
    r, owned2 := Compile(source, options, cache, owned, build, resolve);
    answer := if r == null then None else Some(r.Now());
    theirs2 := theirs + if touches && r != null then r.Repr else {};
    assert theirs2 !! owned2 && cache !in theirs2;
    modify theirs2;
  }

  /** A whole session: between any two calls the caller changes the results it has `touched`
      at will, and still every call answers what compiling gives, and every result it left
      alone still says so at the end. */
  method Session(requests: seq<(string, Options)>, touched: set<nat>, cache: CompileCache<CompileResult>,
                 ghost owned: set<object>, build: (string, Options) -> Option<Compiled>, resolve: string -> string)
    returns (results: seq<CompileResult?>, ghost answers: seq<Option<Compiled>>)
    requires KeyedOnly(build, resolve) && Sound(cache, owned, build, resolve)
    modifies cache
    ensures |results| == |answers| == |requests|
    ensures forall i | 0 <= i < |requests| :: answers[i] == build(requests[i].0, requests[i].1)
    ensures forall i | 0 <= i < |requests| && i !in touched && results[i] != null ::
              results[i].Valid() && Some(results[i].Now()) == answers[i]
  {
    results, answers := [], [];
    ghost var own, theirs := owned, {};
    for i := 0 to |requests|
      invariant |results| == |answers| == i
      invariant Sound(cache, own, build, resolve) && fresh(own - owned)
      invariant fresh(theirs) && theirs !! own
      invariant forall j | 0 <= j < i :: answers[j] == build(requests[j].0, requests[j].1)
      invariant forall j | 0 <= j < i && j !in touched && results[j] != null ::
                  LeftAlone(results[j], theirs, answers[j]) && fresh(results[j].Repr)
    {
      var r;
      ghost var answer;
      r, answer, own, theirs := Turn(requests[i].0, requests[i].1, i in touched, cache, own, theirs, build, resolve);
      results, answers := results + [r], answers + [answer];
    }
  }
}
