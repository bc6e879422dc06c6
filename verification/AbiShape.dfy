/** What is emitted for a literal, as a tree: nothing static is left nested, and the leaves are
    the fields in declaration order. */
module AbiShape {
  import opened Arith
  import opened AbiEncoding
  import opened AbiFlatten

  // ----- nothing static is nested -----

  /** No tuple has a tuple directly in it that could have been spliced, at any depth. */
  predicate Flat(tree: Tree)
    decreases tree, 1
  {
    match tree
    case At(_, _) => true
    case Tup(items) => AllFlat(items) && NoneSpliceable(items)
    case Vec(items) => AllFlat(items)
  }

  predicate AllFlat(items: seq<Tree>)
    decreases items, 0
  {
    items == [] || (Flat(items[0]) && AllFlat(items[1..]))
  }

  predicate NoneSpliceable(items: seq<Tree>) {
    forall i | 0 <= i < |items| :: items[i].Tup? ==> IsDynamic(items[i])
  }

  lemma {:induction false} FlatConcat(a: seq<Tree>, b: seq<Tree>)
    requires AllFlat(a) && AllFlat(b)
    ensures AllFlat(a + b)
  {
    if a == [] {
      assert a + b == b;
    } else {
      assert (a + b)[0] == a[0] && (a + b)[1..] == a[1..] + b;
      FlatConcat(a[1..], b);
    }
  }

  lemma FlatOne(tree: Tree)
    requires Flat(tree)
    ensures AllFlat([tree])
  {
    assert [tree][1..] == [];
  }

  /** Every static struct given as a literal inside another is spliced into it. */
  lemma {:induction false} EmittedFlat(arg: Arg, t: Type, lt: Order)
    requires ProcessAbiArg(arg, t, lt).Ok?
    ensures Flat(ProcessAbiArg(arg, t, lt).value)
    decreases t, 2
  {
    if arg.Obj? && t.Tuple? {
      FieldsFlat(arg.props, t.components, lt);
    } else if arg.Arr? && t.Array? && t.elem.Tuple? {
      ElementsFlat(arg.elements, t.elem, lt);
    }
  }

  lemma {:induction false} ElementsFlat(elements: seq<Element>, t: Type, lt: Order)
    requires ProcessElements(elements, t, lt).Ok?
    ensures AllFlat(ProcessElements(elements, t, lt).value)
    decreases t, 3, elements
  {
    if elements != [] {
      EmittedFlat(elements[0].a, t, lt);
      ElementsFlat(elements[1..], t, lt);
      FlatOne(ProcessAbiArg(elements[0].a, t, lt).value);
      FlatConcat([ProcessAbiArg(elements[0].a, t, lt).value], ProcessElements(elements[1..], t, lt).value);
    }
  }

  lemma {:induction false} FieldsFlat(props: seq<Prop>, cs: seq<Component>, lt: Order)
    requires FlattenFields(props, cs, lt).Ok?
    ensures AllFlat(FlattenFields(props, cs, lt).value) && NoneSpliceable(FlattenFields(props, cs, lt).value)
    decreases cs, 0
  {
    if cs != [] {
      assert cs decreases to cs[0];
      var a := FieldOf(props, cs[0]).value;
      FieldFlat(a, cs[0].t, lt);
      FieldsFlat(props, cs[1..], lt);
      FlatConcat(FlattenField(a, cs[0].t, lt).value, FlattenFields(props, cs[1..], lt).value);
    }
  }

  lemma {:induction false} FieldFlat(a: Arg, t: Type, lt: Order)
    requires FlattenField(a, t, lt).Ok?
    ensures AllFlat(FlattenField(a, t, lt).value) && NoneSpliceable(FlattenField(a, t, lt).value)
    decreases t, 3
  {
    if t.Tuple? && a.Obj? && IsStatic(t) {
      FieldsFlat(a.props, t.components, lt);
    } else {
      EmittedFlat(a, t, lt);
      ArgEncoded(a, t, lt);
      FlatOne(ProcessAbiArg(a, t, lt).value);
    }
  }

  // ----- the leaves -----

  datatype Leaf = Leaf(t: Type, v: Value)

  /** What the tree holds, left to right. */
  function Leaves(tree: Tree): seq<Leaf>
    decreases tree, 1
  {
    match tree
    case At(t, v) => [Leaf.Leaf(t, v)]
    case Tup(items) => AllLeaves(items)
    case Vec(items) => AllLeaves(items)
  }

  function AllLeaves(items: seq<Tree>): seq<Leaf>
    decreases items, 0
  {
    if items == [] then [] else Leaves(items[0]) + AllLeaves(items[1..])
  }

  /** What a literal holds: component by component as declared, element by element. */
  function Held(arg: Arg, t: Type, lt: Order): seq<Leaf>
    decreases t, 2
  {
    if arg.Obj? && t.Tuple? then HeldIn(arg.props, t.components, lt)
    else if arg.Arr? && t.Array? && t.elem.Tuple? then HeldBy(arg.elements, t.elem, lt)
    else
      match PlainValue(arg, lt) case Ok(v) => [Leaf.Leaf(t, v)] case Err(_) => []
  }

  function HeldIn(props: seq<Prop>, cs: seq<Component>, lt: Order): seq<Leaf>
    decreases cs, 0
  {
    if cs == [] then []
    else
      assert cs decreases to cs[0];
      (match FieldOf(props, cs[0]) case Ok(a) => Held(a, cs[0].t, lt) case Err(_) => []) + HeldIn(props, cs[1..], lt)
  }

  function HeldBy(elements: seq<Element>, t: Type, lt: Order): seq<Leaf>
    decreases t, 3, elements
  {
    if elements == [] then []
    else (if elements[0].Elem? then Held(elements[0].a, t, lt) else []) + HeldBy(elements[1..], t, lt)
  }

  lemma {:induction false} LeavesConcat(a: seq<Tree>, b: seq<Tree>)
    ensures AllLeaves(a + b) == AllLeaves(a) + AllLeaves(b)
  {
    if a == [] {
      assert a + b == b;
    } else {
      assert (a + b)[0] == a[0] && (a + b)[1..] == a[1..] + b;
      LeavesConcat(a[1..], b);
    }
  }

  lemma LeavesOne(tree: Tree)
    ensures AllLeaves([tree]) == Leaves(tree)
  {
    assert [tree][1..] == [];
  }

  /** Spliced or nested, the leaves are the literal's, in the order the components are declared. */
  lemma {:induction false} EmittedLeaves(arg: Arg, t: Type, lt: Order)
    requires ProcessAbiArg(arg, t, lt).Ok?
    ensures Leaves(ProcessAbiArg(arg, t, lt).value) == Held(arg, t, lt)
    decreases t, 2
  {
    if arg.Obj? && t.Tuple? {
      FieldsLeaves(arg.props, t.components, lt);
    } else if arg.Arr? && t.Array? && t.elem.Tuple? {
      ElementsLeaves(arg.elements, t.elem, lt);
    }
  }

  lemma {:induction false} ElementsLeaves(elements: seq<Element>, t: Type, lt: Order)
    requires ProcessElements(elements, t, lt).Ok?
    ensures AllLeaves(ProcessElements(elements, t, lt).value) == HeldBy(elements, t, lt)
    decreases t, 3, elements
  {
    if elements != [] {
      var item := ProcessAbiArg(elements[0].a, t, lt).value;
      EmittedLeaves(elements[0].a, t, lt);
      ElementsLeaves(elements[1..], t, lt);
      LeavesOne(item);
      LeavesConcat([item], ProcessElements(elements[1..], t, lt).value);
    }
  }

  lemma {:induction false} FieldsLeaves(props: seq<Prop>, cs: seq<Component>, lt: Order)
    requires FlattenFields(props, cs, lt).Ok?
    ensures AllLeaves(FlattenFields(props, cs, lt).value) == HeldIn(props, cs, lt)
    decreases cs, 0
  {
    if cs != [] {
      assert cs decreases to cs[0];
      var a := FieldOf(props, cs[0]).value;
      FieldLeaves(a, cs[0].t, lt);
      FieldsLeaves(props, cs[1..], lt);
      LeavesConcat(FlattenField(a, cs[0].t, lt).value, FlattenFields(props, cs[1..], lt).value);
    }
  }

  lemma {:induction false} FieldLeaves(a: Arg, t: Type, lt: Order)
    requires FlattenField(a, t, lt).Ok?
    ensures AllLeaves(FlattenField(a, t, lt).value) == Held(a, t, lt)
    decreases t, 3
  {
    if t.Tuple? && a.Obj? && IsStatic(t) {
      FieldsLeaves(a.props, t.components, lt);
    } else {
      EmittedLeaves(a, t, lt);
      LeavesOne(ProcessAbiArg(a, t, lt).value);
    }
  }

  // ----- which property a name finds -----

  /** The last property of that name, and none exactly when there is none. */
  lemma {:induction false} LookupIsLast(props: seq<Prop>, x: Ident) returns (i: int)
    ensures -1 <= i < |props| && forall j | i < j < |props| :: !IsField(props[j], x)
    ensures if i < 0 then Lookup(props, x) == None else IsField(props[i], x) && Lookup(props, x) == Some(props[i].value)
  {
    i := -1;
    if props != [] {
      var n := |props| - 1;
      if IsField(props[n], x) {
        i := n;
      } else {
        i := LookupIsLast(props[..n], x);
      }
    }
  }

  predicate IsField(p: Prop, x: Ident) {
    p.Field? && p.key == x
  }

  // ----- the order of a literal away from a struct parameter -----

  ghost predicate TotalOrder(lt: Order) {
    && (forall x :: !lt(x, x))
    && (forall x, y, z :: lt(x, y) && lt(y, z) ==> lt(x, z))
    && (forall x, y :: x == y || lt(x, y) || lt(y, x))
  }

  predicate Sorted(fields: seq<(Ident, Value)>, lt: Order) {
    forall i, j | 0 <= i < j < |fields| :: !lt(fields[j].0, fields[i].0)
  }

  function Pairs(props: seq<Prop>, lt: Order): seq<(Ident, Value)> {
    if props == [] then []
    else
      (match props[0]
       case Field(key, value) => (match PlainValue(value, lt) case Ok(v) => [(key, v)] case Err(_) => [])
       case SpreadProp => []) + Pairs(props[1..], lt)
  }

  lemma {:induction false} InsertKeeps(key: Ident, v: Value, fields: seq<(Ident, Value)>, lt: Order)
    ensures multiset(Insert(key, v, fields, lt)) == multiset(fields) + multiset{(key, v)}
  {
    if fields != [] && !lt(key, fields[0].0) {
      InsertKeeps(key, v, fields[1..], lt);
      assert fields == [fields[0]] + fields[1..];
    }
  }

  lemma {:induction false} InsertSorts(key: Ident, v: Value, fields: seq<(Ident, Value)>, lt: Order)
    requires TotalOrder(lt) && Sorted(fields, lt)
    ensures Sorted(Insert(key, v, fields, lt), lt)
  {
    if fields != [] && !lt(key, fields[0].0) {
      var rest := Insert(key, v, fields[1..], lt);
      InsertSorts(key, v, fields[1..], lt);
      InsertKeeps(key, v, fields[1..], lt);
      forall j | 0 <= j < |rest|
        ensures !lt(rest[j].0, fields[0].0)
      {
        assert rest[j] in multiset(rest);
        assert rest[j] == (key, v) || rest[j] in fields[1..];
      }
    }
  }

  lemma {:induction false} FieldsSort(props: seq<Prop>, sorted: seq<(Ident, Value)>, lt: Order)
    requires TotalOrder(lt) && Sorted(sorted, lt) && PlainFields(props, sorted, lt).Ok?
    ensures var out := PlainFields(props, sorted, lt).value;
            Sorted(out, lt) && multiset(out) == multiset(sorted) + multiset(Pairs(props, lt))
  {
    if props != [] {
      var v := PlainValue(props[0].value, lt).value;
      InsertSorts(props[0].key, v, sorted, lt);
      InsertKeeps(props[0].key, v, sorted, lt);
      FieldsSort(props[1..], Insert(props[0].key, v, sorted, lt), lt);
    }
  }

  /** A struct literal elsewhere is laid out by name: its fields, sorted. */
  lemma PlainIsSorted(props: seq<Prop>, lt: Order) returns (fields: seq<(Ident, Value)>)
    requires TotalOrder(lt) && PlainValue(Obj(props), lt).Ok?
    ensures Sorted(fields, lt) && multiset(fields) == multiset(Pairs(props, lt))
    ensures PlainValue(Obj(props), lt).value == VList(seq(|fields|, i requires 0 <= i < |fields| => fields[i].1))
  {
    fields := PlainFields(props, [], lt).value;
    FieldsSort(props, [], lt);
    SecondsAre(fields);
  }

  lemma {:induction false} SecondsAre(fields: seq<(Ident, Value)>)
    ensures Seconds(fields) == seq(|fields|, i requires 0 <= i < |fields| => fields[i].1)
  {
    if fields != [] {
      SecondsAre(fields[1..]);
    }
  }

  // ----- what can be emitted -----

  /** No spread and no hole anywhere in it. */
  ghost predicate Whole(arg: Arg)
    decreases arg
  {
    match arg
    case Leaf(_) => true
    case Obj(props) =>
      forall i | 0 <= i < |props| :: props[i].Field? && (assert props decreases to props[i]; Whole(props[i].value))
    case Arr(elements) =>
      forall i | 0 <= i < |elements| :: elements[i].Elem? && (assert elements decreases to elements[i]; Whole(elements[i].a))
  }

  /** A struct parameter wants a field for each named component, the last of that name counting;
      anything else has only to be whole. */
  ghost predicate Complete(arg: Arg, t: Type)
    decreases t, 1
  {
    if arg.Obj? && t.Tuple? then NoSpread(arg.props) && AllGiven(arg.props, t.components)
    else if arg.Arr? && t.Array? && t.elem.Tuple? then
      forall i | 0 <= i < |arg.elements| :: arg.elements[i].Elem? && Complete(arg.elements[i].a, t.elem)
    else Whole(arg)
  }

  ghost predicate AllGiven(props: seq<Prop>, cs: seq<Component>)
    decreases cs, 0
  {
    cs == [] || (assert cs decreases to cs[0]; Given(props, cs[0].name, cs[0].t) && AllGiven(props, cs[1..]))
  }

  ghost predicate Given(props: seq<Prop>, name: Option<Ident>, t: Type)
    decreases t, 2
  {
    && name.Some? && name.value != ""
    && exists k | 0 <= k < |props| :: IsLast(props, k, name.value) && Complete(props[k].value, t)
  }

  ghost predicate IsLast(props: seq<Prop>, k: nat, x: Ident)
    requires k < |props|
  {
    IsField(props[k], x) && forall j | k < j < |props| :: !IsField(props[j], x)
  }

  lemma {:induction false} PlainExactly(arg: Arg, lt: Order)
    ensures PlainValue(arg, lt).Ok? <==> Whole(arg)
    decreases arg, 1
  {
    match arg
    case Leaf(_) =>
    case Obj(props) => PlainFieldsExactly(props, [], lt);
    case Arr(elements) => PlainElementsExactly(elements, lt);
  }

  ghost predicate WholeField(p: Prop) {
    p.Field? && Whole(p.value)
  }

  ghost predicate WholeElement(e: Element) {
    e.Elem? && Whole(e.a)
  }

  lemma {:induction false} PlainFieldsExactly(props: seq<Prop>, sorted: seq<(Ident, Value)>, lt: Order)
    ensures PlainFields(props, sorted, lt).Ok? <==> forall i | 0 <= i < |props| :: WholeField(props[i])
    decreases props, 0
  {
    if props != [] {
      assert forall i | 0 < i < |props| :: props[i] == props[1..][i - 1];
      if props[0].Field? {
        assert props decreases to props[0];
        PlainExactly(props[0].value, lt);
        if Whole(props[0].value) {
          PlainFieldsExactly(props[1..], Insert(props[0].key, PlainValue(props[0].value, lt).value, sorted, lt), lt);
        }
      }
    }
  }

  lemma {:induction false} PlainElementsExactly(elements: seq<Element>, lt: Order)
    ensures PlainElements(elements, lt).Ok? <==> forall i | 0 <= i < |elements| :: WholeElement(elements[i])
    decreases elements, 0
  {
    if elements != [] {
      assert forall i | 0 < i < |elements| :: elements[i] == elements[1..][i - 1];
      if elements[0].Elem? {
        assert elements decreases to elements[0];
        PlainExactly(elements[0].a, lt);
        PlainElementsExactly(elements[1..], lt);
      }
    }
  }

  /** A literal is emitted exactly when it is complete for its type. */
  lemma {:induction false} EmittedExactly(arg: Arg, t: Type, lt: Order)
    ensures ProcessAbiArg(arg, t, lt).Ok? <==> Complete(arg, t)
    decreases t, 3
  {
    if arg.Obj? && t.Tuple? {
      FieldsExactly(arg.props, t.components, lt);
    } else if arg.Arr? && t.Array? && t.elem.Tuple? {
      ElementsExactly(arg.elements, t.elem, lt);
    } else {
      PlainExactly(arg, lt);
    }
  }

  lemma {:induction false} ElementsExactly(elements: seq<Element>, t: Type, lt: Order)
    ensures ProcessElements(elements, t, lt).Ok? <==>
            forall i | 0 <= i < |elements| :: elements[i].Elem? && Complete(elements[i].a, t)
    decreases t, 4, elements
  {
    if elements != [] {
      assert forall i | 0 < i < |elements| :: elements[i] == elements[1..][i - 1];
      if elements[0].Elem? {
        EmittedExactly(elements[0].a, t, lt);
        ElementsExactly(elements[1..], t, lt);
      }
    }
  }

  lemma {:induction false} FieldsExactly(props: seq<Prop>, cs: seq<Component>, lt: Order)
    ensures FlattenFields(props, cs, lt).Ok? <==> AllGiven(props, cs)
    decreases cs, 2
  {
    if cs != [] {
      assert cs decreases to cs[0];
      FieldExactly(props, cs[0], lt);
      FieldsExactly(props, cs[1..], lt);
    }
  }

  lemma {:induction false} FieldExactly(props: seq<Prop>, c: Component, lt: Order)
    ensures Given(props, c.name, c.t) <==> FieldOf(props, c).Ok? && FlattenField(FieldOf(props, c).value, c.t, lt).Ok?
    decreases c.t, 5
  {
    if c.name.Some? && c.name.value != "" {
      var k := LookupIsLast(props, c.name.value);
      if k >= 0 {
        assert IsLast(props, k, c.name.value);
        SpliceExactly(props[k].value, c.t, lt);
      }
    }
  }

  lemma {:induction false} SpliceExactly(a: Arg, t: Type, lt: Order)
    ensures FlattenField(a, t, lt).Ok? <==> Complete(a, t)
    decreases t, 4
  {
    EmittedExactly(a, t, lt);
  }

  /** Otherwise a struct is refused for a spread, or else for the first component that has no
      name, has no field, or has one that is itself refused. */
  lemma {:induction false} RefusedAt(props: seq<Prop>, cs: seq<Component>, lt: Order) returns (i: nat)
    requires FlattenFields(props, cs, lt).Err?
    ensures i < |cs| && (forall j | 0 <= j < i :: FieldOf(props, cs[j]).Ok? && FlattenField(FieldOf(props, cs[j]).value, cs[j].t, lt).Ok?)
    ensures var c, e := cs[i], FlattenFields(props, cs, lt).error;
            if c.name == None || c.name.value == "" then e == UnnamedComponent
            else if forall k | 0 <= k < |props| :: !IsField(props[k], c.name.value) then e == MissingField(c.name.value)
            else exists k | 0 <= k < |props| :: IsLast(props, k, c.name.value) && FlattenField(props[k].value, c.t, lt) == Err(e)
    decreases cs
  {
    i := 0;
    var c := cs[0];
    var a := FieldOf(props, c);
    if a.Ok? && FlattenField(a.value, c.t, lt).Ok? {
      i := RefusedAt(props, cs[1..], lt);
      i := i + 1;
    } else if c.name.Some? && c.name.value != "" {
      var k := LookupIsLast(props, c.name.value);
      assert k >= 0 ==> IsLast(props, k, c.name.value);
    }
  }
}
