/** Arguments of a contract call: struct literals put in declaration order, and static structs
    inside them spliced flat, which leaves the encoding as the standard has it. */
module AbiFlatten {
  import opened Arith
  import opened Bytes
  import opened AbiEncoding
  import opened AbiDecode

  /** A literal, or any other expression by the value it has when it is encoded. */
  datatype Arg = Leaf(v: Value) | Obj(props: seq<Prop>) | Arr(elements: seq<Element>)
  datatype Prop = Field(key: Ident, value: Arg) | SpreadProp
  datatype Element = Elem(a: Arg) | HoleOrSpread

  datatype Error =
    | SpreadProperty
    | SparseArray
    | UnnamedComponent
    | MissingField(x: Ident)
    | WrongArity(expected: nat, got: nat)

  datatype Result<+T> = Ok(value: T) | Err(error: Error) {
    predicate IsFailure() { Err? }

    function PropagateFailure<U>(): Result<U>
      requires Err?
    {
      Err(error)
    }

    function Extract(): T
      requires Ok?
    {
      value
    }
  }

  /** What is emitted: a value to encode at its type, or a tuple or array built here. */
  datatype Tree = At(t: Type, v: Value) | Tup(items: seq<Tree>) | Vec(items: seq<Tree>)

  type Order = (Ident, Ident) -> bool

  // ----- literals away from a struct parameter -----

  /** A struct literal's own layout: fields sorted by name. */
  function Insert(key: Ident, v: Value, fields: seq<(Ident, Value)>, lt: Order): seq<(Ident, Value)> {
    if fields == [] || lt(key, fields[0].0) then [(key, v)] + fields
    else [fields[0]] + Insert(key, v, fields[1..], lt)
  }

  function Seconds(fields: seq<(Ident, Value)>): seq<Value> {
    if fields == [] then [] else [fields[0].1] + Seconds(fields[1..])
  }

  function PlainValue(arg: Arg, lt: Order): Result<Value>
    decreases arg, 1
  {
    match arg
    case Leaf(v) => Ok(v)
    case Obj(props) =>
      var fields :- PlainFields(props, [], lt);
      Ok(VList(Seconds(fields)))
    case Arr(elements) =>
      var vs :- PlainElements(elements, lt);
      Ok(VList(vs))
  }

  function PlainFields(props: seq<Prop>, sorted: seq<(Ident, Value)>, lt: Order): Result<seq<(Ident, Value)>>
    decreases props, 0
  {
    if props == [] then Ok(sorted)
    else
      match props[0]
      case SpreadProp => Err(SpreadProperty)
      case Field(key, value) =>
        assert props decreases to props[0];
        var v :- PlainValue(value, lt);
        PlainFields(props[1..], Insert(key, v, sorted, lt), lt)
  }

  function PlainElements(elements: seq<Element>, lt: Order): Result<seq<Value>>
    decreases elements, 0
  {
    if elements == [] then Ok([])
    else
      match elements[0]
      case HoleOrSpread => Err(SparseArray)
      case Elem(a) =>
        assert elements decreases to elements[0];
        var v :- PlainValue(a, lt);
        var vs :- PlainElements(elements[1..], lt);
        Ok([v] + vs)
  }

  // ----- flattening -----

  /** The last property of a name counts. */
  function Lookup(props: seq<Prop>, x: Ident): Option<Arg> {
    if props == [] then None
    else
      match props[|props| - 1]
      case Field(key, value) => if key == x then Some(value) else Lookup(props[..|props| - 1], x)
      case SpreadProp => Lookup(props[..|props| - 1], x)
  }

  predicate NoSpread(props: seq<Prop>) {
    forall i | 0 <= i < |props| :: props[i].Field?
  }

  function FieldOf(props: seq<Prop>, c: Component): Result<Arg> {
    if c.name == None || c.name.value == "" then Err(UnnamedComponent)
    else
      match Lookup(props, c.name.value)
      case None => Err(MissingField(c.name.value))
      case Some(a) => Ok(a)
  }

  function ProcessAbiArg(arg: Arg, t: Type, lt: Order): Result<Tree>
    decreases t, 2
  {
    if arg.Obj? && t.Tuple? then
      var items :- FlattenStaticStructFields(arg.props, t.components, lt);
      Ok(Tup(items))
    else if arg.Arr? && t.Array? && t.elem.Tuple? then
      var items :- ProcessElements(arg.elements, t.elem, lt);
      Ok(Vec(items))
    else
      var v :- PlainValue(arg, lt);
      Ok(At(t, v))
  }

  function ProcessElements(elements: seq<Element>, t: Type, lt: Order): Result<seq<Tree>>
    decreases t, 3, elements
  {
    if elements == [] then Ok([])
    else
      match elements[0]
      case HoleOrSpread => Err(SparseArray)
      case Elem(a) =>
        var item :- ProcessAbiArg(a, t, lt);
        var rest :- ProcessElements(elements[1..], t, lt);
        Ok([item] + rest)
  }

  function FlattenStaticStructFields(props: seq<Prop>, cs: seq<Component>, lt: Order): Result<seq<Tree>>
    decreases cs, 1
  {
    if !NoSpread(props) then Err(SpreadProperty) else FlattenFields(props, cs, lt)
  }

  /** A static struct given as a literal is spliced into its parent. */
  function FlattenField(a: Arg, t: Type, lt: Order): Result<seq<Tree>>
    decreases t, 3
  {
    if t.Tuple? && a.Obj? && IsStatic(t) then FlattenStaticStructFields(a.props, t.components, lt)
    else
      var item :- ProcessAbiArg(a, t, lt);
      Ok([item])
  }

  function FlattenFields(props: seq<Prop>, cs: seq<Component>, lt: Order): Result<seq<Tree>>
    decreases cs, 0
  {
    if cs == [] then Ok([])
    else
      assert cs decreases to cs[0];
      var a :- FieldOf(props, cs[0]);
      var here :- FlattenField(a, cs[0].t, lt);
      var rest :- FlattenFields(props, cs[1..], lt);
      Ok(here + rest)
  }

  method FieldsByName(props: seq<Prop>) returns (r: Result<map<Ident, Arg>>)
    ensures if r.Ok? then NoSpread(props) && forall x :: Lookup(props, x) == if x in r.value then Some(r.value[x]) else None
            else r == Err(SpreadProperty) && !NoSpread(props)
  {
    var byName: map<Ident, Arg> := map[];
    for i := 0 to |props|
      invariant forall j | 0 <= j < i :: props[j].Field?
      invariant forall x :: Lookup(props[..i], x) == if x in byName then Some(byName[x]) else None
    {
      assert props[..i + 1][..i] == props[..i];
      if props[i].SpreadProp? {
        return Err(SpreadProperty);
      }
      byName := byName[props[i].key := props[i].value];
    }
    assert props[..|props|] == props;
    return Ok(byName);
  }

  /** The same as it runs: a map by name, then a pass over the components. */
  method FlattenInLoops(props: seq<Prop>, cs: seq<Component>, lt: Order) returns (r: Result<seq<Tree>>)
    ensures r == FlattenStaticStructFields(props, cs, lt)
    decreases cs, 0
  {
    var fields := FieldsByName(props);
    if fields.Err? {
      return Err(fields.error);
    }
    var byName := fields.value;
    var out: seq<Tree> := [];
    ghost var want := FlattenFields(props, cs, lt);
    assert cs[0..] == cs;
    assert want.Ok? ==> [] + want.value == want.value;
    for i := 0 to |cs|
      invariant want == Prepend(out, FlattenFields(props, cs[i..], lt))
    {
      var c := cs[i];
      assert cs[i..][0] == c && cs[i..][1..] == cs[i + 1..];
      assert cs decreases to cs[i];
      if c.name == None || c.name.value == "" {
        return Err(UnnamedComponent);
      }
      assert Lookup(props, c.name.value) == if c.name.value in byName then Some(byName[c.name.value]) else None;
      if c.name.value !in byName {
        return Err(MissingField(c.name.value));
      }
      var here := FieldInLoops(byName[c.name.value], c.t, lt);
      if here.Err? {
        return here;
      }
      PrependStep(out, props, cs[i..], here.value, lt);
      out := out + here.value;
    }
    assert out + [] == out;
    return Ok(out);
  }

  lemma PrependStep(out: seq<Tree>, props: seq<Prop>, cs: seq<Component>, here: seq<Tree>, lt: Order)
    requires cs != [] && FieldOf(props, cs[0]).Ok?
    requires FlattenField(FieldOf(props, cs[0]).value, cs[0].t, lt) == Ok(here)
    ensures Prepend(out, FlattenFields(props, cs, lt)) == Prepend(out + here, FlattenFields(props, cs[1..], lt))
  {
    var rest := FlattenFields(props, cs[1..], lt);
    assert rest.Ok? ==> out + (here + rest.value) == out + here + rest.value;
  }

  method FieldInLoops(a: Arg, t: Type, lt: Order) returns (r: Result<seq<Tree>>)
    ensures r == FlattenField(a, t, lt)
    decreases t, 1
  {
    if t.Tuple? && a.Obj? && IsStatic(t) {
      r := FlattenInLoops(a.props, t.components, lt);
    } else {
      var item := ProcessAbiArg(a, t, lt);
      r := if item.Ok? then Ok([item.value]) else Err(item.error);
    }
  }

  function Prepend(out: seq<Tree>, r: Result<seq<Tree>>): Result<seq<Tree>> {
    match r
    case Ok(more) => Ok(out + more)
    case Err(e) => Err(e)
  }

  // ----- what a literal means at a type -----

  /** Fields in declaration order, structs nested, at every depth. */
  function ValueOf(arg: Arg, t: Type, lt: Order): Result<Value>
    decreases t, 2
  {
    if arg.Obj? && t.Tuple? then
      if !NoSpread(arg.props) then Err(SpreadProperty)
      else
        var vs :- FieldValues(arg.props, t.components, lt);
        Ok(VList(vs))
    else if arg.Arr? && (t.Array? || t.Fixed?) then
      var vs :- ElementValues(arg.elements, t.elem, lt);
      Ok(VList(vs))
    else PlainValue(arg, lt)
  }

  function FieldValues(props: seq<Prop>, cs: seq<Component>, lt: Order): (r: Result<seq<Value>>)
    ensures r.Ok? ==> |r.value| == |cs|
    decreases cs, 0
  {
    if cs == [] then Ok([])
    else
      assert cs decreases to cs[0];
      var a :- FieldOf(props, cs[0]);
      var v :- ValueOf(a, cs[0].t, lt);
      var vs :- FieldValues(props, cs[1..], lt);
      Ok([v] + vs)
  }

  function ElementValues(elements: seq<Element>, t: Type, lt: Order): Result<seq<Value>>
    decreases t, 3, elements
  {
    if elements == [] then Ok([])
    else
      match elements[0]
      case HoleOrSpread => Err(SparseArray)
      case Elem(a) =>
        var v :- ValueOf(a, t, lt);
        var vs :- ElementValues(elements[1..], t, lt);
        Ok([v] + vs)
  }

  // ----- encoding what is emitted -----

  predicate IsDynamic(tree: Tree) {
    match tree
    case At(t, _) => !IsStatic(t)
    case Tup(items) => exists i | 0 <= i < |items| :: IsDynamic(items[i])
    case Vec(_) => true
  }

  function EncTree(tree: Tree): seq<byte>
    decreases tree, 1
  {
    match tree
    case At(t, v) => Enc(t, v)
    case Tup(items) => HeadTail(TreeParts(items))
    case Vec(items) => Uint(|items|) + HeadTail(TreeParts(items))
  }

  function TreeParts(items: seq<Tree>): seq<Part>
    decreases items, 0
  {
    if items == [] then [] else [Part(IsDynamic(items[0]), EncTree(items[0]))] + TreeParts(items[1..])
  }

  // ----- what the code takes a literal for -----

  /** As `ValueOf`, but inside a fixed-size or nested array literals keep their own order. */
  function Emitted(arg: Arg, t: Type, lt: Order): Result<Value>
    decreases t, 2
  {
    if arg.Obj? && t.Tuple? then
      if !NoSpread(arg.props) then Err(SpreadProperty)
      else
        var vs :- EmittedFields(arg.props, t.components, lt);
        Ok(VList(vs))
    else if arg.Arr? && t.Array? && t.elem.Tuple? then
      var vs :- EmittedElements(arg.elements, t.elem, lt);
      Ok(VList(vs))
    else PlainValue(arg, lt)
  }

  function EmittedFields(props: seq<Prop>, cs: seq<Component>, lt: Order): (r: Result<seq<Value>>)
    ensures r.Ok? ==> |r.value| == |cs|
    decreases cs, 0
  {
    if cs == [] then Ok([])
    else
      assert cs decreases to cs[0];
      var a :- FieldOf(props, cs[0]);
      var v :- Emitted(a, cs[0].t, lt);
      var vs :- EmittedFields(props, cs[1..], lt);
      Ok([v] + vs)
  }

  function EmittedElements(elements: seq<Element>, t: Type, lt: Order): Result<seq<Value>>
    decreases t, 3, elements
  {
    if elements == [] then Ok([])
    else
      match elements[0]
      case HoleOrSpread => Err(SparseArray)
      case Elem(a) =>
        var v :- Emitted(a, t, lt);
        var vs :- EmittedElements(elements[1..], t, lt);
        Ok([v] + vs)
  }

  // ----- what is emitted encodes it -----

  /** Emission fails where taking the value does, and otherwise encodes it as the standard does. */
  ghost predicate Encodes(tree: Result<Tree>, v: Result<Value>, t: Type) {
    if tree.Err? then v == Err(tree.error)
    else v.Ok? && EncTree(tree.value) == Enc(t, v.value) && IsDynamic(tree.value) == !IsStatic(t)
  }

  lemma {:induction false} ArgEncoded(arg: Arg, t: Type, lt: Order)
    ensures Encodes(ProcessAbiArg(arg, t, lt), Emitted(arg, t, lt), t)
    decreases t, 2
  {
    if arg.Obj? && t.Tuple? {
      StructEncoded(arg.props, t.components, lt);
    } else if arg.Arr? && t.Array? && t.elem.Tuple? {
      ElementsEncoded(arg.elements, t.elem, lt);
    }
  }

  lemma {:induction false} ElementsEncoded(elements: seq<Element>, t: Type, lt: Order)
    ensures var items, vs := ProcessElements(elements, t, lt), EmittedElements(elements, t, lt);
            if items.Err? then vs == Err(items.error)
            else vs.Ok? && |vs.value| == |items.value| && TreeParts(items.value) == PartsAll(t, vs.value)
    decreases t, 3, elements
  {
    if elements != [] && elements[0].Elem? {
      ArgEncoded(elements[0].a, t, lt);
      ElementsEncoded(elements[1..], t, lt);
      var item, v := ProcessAbiArg(elements[0].a, t, lt), Emitted(elements[0].a, t, lt);
      var rest, vs := ProcessElements(elements[1..], t, lt), EmittedElements(elements[1..], t, lt);
      if item.Ok? && rest.Ok? {
        assert ([item.value] + rest.value)[1..] == rest.value && ([v.value] + vs.value)[1..] == vs.value;
      }
    }
  }

  predicate AnyDynamic(ps: seq<Part>) {
    exists i | 0 <= i < |ps| :: ps[i].dynamic
  }

  lemma {:induction false} TreeDynamic(items: seq<Tree>)
    ensures |TreeParts(items)| == |items|
    ensures AnyDynamic(TreeParts(items)) == exists i | 0 <= i < |items| :: IsDynamic(items[i])
  {
    if items != [] {
      TreeDynamic(items[1..]);
      var ps := TreeParts(items);
      assert ps[1..] == TreeParts(items[1..]);
      if AnyDynamic(ps[1..]) {
        var i :| 0 <= i < |ps| - 1 && ps[1..][i].dynamic;
        assert ps[i + 1].dynamic;
        var j :| 0 <= j < |items| - 1 && IsDynamic(items[1..][j]);
        assert IsDynamic(items[j + 1]);
      } else if !ps[0].dynamic {
        forall i | 0 <= i < |items|
          ensures !IsDynamic(items[i]) && !ps[i].dynamic
        {
          if i > 0 {
            assert items[i] == items[1..][i - 1] && ps[i] == ps[1..][i - 1];
          }
        }
      }
    }
  }

  lemma {:induction false} ConcatTrees(a: seq<Tree>, b: seq<Tree>)
    ensures TreeParts(a + b) == TreeParts(a) + TreeParts(b)
  {
    if a == [] {
      assert a + b == b;
    } else {
      assert (a + b)[1..] == a[1..] + b;
      ConcatTrees(a[1..], b);
    }
  }

  lemma SameHeadTail(p: seq<Part>, q: seq<Part>)
    requires Same(p, q)
    ensures HeadTail(p) == HeadTail(q)
  {
  }

  /** A struct literal, whichever way it is emitted: spliced or as one tuple. */
  lemma {:induction false} StructEncoded(props: seq<Prop>, cs: seq<Component>, lt: Order)
    ensures Encodes(ProcessAbiArg(Obj(props), Tuple(cs), lt), Emitted(Obj(props), Tuple(cs), lt), Tuple(cs))
    ensures var items := FlattenStaticStructFields(props, cs, lt);
            var v := Emitted(Obj(props), Tuple(cs), lt);
            items.Ok? ==> v.Ok? && (IsStatic(Tuple(cs)) ==> Same(TreeParts(items.value), [Part(false, Enc(Tuple(cs), v.value))]))
    decreases cs, 1
  {
    if NoSpread(props) {
      FieldsEncoded(props, cs, lt);
      var items, vs := FlattenFields(props, cs, lt), EmittedFields(props, cs, lt);
      if items.Ok? {
        assert ProcessAbiArg(Obj(props), Tuple(cs), lt) == Ok(Tup(items.value));
        assert Emitted(Obj(props), Tuple(cs), lt) == Ok(VList(vs.value));
        SameHeadTail(TreeParts(items.value), PartsOf(cs, vs.value));
        TreeDynamic(items.value);
        assert EncTree(Tup(items.value)) == Enc(Tuple(cs), VList(vs.value));
        assert IsDynamic(Tup(items.value)) == AnyDynamic(TreeParts(items.value));
        if IsStatic(Tuple(cs)) {
          StaticParts(cs, vs.value);
          Splice(PartsOf(cs, vs.value));
        }
      } else {
        assert FlattenStaticStructFields(props, cs, lt) == Err(items.error);
        assert Emitted(Obj(props), Tuple(cs), lt) == Err(items.error);
      }
    } else {
      assert FlattenStaticStructFields(props, cs, lt) == Err(SpreadProperty);
      assert Emitted(Obj(props), Tuple(cs), lt) == Err(SpreadProperty);
    }
  }

  /** Fields emitted, against fields encoded. */
  lemma {:induction false} FieldsEncoded(props: seq<Prop>, cs: seq<Component>, lt: Order)
    ensures var items, vs := FlattenFields(props, cs, lt), EmittedFields(props, cs, lt);
            if items.Err? then vs == Err(items.error)
            else vs.Ok? && Same(TreeParts(items.value), PartsOf(cs, vs.value))
                 && AnyDynamic(TreeParts(items.value)) == !IsStatic(Tuple(cs))
    decreases cs, 0
  {
    if cs != [] {
      assert cs decreases to cs[0];
      var a := FieldOf(props, cs[0]);
      if a.Ok? {
        OneField(a.value, cs[0].t, lt);
        FieldsEncoded(props, cs[1..], lt);
        var here := FlattenField(a.value, cs[0].t, lt);
        var rest := FlattenFields(props, cs[1..], lt);
        if here.Ok? && rest.Ok? {
          var v := Emitted(a.value, cs[0].t, lt).value;
          var vs := EmittedFields(props, cs[1..], lt).value;
          JoinFields(here.value, rest.value, Part(!IsStatic(cs[0].t), Enc(cs[0].t, v)), PartsOf(cs[1..], vs));
          PartsCons(cs, v, vs);
          JoinDynamic(here.value, rest.value, cs);
        }
      }
    }
  }

  lemma {:induction false} OneField(a: Arg, t: Type, lt: Order)
    ensures var here, v := FlattenField(a, t, lt), Emitted(a, t, lt);
            if here.Err? then v == Err(here.error)
            else v.Ok? && Same(TreeParts(here.value), [Part(!IsStatic(t), Enc(t, v.value))])
                 && AnyDynamic(TreeParts(here.value)) == !IsStatic(t)
    decreases t, 3
  {
    if t.Tuple? && a.Obj? && IsStatic(t) {
      StructEncoded(a.props, t.components, lt);
      var items := FlattenStaticStructFields(a.props, t.components, lt);
      if items.Ok? {
        TreeDynamic(items.value);
        assert !IsDynamic(Tup(items.value));
      }
    } else {
      ArgEncoded(a, t, lt);
      var item := ProcessAbiArg(a, t, lt);
      if item.Ok? {
        assert [item.value][1..] == [];
        assert TreeParts([item.value]) == [Part(!IsStatic(t), Enc(t, Emitted(a, t, lt).value))];
      }
    }
  }

  lemma JoinFields(here: seq<Tree>, rest: seq<Tree>, one: Part, more: seq<Part>)
    requires Same(TreeParts(here), [one]) && Same(TreeParts(rest), more)
    ensures Same(TreeParts(here + rest), [one] + more)
  {
    ConcatTrees(here, rest);
    SameConcat(TreeParts(here), [one], TreeParts(rest), more);
  }

  lemma PartsCons(cs: seq<Component>, v: Value, vs: seq<Value>)
    requires cs != [] && |vs| == |cs| - 1
    ensures PartsOf(cs, [v] + vs) == [Part(!IsStatic(cs[0].t), Enc(cs[0].t, v))] + PartsOf(cs[1..], vs)
  {
    assert ([v] + vs)[1..] == vs;
  }

  lemma JoinDynamic(here: seq<Tree>, rest: seq<Tree>, cs: seq<Component>)
    requires cs != []
    requires AnyDynamic(TreeParts(here)) == !IsStatic(cs[0].t)
    requires AnyDynamic(TreeParts(rest)) == !IsStatic(Tuple(cs[1..]))
    ensures AnyDynamic(TreeParts(here + rest)) == !IsStatic(Tuple(cs))
  {
    ConcatTrees(here, rest);
    AnyConcat(TreeParts(here), TreeParts(rest));
    StaticTuple(cs);
  }

  lemma AnyConcat(p: seq<Part>, q: seq<Part>)
    ensures AnyDynamic(p + q) == (AnyDynamic(p) || AnyDynamic(q))
  {
    if AnyDynamic(p) {
      var i :| 0 <= i < |p| && p[i].dynamic;
      assert (p + q)[i].dynamic;
    }
    if AnyDynamic(q) {
      var i :| 0 <= i < |q| && q[i].dynamic;
      assert (p + q)[|p| + i].dynamic;
    }
  }

  lemma StaticTuple(cs: seq<Component>)
    requires cs != []
    ensures IsStatic(Tuple(cs)) == (IsStatic(cs[0].t) && IsStatic(Tuple(cs[1..])))
  {
    assert forall i | 0 < i < |cs| :: cs[i] == cs[1..][i - 1];
  }

  // ----- a whole call -----

  function ProcessArgs(args: seq<Arg>, inputs: seq<Type>, lt: Order): Result<seq<Tree>>
    requires |args| == |inputs|
  {
    if args == [] then Ok([])
    else
      var item :- ProcessAbiArg(args[0], inputs[0], lt);
      var rest :- ProcessArgs(args[1..], inputs[1..], lt);
      Ok([item] + rest)
  }

  /** The selector, and the arguments as one tuple unless there are none. */
  function CallData(selector: seq<byte>, args: seq<Arg>, inputs: seq<Type>, lt: Order): Result<seq<byte>> {
    if |args| != |inputs| then Err(WrongArity(|inputs|, |args|))
    else
      var items :- ProcessArgs(args, inputs, lt);
      Ok(if items == [] then selector else selector + EncTree(Tup(items)))
  }

  function Unnamed(ts: seq<Type>): (cs: seq<Component>)
    ensures |cs| == |ts|
  {
    if ts == [] then [] else [Component(None, ts[0])] + Unnamed(ts[1..])
  }

  function EmittedArgs(args: seq<Arg>, inputs: seq<Type>, lt: Order): (r: Result<seq<Value>>)
    requires |args| == |inputs|
    ensures r.Ok? ==> |r.value| == |args|
  {
    if args == [] then Ok([])
    else
      var v :- Emitted(args[0], inputs[0], lt);
      var vs :- EmittedArgs(args[1..], inputs[1..], lt);
      Ok([v] + vs)
  }

  lemma {:induction false} ArgsEncoded(args: seq<Arg>, inputs: seq<Type>, lt: Order)
    requires |args| == |inputs|
    ensures var items, vs := ProcessArgs(args, inputs, lt), EmittedArgs(args, inputs, lt);
            if items.Err? then vs == Err(items.error)
            else vs.Ok? && |items.value| == |args| && TreeParts(items.value) == PartsOf(Unnamed(inputs), vs.value)
  {
    if args != [] {
      ArgEncoded(args[0], inputs[0], lt);
      ArgsEncoded(args[1..], inputs[1..], lt);
      var item, v := ProcessAbiArg(args[0], inputs[0], lt), Emitted(args[0], inputs[0], lt);
      var rest, vs := ProcessArgs(args[1..], inputs[1..], lt), EmittedArgs(args[1..], inputs[1..], lt);
      if item.Ok? && rest.Ok? {
        assert ([item.value] + rest.value)[1..] == rest.value && ([v.value] + vs.value)[1..] == vs.value;
        assert Unnamed(inputs)[1..] == Unnamed(inputs[1..]);
      }
    }
  }

  /** Calldata is the selector and the standard's encoding of the argument tuple the code takes
      the literals for, byte for byte, however deep the flattening went. */
  lemma CallDataEncodesEmitted(selector: seq<byte>, args: seq<Arg>, inputs: seq<Type>, lt: Order)
    requires |args| == |inputs|
    ensures var data, vs := CallData(selector, args, inputs, lt), EmittedArgs(args, inputs, lt);
            if data.Err? then vs == Err(data.error)
            else vs.Ok? && data.value == selector + Enc(Tuple(Unnamed(inputs)), VList(vs.value))
  {
    ArgsEncoded(args, inputs, lt);
    var items := ProcessArgs(args, inputs, lt);
    if items == Ok([]) {
      assert selector + [] == selector;
    }
  }

  // ----- where struct literals may stand -----

  predicate NoObj(arg: Arg)
    decreases arg, 1
  {
    match arg
    case Leaf(_) => true
    case Obj(_) => false
    case Arr(elements) => NoObjs(elements)
  }

  predicate NoObjs(elements: seq<Element>)
    decreases elements, 0
  {
    elements == [] ||
    (assert elements decreases to elements[0];
     (elements[0].Elem? ==> NoObj(elements[0].a)) && NoObjs(elements[1..]))
  }

  /** Struct literals stand for structs, and inside arrays only for elements of a `tuple[]`. */
  predicate Placed(arg: Arg, t: Type)
    decreases t, 2
  {
    if arg.Obj? && t.Tuple? then FieldsPlaced(arg.props, t.components)
    else if arg.Arr? && t.Array? && t.elem.Tuple? then ElementsPlaced(arg.elements, t.elem)
    else NoObj(arg)
  }

  predicate FieldsPlaced(props: seq<Prop>, cs: seq<Component>)
    decreases cs, 0
  {
    cs == [] ||
    (assert cs decreases to cs[0];
     (FieldOf(props, cs[0]).Ok? ==> Placed(FieldOf(props, cs[0]).value, cs[0].t)) && FieldsPlaced(props, cs[1..]))
  }

  predicate ElementsPlaced(elements: seq<Element>, t: Type)
    decreases t, 3, elements
  {
    elements == [] ||
    ((elements[0].Elem? ==> Placed(elements[0].a, t)) && ElementsPlaced(elements[1..], t))
  }

  lemma {:induction false} NoObjValue(arg: Arg, t: Type, lt: Order)
    requires NoObj(arg)
    ensures ValueOf(arg, t, lt) == PlainValue(arg, lt)
    decreases t, 2
  {
    if arg.Arr? && (t.Array? || t.Fixed?) {
      NoObjValues(arg.elements, t.elem, lt);
    }
  }

  lemma {:induction false} NoObjValues(elements: seq<Element>, t: Type, lt: Order)
    requires NoObjs(elements)
    ensures ElementValues(elements, t, lt) == PlainElements(elements, lt)
    decreases t, 3, elements
  {
    if elements != [] {
      assert elements decreases to elements[0];
      if elements[0].Elem? {
        NoObjValue(elements[0].a, t, lt);
      }
      NoObjValues(elements[1..], t, lt);
    }
  }

  /** Placed so, a literal is taken for what it means, errors included. */
  lemma {:induction false} EmittedIsMeant(arg: Arg, t: Type, lt: Order)
    requires Placed(arg, t)
    ensures Emitted(arg, t, lt) == ValueOf(arg, t, lt)
    decreases t, 2
  {
    if arg.Obj? && t.Tuple? {
      FieldsMeant(arg.props, t.components, lt);
    } else if arg.Arr? && t.Array? && t.elem.Tuple? {
      ElementsMeant(arg.elements, t.elem, lt);
    } else {
      NoObjValue(arg, t, lt);
    }
  }

  lemma {:induction false} FieldsMeant(props: seq<Prop>, cs: seq<Component>, lt: Order)
    requires FieldsPlaced(props, cs)
    ensures EmittedFields(props, cs, lt) == FieldValues(props, cs, lt)
    decreases cs, 0
  {
    if cs != [] {
      assert cs decreases to cs[0];
      var a := FieldOf(props, cs[0]);
      if a.Ok? {
        EmittedIsMeant(a.value, cs[0].t, lt);
        FieldsMeant(props, cs[1..], lt);
      }
    }
  }

  lemma {:induction false} ElementsMeant(elements: seq<Element>, t: Type, lt: Order)
    requires ElementsPlaced(elements, t)
    ensures EmittedElements(elements, t, lt) == ElementValues(elements, t, lt)
    decreases t, 3, elements
  {
    if elements != [] && elements[0].Elem? {
      EmittedIsMeant(elements[0].a, t, lt);
      ElementsMeant(elements[1..], t, lt);
    }
  }

  function ArgValues(args: seq<Arg>, inputs: seq<Type>, lt: Order): (r: Result<seq<Value>>)
    requires |args| == |inputs|
    ensures r.Ok? ==> |r.value| == |args|
  {
    if args == [] then Ok([])
    else
      var v :- ValueOf(args[0], inputs[0], lt);
      var vs :- ArgValues(args[1..], inputs[1..], lt);
      Ok([v] + vs)
  }

  predicate ArgsPlaced(args: seq<Arg>, inputs: seq<Type>)
    requires |args| == |inputs|
  {
    args == [] || (Placed(args[0], inputs[0]) && ArgsPlaced(args[1..], inputs[1..]))
  }

  lemma {:induction false} ArgsMeant(args: seq<Arg>, inputs: seq<Type>, lt: Order)
    requires |args| == |inputs| && ArgsPlaced(args, inputs)
    ensures EmittedArgs(args, inputs, lt) == ArgValues(args, inputs, lt)
  {
    if args != [] {
      EmittedIsMeant(args[0], inputs[0], lt);
      ArgsMeant(args[1..], inputs[1..], lt);
    }
  }

  /** So calldata is the standard's encoding of what the arguments mean. */
  lemma CallDataIsStandard(selector: seq<byte>, args: seq<Arg>, inputs: seq<Type>, lt: Order)
    requires |args| == |inputs| && ArgsPlaced(args, inputs)
    ensures var data, vs := CallData(selector, args, inputs, lt), ArgValues(args, inputs, lt);
            if data.Err? then vs == Err(data.error)
            else vs.Ok? && data.value == selector + Enc(Tuple(Unnamed(inputs)), VList(vs.value))
  {
    CallDataEncodesEmitted(selector, args, inputs, lt);
    ArgsMeant(args, inputs, lt);
  }

  /** A contract that decodes the calldata behind the selector gets what the arguments mean. */
  lemma CallDataDecodes(selector: seq<byte>, args: seq<Arg>, inputs: seq<Type>, lt: Order)
    requires |args| == |inputs| && ArgsPlaced(args, inputs) && CallData(selector, args, inputs, lt).Ok?
    requires |CallData(selector, args, inputs, lt).value| < Pow256(32)
    requires ArgValues(args, inputs, lt).Ok? ==> EachFits(Unnamed(inputs), ArgValues(args, inputs, lt).value)
    ensures var data, vs := CallData(selector, args, inputs, lt).value, ArgValues(args, inputs, lt);
            && selector <= data && vs.Ok?
            && Read(Tuple(Unnamed(inputs)), data[|selector|..]) == Some(VList(vs.value))
  {
    CallDataIsStandard(selector, args, inputs, lt);
    var t, v := Tuple(Unnamed(inputs)), VList(ArgValues(args, inputs, lt).value);
    assert (selector + Enc(t, v))[|selector|..] == Enc(t, v);
    ReadsBack(t, v, Enc(t, v));
  }

  /** Wherever literals stand: calldata that can be decoded at all is the standard's encoding of
      what the arguments mean exactly when the code takes each of them for that. */
  lemma CallDataExactly(selector: seq<byte>, args: seq<Arg>, inputs: seq<Type>, lt: Order)
    requires |args| == |inputs| && CallData(selector, args, inputs, lt).Ok? && ArgValues(args, inputs, lt).Ok?
    requires |CallData(selector, args, inputs, lt).value| < Pow256(32)
    requires EmittedArgs(args, inputs, lt).Ok? && EachFits(Unnamed(inputs), EmittedArgs(args, inputs, lt).value)
    requires EachFits(Unnamed(inputs), ArgValues(args, inputs, lt).value)
    ensures var meant := ArgValues(args, inputs, lt);
            CallData(selector, args, inputs, lt) == Ok(selector + Enc(Tuple(Unnamed(inputs)), VList(meant.value))) <==>
            EmittedArgs(args, inputs, lt) == meant
  {
    var t, v, w := Tuple(Unnamed(inputs)), VList(EmittedArgs(args, inputs, lt).value), VList(ArgValues(args, inputs, lt).value);
    CallDataEncodesEmitted(selector, args, inputs, lt);
    if selector + Enc(t, v) == selector + Enc(t, w) {
      assert (selector + Enc(t, v))[|selector|..] == Enc(t, v) && (selector + Enc(t, w))[|selector|..] == Enc(t, w);
      EncInjective(t, v, w);
    }
  }

  // ----- the order a literal's fields are written in -----

  predicate DistinctKeys(props: seq<Prop>) {
    forall i, j | 0 <= i < j < |props| && props[i].Field? && props[j].Field? :: props[i].key != props[j].key
  }

  /** The same literal up to the order of fields, at every depth. */
  predicate Alike(a: Arg, b: Arg)
    decreases a, 1
  {
    match (a, b)
    case (Leaf(_), Leaf(_)) => a == b
    case (Obj(p), Obj(q)) => LikeFields(p, q)
    case (Arr(x), Arr(y)) => LikeElements(x, y)
    case _ => false
  }

  predicate LikeFields(p: seq<Prop>, q: seq<Prop>)
    decreases p, 0
  {
    && NoSpread(p) && NoSpread(q) && DistinctKeys(p) && DistinctKeys(q)
    && (forall i | 0 <= i < |p| ::
          Lookup(q, p[i].key).Some? && (assert p decreases to p[i]; Alike(p[i].value, Lookup(q, p[i].key).value)))
    && (forall j | 0 <= j < |q| :: Lookup(p, q[j].key).Some?)
  }

  predicate LikeElements(x: seq<Element>, y: seq<Element>)
    decreases x, 0
  {
    if x == [] || y == [] then x == y
    else
      assert x decreases to x[0];
      && (if x[0].Elem? then y[0].Elem? && Alike(x[0].a, y[0].a) else y[0].HoleOrSpread?)
      && LikeElements(x[1..], y[1..])
  }

  lemma {:induction false} LookupAt(props: seq<Prop>, i: nat)
    requires i < |props| && NoSpread(props) && DistinctKeys(props)
    ensures Lookup(props, props[i].key) == Some(props[i].value)
  {
    var n := |props| - 1;
    if i < n {
      assert props[..n][i] == props[i];
      LookupAt(props[..n], i);
    }
  }

  lemma {:induction false} LookupFrom(props: seq<Prop>, x: Ident)
    requires NoSpread(props) && Lookup(props, x).Some?
    ensures exists i | 0 <= i < |props| :: props[i].key == x && props[i].value == Lookup(props, x).value
  {
    var n := |props| - 1;
    if props[n].key != x {
      LookupFrom(props[..n], x);
      var i :| 0 <= i < n && props[..n][i].key == x && props[..n][i].value == Lookup(props[..n], x).value;
      assert props[i].key == x;
    }
  }

  lemma LookupAlike(p: seq<Prop>, q: seq<Prop>, x: Ident)
    requires LikeFields(p, q)
    ensures Lookup(p, x).Some? == Lookup(q, x).Some?
    ensures Lookup(p, x).Some? ==> Alike(Lookup(p, x).value, Lookup(q, x).value)
  {
    if Lookup(p, x).Some? {
      LookupFrom(p, x);
      var i :| 0 <= i < |p| && p[i].key == x && p[i].value == Lookup(p, x).value;
      assert Alike(p[i].value, Lookup(q, p[i].key).value);
    }
    if Lookup(q, x).Some? {
      LookupFrom(q, x);
      var j :| 0 <= j < |q| && q[j].key == x;
      assert Lookup(p, q[j].key).Some?;
    }
  }

  lemma {:induction false} AlikeNoObj(a: Arg, b: Arg)
    requires Alike(a, b) && NoObj(a)
    ensures a == b
    decreases a, 1
  {
    if a.Arr? {
      AlikeNoObjs(a.elements, b.elements);
    }
  }

  lemma {:induction false} AlikeNoObjs(x: seq<Element>, y: seq<Element>)
    requires LikeElements(x, y) && NoObjs(x)
    ensures x == y
    decreases x, 0
  {
    if x != [] {
      assert x decreases to x[0];
      if x[0].Elem? {
        AlikeNoObj(x[0].a, y[0].a);
      }
      AlikeNoObjs(x[1..], y[1..]);
      assert x == [x[0]] + x[1..] && y == [y[0]] + y[1..];
    }
  }

  /** Writing a literal's fields in another order, at any depth, emits the same thing. */
  lemma {:induction false} FieldOrderIrrelevant(a: Arg, b: Arg, t: Type, lt: Order)
    requires Placed(a, t) && Alike(a, b)
    ensures ProcessAbiArg(a, t, lt) == ProcessAbiArg(b, t, lt)
    decreases t, 2
  {
    if a.Obj? && t.Tuple? {
      FieldsAlike(a.props, b.props, t.components, lt);
    } else if a.Arr? && t.Array? && t.elem.Tuple? {
      ElementsAlike(a.elements, b.elements, t.elem, lt);
    } else {
      AlikeNoObj(a, b);
    }
  }

  lemma {:induction false} ElementsAlike(x: seq<Element>, y: seq<Element>, t: Type, lt: Order)
    requires ElementsPlaced(x, t) && LikeElements(x, y)
    ensures ProcessElements(x, t, lt) == ProcessElements(y, t, lt)
    decreases t, 3, x
  {
    if x != [] {
      if x[0].Elem? {
        FieldOrderIrrelevant(x[0].a, y[0].a, t, lt);
        ElementsAlike(x[1..], y[1..], t, lt);
      }
    }
  }

  lemma {:induction false} FieldsAlike(p: seq<Prop>, q: seq<Prop>, cs: seq<Component>, lt: Order)
    requires FieldsPlaced(p, cs) && LikeFields(p, q)
    ensures FlattenFields(p, cs, lt) == FlattenFields(q, cs, lt)
    decreases cs, 0
  {
    if cs != [] {
      assert cs decreases to cs[0];
      if cs[0].name.Some? {
        LookupAlike(p, q, cs[0].name.value);
      }
      var a, b := FieldOf(p, cs[0]), FieldOf(q, cs[0]);
      if a.Ok? {
        FieldOrderIrrelevant(a.value, b.value, cs[0].t, lt);
        if cs[0].t.Tuple? && a.value.Obj? && IsStatic(cs[0].t) {
          FieldsAlike(a.value.props, b.value.props, cs[0].t.components, lt);
        }
        FieldsAlike(p, q, cs[1..], lt);
      }
    }
  }

  /** Inside a fixed-size array a struct literal keeps its own order, by name: what is encoded
      is then the struct meant only when the order makes no difference. */
  lemma FixedArrayKeepsNameOrder(a: Ident, b: Ident, x: nat, y: nat, lt: Order)
    requires a != "" && b != "" && a != b && lt(a, b) && !lt(b, a)
    requires x < Pow256(32) && y < Pow256(32)
    ensures var t := Fixed(Tuple([Component(Some(b), Word), Component(Some(a), Word)]), 1);
            var arg := Arr([Elem(Obj([Field(a, Leaf(VWord(x))), Field(b, Leaf(VWord(y)))]))]);
            var tree, v := ProcessAbiArg(arg, t, lt), ValueOf(arg, t, lt);
            tree.Ok? && v.Ok? && (EncTree(tree.value) == Enc(t, v.value) <==> x == y)
  {
    var props := [Field(a, Leaf(VWord(x))), Field(b, Leaf(VWord(y)))];
    var cs := [Component(Some(b), Word), Component(Some(a), Word)];
    PairPlain(props, a, b, x, y, lt);
    PairMeant(props, cs, a, b, x, y, lt);
    OneElement(Obj(props), Tuple(cs), lt);
    PairEncoded(cs, x, y);
    PairEncoded(cs, y, x);
    Swapped(x, y);
  }

  lemma Swapped(x: nat, y: nat)
    requires x < Pow256(32) && y < Pow256(32)
    ensures Uint(x) + Uint(y) == Uint(y) + Uint(x) <==> x == y
  {
    RoundTrip(x, 32);
    RoundTrip(y, 32);
    assert (Uint(x) + Uint(y))[..32] == Uint(x) && (Uint(y) + Uint(x))[..32] == Uint(y);
  }

  lemma OneElement(a: Arg, t: Type, lt: Order)
    requires PlainValue(a, lt).Ok? && ValueOf(a, t, lt).Ok?
    ensures PlainElements([Elem(a)], lt) == Ok([PlainValue(a, lt).value])
    ensures ElementValues([Elem(a)], t, lt) == Ok([ValueOf(a, t, lt).value])
  {
    var v, w := PlainValue(a, lt).value, ValueOf(a, t, lt).value;
    assert [Elem(a)][1..] == [] && [v] + [] == [v] && [w] + [] == [w];
    assert PlainElements([], lt) == Ok([]) && ElementValues([], t, lt) == Ok([]);
  }

  lemma PairPlain(props: seq<Prop>, a: Ident, b: Ident, x: nat, y: nat, lt: Order)
    requires props == [Field(a, Leaf(VWord(x))), Field(b, Leaf(VWord(y)))] && !lt(b, a)
    ensures PlainValue(Obj(props), lt) == Ok(VList([VWord(x), VWord(y)]))
  {
    var one, two := [(a, VWord(x))], [(a, VWord(x)), (b, VWord(y))];
    var last := [(b, VWord(y))];
    assert props[1..] == [Field(b, Leaf(VWord(y)))] && props[1..][1..] == [];
    assert one[1..] == [] && two[1..] == last && last[1..] == [];
    assert [(a, VWord(x))] + [] == one && last + [] == last && [one[0]] + last == two;
    assert Insert(a, VWord(x), [], lt) == one;
    assert Insert(b, VWord(y), [], lt) == last;
    assert Insert(b, VWord(y), one, lt) == two;
    assert PlainFields(props[1..], one, lt) == Ok(two);
    assert PlainFields(props, [], lt) == Ok(two);
    assert Seconds([]) == [] && [VWord(y)] + [] == [VWord(y)];
    assert Seconds(last) == [VWord(y)];
    assert Seconds(two) == [VWord(x)] + [VWord(y)] == [VWord(x), VWord(y)];
  }

  lemma PairMeant(props: seq<Prop>, cs: seq<Component>, a: Ident, b: Ident, x: nat, y: nat, lt: Order)
    requires a != "" && b != "" && a != b
    requires props == [Field(a, Leaf(VWord(x))), Field(b, Leaf(VWord(y)))]
    requires cs == [Component(Some(b), Word), Component(Some(a), Word)]
    ensures ValueOf(Obj(props), Tuple(cs), lt) == Ok(VList([VWord(y), VWord(x)]))
  {
    LookupAt(props, 0);
    LookupAt(props, 1);
    var last := cs[1..];
    assert last == [Component(Some(a), Word)] && last[1..] == [];
    assert FieldValues(props, [], lt) == Ok([]) && [VWord(x)] + [] == [VWord(x)];
    assert FieldValues(props, last, lt) == Ok([VWord(x)]);
    assert [VWord(y)] + [VWord(x)] == [VWord(y), VWord(x)] && NoSpread(props);
    assert FieldValues(props, cs, lt) == Ok([VWord(y), VWord(x)]);
  }

  lemma PairEncoded(cs: seq<Component>, x: nat, y: nat)
    requires |cs| == 2 && cs[0].t == Word && cs[1].t == Word
    ensures Enc(Fixed(Tuple(cs), 1), VList([VList([VWord(x), VWord(y)])])) == Uint(x) + Uint(y)
  {
    PartsCons(cs, VWord(x), [VWord(y)]);
    PartsCons(cs[1..], VWord(y), []);
    assert [VWord(x)] + [VWord(y)] == [VWord(x), VWord(y)] && [VWord(y)] + [] == [VWord(y)];
    var p, q := Part(false, Uint(x)), Part(false, Uint(y));
    assert PartsOf(cs[1..][1..], []) == [] && [q] + [] == [q];
    assert PartsOf(cs, [VWord(x), VWord(y)]) == [p] + [q];
    WordsEncoded(p, q);
    var v := VList([VWord(x), VWord(y)]);
    assert [v][1..] == [] && PartsAll(Tuple(cs), []) == [];
    var r := Part(false, Enc(Tuple(cs), v));
    assert [r] + [] == [r];
    assert PartsAll(Tuple(cs), [v]) == [r];
    OneEncoded(r);
  }

  lemma OneEncoded(p: Part)
    requires !p.dynamic
    ensures HeadTail([p]) == p.enc
  {
    assert [p][1..] == [] && p.enc + [] == p.enc;
    assert Heads([], HeadSize([p])) == [] && Tails([]) == [];
    assert Tails([p]) == [] + [];
  }

  lemma WordsEncoded(p: Part, q: Part)
    requires !p.dynamic && !q.dynamic
    ensures HeadTail([p] + [q]) == p.enc + q.enc
  {
    Concat([p], [q], HeadSize([p] + [q]));
    One(p, 0);
    One(q, 0);
    assert [p][1..] == [] && [q][1..] == [];
    assert p.enc + [] == p.enc && q.enc + [] == q.enc;
    assert Heads([], HeadSize([p] + [q])) == [] && Tails([]) == [];
    assert Tails([p]) == [] && Tails([q]) == [];
    assert Heads([p], HeadSize([p] + [q])) == p.enc && Heads([q], HeadSize([p] + [q])) == q.enc;
    assert (p.enc + q.enc) + [] == p.enc + q.enc;
  }
}
