/** The call-graph check that runs before expansion: a depth-first search that rejects the
    cycles it meets through an inline function. */
module InlineRecursion {
  import opened Arith
  import opened Sauce
  import opened SauceNames

  type Bodies = map<Ident, seq<Stmt>>

  /** Known functions called from a body. */
  function Edges(bodies: Bodies, f: Ident): set<Ident> {
    if f in bodies then CalleesIn(bodies[f]) * bodies.Keys else {}
  }

  /** Each function calls the next. */
  ghost predicate Walk(bodies: Bodies, p: seq<Ident>) {
    forall i | 0 < i < |p| :: p[i] in Edges(bodies, p[i - 1])
  }

  ghost predicate Cycle(bodies: Bodies, p: seq<Ident>) {
    |p| > 1 && p[0] == p[|p| - 1] && Walk(bodies, p)
  }

  /** Calls leaving an inline function go to functions earlier in the order. */
  ghost predicate Descends(order: seq<Ident>, bodies: Bodies, inlines: set<Ident>) {
    forall i, g | 0 <= i < |order| && order[i] in inlines && g in Edges(bodies, order[i]) :: g in order[..i]
  }

  ghost predicate NoRepeats(s: seq<Ident>) {
    forall i, j | 0 <= i < j < |s| :: s[i] != s[j]
  }

  lemma DescendsAppend(order: seq<Ident>, bodies: Bodies, inlines: set<Ident>, f: Ident)
    requires Descends(order, bodies, inlines) && NoRepeats(order) && f !in order
    requires f in inlines ==> forall g | g in Edges(bodies, f) :: g in order
    ensures Descends(order + [f], bodies, inlines) && NoRepeats(order + [f])
  {
    var longer := order + [f];
    forall i, g | 0 <= i < |longer| && longer[i] in inlines && g in Edges(bodies, longer[i])
      ensures g in longer[..i]
    {
      if i < |order| {
        assert longer[..i] == order[..i] && longer[i] == order[i];
      } else {
        assert longer[..i] == order;
      }
    }
  }

  // ----- the search -----

  datatype Color = Gray | Black

  /** The known functions each body calls, in the order the walk over it meets them. */
  type Calls = map<Ident, seq<Ident>>

  ghost predicate Lists(calls: Calls, bodies: Bodies) {
    calls.Keys == bodies.Keys && forall f, g | f in calls :: g in calls[f] <==> g in Edges(bodies, f)
  }

  ghost predicate Known(calls: Calls) {
    forall f, g | f in calls && g in calls[f] :: g in calls
  }

  predicate Hits(p: seq<Ident>, inlines: set<Ident>) {
    exists f :: f in p && f in inlines
  }

  function IndexOf(path: seq<Ident>, name: Ident): (i: nat)
    ensures i <= |path| && (name in path ==> i < |path| && path[i] == name)
  {
    if path == [] || path[0] == name then 0 else 1 + IndexOf(path[1..], name)
  }

  /** The path from `name` on, closed by a call of it. */
  function Closed(path: seq<Ident>, name: Ident): seq<Ident> {
    path[IndexOf(path, name)..] + [name]
  }

  /** How a search ends: at a cycle, or with the colours and the functions in the order they
      turned black. */
  datatype Outcome = Reported(cycle: seq<Ident>) | Clear(color: map<Ident, Color>, finished: seq<Ident>)

  predicate AllKnown(todo: seq<Ident>, calls: Calls) {
    forall g | g in todo :: g in calls
  }

  function Search(calls: Calls, inlines: set<Ident>, color: map<Ident, Color>, finished: seq<Ident>, path: seq<Ident>, name: Ident)
    : (r: Outcome)
    requires Known(calls) && name in calls
    ensures r.Clear? ==> color.Keys <= r.color.Keys
    decreases calls.Keys - color.Keys, 0
  {
    if name in color then
      if color[name] == Black || !Hits(Closed(path, name), inlines) then Clear(color, finished)
      else Reported(Closed(path, name))
    else
      assert name in calls.Keys - color.Keys && name !in calls.Keys - color[name := Gray].Keys;
      match SearchAll(calls, inlines, color[name := Gray], finished, path + [name], calls[name])
      case Reported(cycle) => Reported(cycle)
      case Clear(after, fs) => Clear(after[name := Black], fs + [name])
  }

  function SearchAll(calls: Calls, inlines: set<Ident>, color: map<Ident, Color>, finished: seq<Ident>, path: seq<Ident>,
                     todo: seq<Ident>)
    : (r: Outcome)
    requires Known(calls) && AllKnown(todo, calls)
    ensures r.Clear? ==> color.Keys <= r.color.Keys
    decreases calls.Keys - color.Keys, 1, |todo|
  {
    if todo == [] then Clear(color, finished)
    else
      match Search(calls, inlines, color, finished, path, todo[0])
      case Reported(cycle) => Reported(cycle)
      case Clear(after, fs) => SearchAll(calls, inlines, after, fs, path, todo[1..])
  }

  /** The whole check, over the inline functions in their order. */
  predicate Accepts(calls: Calls, inlines: set<Ident>, names: seq<Ident>)
    requires Known(calls) && AllKnown(names, calls)
  {
    SearchAll(calls, inlines, map[], [], [], names).Clear?
  }

  // ----- what the search keeps -----

  /** No cycle lies wholly among real functions. */
  ghost predicate RealAcyclic(bodies: Bodies, inlines: set<Ident>) {
    forall p | Cycle(bodies, p) :: Hits(p, inlines)
  }

  /** No cycle runs through an inline function. */
  ghost predicate InlineAcyclic(bodies: Bodies, inlines: set<Ident>) {
    forall p | Cycle(bodies, p) :: !Hits(p, inlines)
  }

  /** The functions whose calls the search is sure to have finished before them. */
  ghost function Covered(bodies: Bodies, inlines: set<Ident>): set<Ident> {
    if RealAcyclic(bodies, inlines) then bodies.Keys else inlines
  }

  ghost predicate Wired(bodies: Bodies, calls: Calls, inlines: set<Ident>) {
    inlines <= bodies.Keys && Lists(calls, bodies) && Known(calls)
  }

  ghost predicate Sound(bodies: Bodies, covered: set<Ident>, color: map<Ident, Color>, finished: seq<Ident>, path: seq<Ident>) {
    && color.Keys <= bodies.Keys
    && (forall f :: f in path <==> f in color && color[f] == Gray)
    && (forall f :: f in finished <==> f in color && color[f] == Black)
    && NoRepeats(path) && NoRepeats(finished) && Walk(bodies, path)
    && Descends(finished, bodies, covered)
  }

  /** Where the next visit comes from. */
  ghost predicate CalledFrom(bodies: Bodies, path: seq<Ident>, name: Ident) {
    path != [] ==> name in Edges(bodies, path[|path| - 1])
  }

  ghost predicate AllCalledFrom(bodies: Bodies, path: seq<Ident>, todo: seq<Ident>) {
    forall g | g in todo :: CalledFrom(bodies, path, g)
  }

  /** Whether the calls of what is being visited must be finished before it. */
  ghost predicate Binding(covered: set<Ident>, path: seq<Ident>) {
    path == [] || path[|path| - 1] in covered
  }

  ghost predicate AllIn(fs: seq<Ident>, order: seq<Ident>) {
    forall f | f in fs :: f in order
  }

  /** A gray function is met again: the path from it, closed by the call. */
  lemma MeetAgain(bodies: Bodies, inlines: set<Ident>, color: map<Ident, Color>, finished: seq<Ident>, path: seq<Ident>, name: Ident)
    requires Sound(bodies, Covered(bodies, inlines), color, finished, path) && inlines <= bodies.Keys
    requires name in path && CalledFrom(bodies, path, name)
    ensures Cycle(bodies, Closed(path, name))
    ensures !Hits(Closed(path, name), inlines) ==> path[|path| - 1] !in Covered(bodies, inlines)
  {
    var i, cycle := IndexOf(path, name), Closed(path, name);
    assert Cycle(bodies, cycle);
    assert cycle[|path| - 1 - i] == path[|path| - 1];
    assert path[|path| - 1] in cycle;
  }

  lemma Entered(bodies: Bodies, covered: set<Ident>, color: map<Ident, Color>, finished: seq<Ident>, path: seq<Ident>, name: Ident)
    requires Sound(bodies, covered, color, finished, path)
    requires name in bodies && name !in color && CalledFrom(bodies, path, name)
    ensures Sound(bodies, covered, color[name := Gray], finished, path + [name])
  {
  }

  lemma Left(bodies: Bodies, covered: set<Ident>, color: map<Ident, Color>, finished: seq<Ident>, path: seq<Ident>, name: Ident)
    requires Sound(bodies, covered, color, finished, path + [name])
    requires name in covered ==> forall g | g in Edges(bodies, name) :: g in finished
    ensures Sound(bodies, covered, color[name := Black], finished + [name], path)
  {
    var longer, after := path + [name], color[name := Black];
    assert longer[|path|] == name && name in longer;
    assert name !in finished;
    DescendsAppend(finished, bodies, covered, name);
    assert forall f :: f in longer <==> f in path || f == name;
    assert forall f :: f in finished + [name] <==> f in finished || f == name;
    assert forall f | f != name :: (f in after <==> f in color) && (f in color ==> after[f] == color[f]);
    assert NoRepeats(path) by {
      assert forall i | 0 <= i < |path| :: longer[i] == path[i];
    }
    assert name !in path by {
      assert forall i | 0 <= i < |path| :: longer[i] == path[i] && longer[i] != longer[|path|];
    }
    assert Walk(bodies, path) by {
      assert forall i | 0 <= i < |path| :: longer[i] == path[i];
    }
  }

  /** What a visit reports is a real cycle through an inline function; what it clears keeps
      the finishing order sound, and `name` is finished, or its caller is one whose calls need
      not be. */
  lemma {:induction false} SearchSound(bodies: Bodies, calls: Calls, inlines: set<Ident>, color: map<Ident, Color>,
                                       finished: seq<Ident>, path: seq<Ident>, name: Ident)
    requires Wired(bodies, calls, inlines) && Sound(bodies, Covered(bodies, inlines), color, finished, path)
    requires name in calls && CalledFrom(bodies, path, name)
    ensures var r := Search(calls, inlines, color, finished, path, name);
            && (r.Reported? ==> Cycle(bodies, r.cycle) && Hits(r.cycle, inlines))
            && (r.Clear? ==>
                  && Sound(bodies, Covered(bodies, inlines), r.color, r.finished, path) && finished <= r.finished
                  && (Binding(Covered(bodies, inlines), path) ==> name in r.finished))
    decreases calls.Keys - color.Keys, 0
  {
    if name in color {
      if color[name] == Gray {
        MeetAgain(bodies, inlines, color, finished, path, name);
      }
    } else {
      assert name in calls.Keys - color.Keys && name !in calls.Keys - color[name := Gray].Keys;
      Entered(bodies, Covered(bodies, inlines), color, finished, path, name);
      assert (path + [name])[|path|] == name;
      assert AllKnown(calls[name], calls) && AllCalledFrom(bodies, path + [name], calls[name]);
      SearchAllSound(bodies, calls, inlines, color[name := Gray], finished, path + [name], calls[name]);
      var r := SearchAll(calls, inlines, color[name := Gray], finished, path + [name], calls[name]);
      if r.Clear? {
        Left(bodies, Covered(bodies, inlines), r.color, r.finished, path, name);
      }
    }
  }

  lemma {:induction false} SearchAllSound(bodies: Bodies, calls: Calls, inlines: set<Ident>, color: map<Ident, Color>,
                                          finished: seq<Ident>, path: seq<Ident>, todo: seq<Ident>)
    requires Wired(bodies, calls, inlines) && Sound(bodies, Covered(bodies, inlines), color, finished, path)
    requires AllKnown(todo, calls) && AllCalledFrom(bodies, path, todo)
    ensures var r := SearchAll(calls, inlines, color, finished, path, todo);
            && (r.Reported? ==> Cycle(bodies, r.cycle) && Hits(r.cycle, inlines))
            && (r.Clear? ==>
                  && Sound(bodies, Covered(bodies, inlines), r.color, r.finished, path) && finished <= r.finished
                  && (Binding(Covered(bodies, inlines), path) ==> AllIn(todo, r.finished)))
    decreases calls.Keys - color.Keys, 1, |todo|
  {
    if todo != [] {
      assert todo[0] in todo;
      SearchSound(bodies, calls, inlines, color, finished, path, todo[0]);
      var r := Search(calls, inlines, color, finished, path, todo[0]);
      if r.Clear? {
        SearchAllSound(bodies, calls, inlines, r.color, r.finished, path, todo[1..]);
      }
    }
  }

  /** The search as the compiler runs it, on one colour map and one path. */
  class RecursionCheck {
    const calls: Calls
    const inlines: set<Ident>
    var color: map<Ident, Color>
    var path: seq<Ident>
    ghost var finished: seq<Ident>

    constructor (calls: Calls, inlines: set<Ident>)
      ensures this.calls == calls && this.inlines == inlines
      ensures color == map[] && path == [] && finished == []
    {
      this.calls := calls;
      this.inlines := inlines;
      color := map[];
      path := [];
      finished := [];
    }

    /** How a visit ended: what was thrown, or the state left behind. */
    ghost function Ended(found: Option<seq<Ident>>): Outcome
      reads this
    {
      if found.Some? then Reported(found.value) else Clear(color, finished)
    }

    method Visit(name: Ident) returns (found: Option<seq<Ident>>)
      requires Known(calls) && name in calls && forall f | f in path :: f in color
      modifies this`color, this`path, this`finished
      ensures Ended(found) == Search(calls, inlines, old(color), old(finished), old(path), name)
      ensures found.None? ==> path == old(path) && old(color.Keys) <= color.Keys
      decreases calls.Keys - color.Keys, 0
    {
      if name in color {
        if color[name] == Black {
          return None;
        }
        var cycle := path[IndexOf(path, name)..] + [name];
        if exists f :: f in cycle && f in inlines {
          return Some(cycle);
        }
        return None;
      }
      color := color[name := Gray];
      path := path + [name];
      assert name in old(calls.Keys - color.Keys) && name !in calls.Keys - color.Keys;
      found := VisitAll(calls[name]);
      if found.None? {
        path := path[..|path| - 1];
        color := color[name := Black];
        finished := finished + [name];
      }
    }

    /** One call after another. */
    method VisitAll(todo: seq<Ident>) returns (found: Option<seq<Ident>>)
      requires Known(calls) && AllKnown(todo, calls) && forall f | f in path :: f in color
      modifies this`color, this`path, this`finished
      ensures Ended(found) == SearchAll(calls, inlines, old(color), old(finished), old(path), todo)
      ensures found.None? ==> path == old(path) && old(color.Keys) <= color.Keys
      decreases calls.Keys - color.Keys, 1
    {
      ghost var fate := SearchAll(calls, inlines, color, finished, path, todo);
      var i := 0;
      assert todo[0..] == todo;
      while i < |todo|
        invariant 0 <= i <= |todo| && path == old(path) && old(color.Keys) <= color.Keys
        invariant AllKnown(todo[i..], calls) && fate == SearchAll(calls, inlines, color, finished, path, todo[i..])
      {
        assert todo[i..][0] == todo[i] && todo[i..][1..] == todo[i + 1..];
        found := Visit(todo[i]);
        if found.Some? {
          return;
        }
        i := i + 1;
      }
      found := None;
    }

    /** Every inline function in turn. Acceptance rules out every cycle among inline functions;
        and where no cycle lies wholly among real functions, it is exactly the absence of
        cycles through inline ones. */
    method Run(names: seq<Ident>, ghost bodies: Bodies) returns (found: Option<seq<Ident>>)
      requires Wired(bodies, calls, inlines) && color == map[] && path == [] && finished == []
      requires forall f :: f in names <==> f in inlines
      modifies this`color, this`path, this`finished
      ensures found.None? <==> Accepts(calls, inlines, names)
      ensures found.Some? ==> Cycle(bodies, found.value) && Hits(found.value, inlines)
      ensures found.None? ==> Descends(finished, bodies, inlines) && NoRepeats(finished) && AllIn(names, finished)
      ensures found.None? ==> forall p: seq<Ident> | (forall f | f in p :: f in inlines) :: !Cycle(bodies, p)
      ensures RealAcyclic(bodies, inlines) ==> (found.None? <==> InlineAcyclic(bodies, inlines))
    {
      SearchAllSound(bodies, calls, inlines, color, finished, path, names);
      found := VisitAll(names);
      if found.None? {
        FinishedMeansAcyclic(finished, bodies, inlines);
      }
    }
  }

  /** Position of a function in the finishing order. */
  ghost function Rank(order: seq<Ident>, f: Ident): (i: nat)
    requires f in order
    ensures i < |order| && order[i] == f
  {
    var i: nat :| i < |order| && order[i] == f;
    i
  }

  lemma RankFalls(order: seq<Ident>, bodies: Bodies, inlines: set<Ident>, f: Ident, g: Ident)
    requires Descends(order, bodies, inlines) && NoRepeats(order)
    requires f in order && f in inlines && g in Edges(bodies, f)
    ensures g in order && Rank(order, g) < Rank(order, f)
  {
    assert g in order[..Rank(order, f)];
    var j :| 0 <= j < Rank(order, f) && order[j] == g;
  }

  /** An accepted program has no cycle among its inline functions. */
  lemma {:induction false} AcceptedMeansNoInlineCycle(order: seq<Ident>, bodies: Bodies, inlines: set<Ident>, p: seq<Ident>)
    requires Descends(order, bodies, inlines) && NoRepeats(order) && (forall f | f in inlines :: f in order)
    requires forall f | f in p :: f in inlines
    ensures !Cycle(bodies, p)
  {
    if Cycle(bodies, p) {
      RankAlong(order, bodies, inlines, p, |p| - 1);
    }
  }

  lemma {:induction false} RankAlong(order: seq<Ident>, bodies: Bodies, inlines: set<Ident>, p: seq<Ident>, n: nat)
    requires Descends(order, bodies, inlines) && NoRepeats(order) && (forall f | f in inlines :: f in order)
    requires (forall f | f in p :: f in inlines) && Walk(bodies, p) && 0 < n < |p|
    ensures p[0] in order && p[n] in order && Rank(order, p[n]) < Rank(order, p[0])
  {
    assert p[0] in inlines && p[n] in inlines && p[n - 1] in inlines;
    RankFalls(order, bodies, inlines, p[n - 1], p[n]);
    if n > 1 {
      RankAlong(order, bodies, inlines, p, n - 1);
    }
  }

  /** What a finishing order that covers the inline functions rules out. */
  lemma FinishedMeansAcyclic(order: seq<Ident>, bodies: Bodies, inlines: set<Ident>)
    requires inlines <= bodies.Keys && Descends(order, bodies, Covered(bodies, inlines)) && NoRepeats(order)
    requires forall f | f in inlines :: f in order
    ensures forall p: seq<Ident> | (forall f | f in p :: f in inlines) :: !Cycle(bodies, p)
    ensures RealAcyclic(bodies, inlines) ==> InlineAcyclic(bodies, inlines)
  {
    assert inlines <= Covered(bodies, inlines);
    forall p: seq<Ident> | forall f | f in p :: f in inlines
      ensures !Cycle(bodies, p)
    {
      AcceptedMeansNoInlineCycle(order, bodies, inlines, p);
    }
    if RealAcyclic(bodies, inlines) {
      forall p: seq<Ident>
        ensures !Cycle(bodies, p)
      {
        NoCycleLeft(order, bodies, inlines, p);
      }
    }
  }

  lemma NoCycleLeft(order: seq<Ident>, bodies: Bodies, inlines: set<Ident>, p: seq<Ident>)
    requires RealAcyclic(bodies, inlines)
    requires Descends(order, bodies, bodies.Keys) && NoRepeats(order) && (forall f | f in inlines :: f in order)
    ensures !Cycle(bodies, p)
  {
    if Cycle(bodies, p) {
      CycleIsFinished(order, bodies, inlines, p);
      AcceptedMeansNoInlineCycle(order, bodies, (set f | f in order), p);
    }
  }

  /** Past a finished function everything on a walk is finished, and a cycle comes round. */
  lemma CycleIsFinished(order: seq<Ident>, bodies: Bodies, inlines: set<Ident>, p: seq<Ident>)
    requires Descends(order, bodies, bodies.Keys) && (forall f | f in inlines :: f in order)
    requires Cycle(bodies, p) && Hits(p, inlines)
    ensures forall f | f in p :: f in order
  {
    var f :| f in p && f in inlines;
    var i :| 0 <= i < |p| && p[i] == f;
    WalkIsFinished(order, bodies, p, i, |p| - 1);
    forall j | 0 <= j < |p|
      ensures p[j] in order
    {
      WalkIsFinished(order, bodies, p, 0, j);
    }
  }

  lemma {:induction false} WalkIsFinished(order: seq<Ident>, bodies: Bodies, p: seq<Ident>, i: nat, j: nat)
    requires Descends(order, bodies, bodies.Keys) && Walk(bodies, p) && i <= j < |p| && p[i] in order
    ensures p[j] in order
  {
    if i < j {
      WalkIsFinished(order, bodies, p, i, j - 1);
      assert p[j] in Edges(bodies, p[j - 1]);
      var k :| 0 <= k < |order| && order[k] == p[j - 1];
      assert p[j] in order[..k];
    }
  }

  // ----- a cycle that slips through -----

  /** Inline `x` and `a`, real `r` and `s`. */
  const SLIPPING: Bodies :=
    map["x" := [CallOf("r")], "r" := [CallOf("s"), CallOf("a")], "s" := [CallOf("r")], "a" := [CallOf("s")]]

  const SLIPPING_CALLS: Calls := map["x" := ["r"], "r" := ["s", "a"], "s" := ["r"], "a" := ["s"]]

  /** With a cycle among real functions the search can accept a cycle through an inline one:
      from `x` it meets `r -> s -> r`, lets it pass and finishes `s`; when inline `a` calls `s`
      that is already done, and `a -> s -> r -> a` is never seen. */
  lemma MixedCycleSlips()
    ensures Lists(SLIPPING_CALLS, SLIPPING) && Known(SLIPPING_CALLS)
    ensures Accepts(SLIPPING_CALLS, {"x", "a"}, ["x", "a"])
    ensures Cycle(SLIPPING, ["a", "s", "r", "a"]) && Hits(["a", "s", "r", "a"], {"x", "a"})
  {
    SlippingEdges();
    assert "a" in ["a", "s", "r", "a"];
    var calls, inlines := SLIPPING_CALLS, {"x", "a"};
    var last := SlipsFrom(calls, inlines, map[]);
    TwoCalls(calls, inlines, map[], [], [], "x", "a");
  }

  lemma SlipsFrom(calls: Calls, inlines: set<Ident>, c: map<Ident, Color>) returns (last: map<Ident, Color>)
    requires Known(calls) && calls == SLIPPING_CALLS && inlines == {"x", "a"} && c == map[]
    ensures Search(calls, inlines, c, [], [], "x") == Clear(last, ["s", "a", "r", "x"])
    ensures "a" in last && last["a"] == Black
  {
    var path: seq<Ident> := [] + ["x"];
    var after := SlipsBelow(calls, inlines, c["x" := Gray]["r" := Gray]);
    assert path + ["r"] == ["x", "r"];
    assert ["s", "a"] + ["r"] == ["s", "a", "r"] && ["s", "a", "r"] + ["x"] == ["s", "a", "r", "x"];
    assert Search(calls, inlines, c["x" := Gray], [], path, "r") == Clear(after["r" := Black], ["s", "a", "r"]);
    OneCallee(calls, inlines, c, [], [], "x", "r");
    last := after["r" := Black]["x" := Black];
  }

  lemma TwoCalls(calls: Calls, inlines: set<Ident>, c: map<Ident, Color>, fs: seq<Ident>, path: seq<Ident>, f: Ident, g: Ident)
    requires Known(calls) && f in calls && g in calls
    ensures var r := Search(calls, inlines, c, fs, path, f);
            r.Clear? ==>
              SearchAll(calls, inlines, c, fs, path, [f, g]) == Search(calls, inlines, r.color, r.finished, path, g)
  {
    var r, two := Search(calls, inlines, c, fs, path, f), [f, g];
    if r.Clear? {
      assert two[1..] == [g] && [g][1..] == [];
      var r2 := Search(calls, inlines, r.color, r.finished, path, g);
      assert SearchAll(calls, inlines, r.color, r.finished, path, [g]) == r2;
    }
  }

  /** The visits `r` makes: `s`, which meets `r` again, and `a`, which meets `s` finished. */
  lemma SlipsBelow(calls: Calls, inlines: set<Ident>, c: map<Ident, Color>) returns (after: map<Ident, Color>)
    requires Known(calls) && calls == SLIPPING_CALLS && inlines == {"x", "a"}
    requires c.Keys == {"x", "r"} && c["r"] == Gray
    ensures SearchAll(calls, inlines, c, [], ["x", "r"], ["s", "a"]) == Clear(after, ["s", "a"])
    ensures "a" in after && after["a"] == Black
  {
    var path: seq<Ident> := ["x", "r"];
    MeetsR(calls, inlines, c["s" := Gray]);
    assert path + ["s"] == ["x", "r", "s"];
    OneCallee(calls, inlines, c, [], path, "s", "r");
    var c1 := c["s" := Gray]["s" := Black];
    assert Search(calls, inlines, c, [], path, "s") == Clear(c1, ["s"]);
    OneCallee(calls, inlines, c1, ["s"], path, "a", "s");
    after := c1["a" := Gray]["a" := Black];
    assert Search(calls, inlines, c1, ["s"], path, "a") == Clear(after, ["s", "a"]);
    TwoCalls(calls, inlines, c, [], path, "s", "a");
  }

  /** `r` again, while it is on the path: only real functions between. */
  lemma MeetsR(calls: Calls, inlines: set<Ident>, c: map<Ident, Color>)
    requires Known(calls) && "r" in calls && inlines == {"x", "a"} && "r" in c && c["r"] == Gray
    ensures Search(calls, inlines, c, [], ["x", "r", "s"], "r") == Clear(c, [])
  {
    var path: seq<Ident> := ["x", "r", "s"];
    assert path[1..] == ["r", "s"] && IndexOf(path[1..], "r") == 0;
    assert Closed(path, "r") == ["r", "s", "r"];
  }

  /** A first visit to a function that calls one other. */
  lemma OneCallee(calls: Calls, inlines: set<Ident>, c: map<Ident, Color>, fs: seq<Ident>, path: seq<Ident>, f: Ident, g: Ident)
    requires Known(calls) && f in calls && calls[f] == [g] && g in calls && f !in c
    ensures var below := Search(calls, inlines, c[f := Gray], fs, path + [f], g);
            below.Clear? ==> Search(calls, inlines, c, fs, path, f) == Clear(below.color[f := Black], below.finished + [f])
  {
    var below := Search(calls, inlines, c[f := Gray], fs, path + [f], g);
    if below.Clear? {
      assert calls[f][0] == g && calls[f][1..] == [];
      assert SearchAll(calls, inlines, below.color, below.finished, path + [f], []) == below;
      assert SearchAll(calls, inlines, c[f := Gray], fs, path + [f], calls[f]) == below;
    }
  }

  function CallOf(f: Ident): Stmt {
    Eff(Call(f, []))
  }

  lemma OneCall(f: Ident)
    ensures CalleesIn([CallOf(f)]) == {f} && StmtCallees(CallOf(f)) == {f}
  {
    assert Callees(Call(f, [])) == {f};
  }

  lemma SlippingEdges()
    ensures Lists(SLIPPING_CALLS, SLIPPING)
    ensures Edges(SLIPPING, "x") == {"r"} && Edges(SLIPPING, "r") == {"s", "a"}
    ensures Edges(SLIPPING, "s") == {"r"} && Edges(SLIPPING, "a") == {"s"}
  {
    OneCall("r");
    OneCall("s");
    OneCall("a");
    assert [CallOf("s"), CallOf("a")][1..] == [CallOf("a")];
    assert Edges(SLIPPING, "x") == {"r"} && Edges(SLIPPING, "r") == {"s", "a"};
    assert Edges(SLIPPING, "s") == {"r"} && Edges(SLIPPING, "a") == {"s"};
  }
}
