/** Memory slots for local variables: a scope's slots are handed back when it closes, and a
    new variable takes a handed-back slot before a fresh one. */
module Slots {
  import opened Arith

  /** `slot` is -1 for a parameter, which lives on the stack. */
  datatype Variable = Variable(name: string, slot: int, scalar: bool)

  /** The slots of one kind: those handed back, the next fresh one, and the high-water mark. */
  datatype Pool = Pool(free: seq<nat>, next: nat, max: nat)

  /** Scopes from the outermost in; a scope's variables in order of declaration. */
  datatype State = State(scopes: seq<seq<Variable>>, value: Pool, heap: Pool)

  datatype Op = Push | Pop | Declare(name: string, scalar: bool, isParam: bool)

  datatype Error = ReservedName | AlreadyDeclared | CannotPopGlobal

  datatype Step = Next(s: State) | Failed(error: Error)

  const START := State([[]], Pool([], 0, 0), Pool([], 0, 0))

  function PoolOf(s: State, scalar: bool): Pool {
    if scalar then s.value else s.heap
  }

  /** The slot a pool gives out, and the pool without it. */
  function Take(p: Pool): (nat, Pool) {
    var n := |p.free|;
    var slot := if n > 0 then p.free[n - 1] else p.next;
    (slot,
     Pool(if n > 0 then p.free[..n - 1] else [], if n > 0 then p.next else p.next + 1,
          if slot + 1 > p.max then slot + 1 else p.max))
  }

  function SlotsOf(vs: seq<Variable>, scalar: bool): seq<nat> {
    if vs == [] then []
    else
      var n := |vs| - 1;
      SlotsOf(vs[..n], scalar) + if vs[n].scalar == scalar && vs[n].slot >= 0 then [vs[n].slot] else []
  }

  predicate Declares(vs: seq<Variable>, name: string) {
    exists i | 0 <= i < |vs| :: vs[i].name == name
  }

  function Apply(s: State, op: Op, reserved: set<string>): Step
    requires s.scopes != []
  {
    var top := |s.scopes| - 1;
    match op
    case Push => Next(s.(scopes := s.scopes + [[]]))
    case Pop =>
      if top == 0 then Failed(CannotPopGlobal)
      else
        var vs := s.scopes[top];
        Next(State(s.scopes[..top],
                   s.value.(free := s.value.free + SlotsOf(vs, true)),
                   s.heap.(free := s.heap.free + SlotsOf(vs, false))))
    case Declare(name, scalar, isParam) =>
      if name in reserved then Failed(ReservedName)
      else if Declares(s.scopes[top], name) then Failed(AlreadyDeclared)
      else
        var (slot, p) := Take(PoolOf(s, scalar));
        var v := Variable(name, if isParam then -1 else slot, scalar);
        var scopes := s.scopes[top := s.scopes[top] + [v]];
        if isParam then Next(s.(scopes := scopes))
        else if scalar then Next(s.(scopes := scopes, value := p))
        else Next(s.(scopes := scopes, heap := p))
  }

  /** Innermost scope first. */
  function Lookup(scopes: seq<seq<Variable>>, name: string): Option<Variable> {
    if scopes == [] then None
    else
      var top := |scopes| - 1;
      match Find(scopes[top], name)
      case Some(v) => Some(v)
      case None => Lookup(scopes[..top], name)
  }

  function Find(vs: seq<Variable>, name: string): Option<Variable> {
    if vs == [] then None else if vs[0].name == name then Some(vs[0]) else Find(vs[1..], name)
  }

  /** `v` stands under the name in scope `i`, and no deeper scope has the name. */
  ghost predicate StandsAt(scopes: seq<seq<Variable>>, name: string, v: Variable, i: int) {
    && 0 <= i < |scopes| && v in scopes[i] && v.name == name
    && forall k | i < k < |scopes| :: !Declares(scopes[k], name)
  }

  lemma {:induction false} FindIn(vs: seq<Variable>, name: string)
    ensures Find(vs, name) == None <==> !Declares(vs, name)
    ensures Find(vs, name).Some? ==> Find(vs, name).value in vs && Find(vs, name).value.name == name
  {
    if vs != [] {
      FindIn(vs[1..], name);
      assert forall i | 1 <= i < |vs| :: vs[i] == vs[1..][i - 1];
    }
  }

  /** What is found stands in the innermost scope that has the name; nothing exactly when none
      has it. */
  lemma {:induction false} LookupInnermost(scopes: seq<seq<Variable>>, name: string)
    ensures Lookup(scopes, name) == None <==> forall i | 0 <= i < |scopes| :: !Declares(scopes[i], name)
    ensures Lookup(scopes, name).Some? ==> exists i :: StandsAt(scopes, name, Lookup(scopes, name).value, i)
  {
    if scopes != [] {
      var top := |scopes| - 1;
      FindIn(scopes[top], name);
      if Find(scopes[top], name).Some? {
        assert StandsAt(scopes, name, Lookup(scopes, name).value, top);
      } else {
        LookupInnermost(scopes[..top], name);
        if Lookup(scopes[..top], name).Some? {
          var v := Lookup(scopes, name).value;
          var i :| StandsAt(scopes[..top], name, v, i);
          assert StandsAt(scopes, name, v, i);
        }
      }
    }
  }

  // ----- the allocator as it runs -----

  class Context {
    const reserved: set<string>
    var scopes: seq<seq<Variable>>
    var freeValueSlots: seq<nat>
    var freeHeapSlots: seq<nat>
    var nextValueSlot: nat
    var nextHeapSlot: nat
    var maxValueSlot: nat
    var maxHeapSlot: nat

    ghost function Abs(): State
      reads this
    {
      State(scopes, Pool(freeValueSlots, nextValueSlot, maxValueSlot), Pool(freeHeapSlots, nextHeapSlot, maxHeapSlot))
    }

    constructor (reserved: set<string>)
      ensures Abs() == START && this.reserved == reserved
    {
      this.reserved := reserved;
      scopes := [[]];
      freeValueSlots, nextValueSlot, maxValueSlot := [], 0, 0;
      freeHeapSlots, nextHeapSlot, maxHeapSlot := [], 0, 0;
    }

    method PushScope()
      requires scopes != []
      modifies this
      ensures Next(Abs()) == Apply(old(Abs()), Push, reserved)
    {
      scopes := scopes + [[]];
    }

    method PopScope() returns (error: Option<Error>)
      requires scopes != []
      modifies this
      ensures match Apply(old(Abs()), Pop, reserved)
              case Next(s) => error == None && Abs() == s
              case Failed(e) => error == Some(e) && Abs() == old(Abs())
    {
      if |scopes| <= 1 {
        return Some(CannotPopGlobal);
      }
      var top := |scopes| - 1;
      var vs := scopes[top];
      scopes := scopes[..top];
      ghost var value, heap := freeValueSlots, freeHeapSlots;
      var i := 0;
      assert vs[..0] == [];
      while i < |vs|
        invariant 0 <= i <= |vs| && scopes == old(scopes)[..top]
        invariant freeValueSlots == value + SlotsOf(vs[..i], true)
        invariant freeHeapSlots == heap + SlotsOf(vs[..i], false)
        invariant nextValueSlot == old(nextValueSlot) && maxValueSlot == old(maxValueSlot)
        invariant nextHeapSlot == old(nextHeapSlot) && maxHeapSlot == old(maxHeapSlot)
      {
        assert vs[..i + 1][..i] == vs[..i];
        if vs[i].slot >= 0 {
          if vs[i].scalar {
            freeValueSlots := freeValueSlots + [vs[i].slot];
          } else {
            freeHeapSlots := freeHeapSlots + [vs[i].slot];
          }
        }
        i := i + 1;
      }
      assert vs[..i] == vs;
      return None;
    }

    method SetVar(name: string, scalar: bool, isParam: bool) returns (error: Option<Error>)
      requires scopes != []
      modifies this
      ensures match Apply(old(Abs()), Declare(name, scalar, isParam), reserved)
              case Next(s) => error == None && Abs() == s
              case Failed(e) => error == Some(e) && Abs() == old(Abs())
    {
      if name in reserved {
        return Some(ReservedName);
      }
      var top := |scopes| - 1;
      if Declares(scopes[top], name) {
        return Some(AlreadyDeclared);
      }
      var slot := -1;
      if !isParam {
        if scalar {
          if |freeValueSlots| > 0 {
            slot := freeValueSlots[|freeValueSlots| - 1];
            freeValueSlots := freeValueSlots[..|freeValueSlots| - 1];
          } else {
            slot := nextValueSlot;
            nextValueSlot := nextValueSlot + 1;
          }
          if slot + 1 > maxValueSlot {
            maxValueSlot := slot + 1;
          }
        } else {
          if |freeHeapSlots| > 0 {
            slot := freeHeapSlots[|freeHeapSlots| - 1];
            freeHeapSlots := freeHeapSlots[..|freeHeapSlots| - 1];
          } else {
            slot := nextHeapSlot;
            nextHeapSlot := nextHeapSlot + 1;
          }
          if slot + 1 > maxHeapSlot {
            maxHeapSlot := slot + 1;
          }
        }
      }
      scopes := scopes[top := scopes[top] + [Variable(name, slot, scalar)]];
      return None;
    }

    method GetVar(name: string) returns (v: Option<Variable>)
      ensures v == Lookup(scopes, name)
      ensures v == None <==> forall i | 0 <= i < |scopes| :: !Declares(scopes[i], name)
      ensures v.Some? ==> exists i :: StandsAt(scopes, name, v.value, i)
    {
      LookupInnermost(scopes, name);
      var i := |scopes|;
      assert scopes[..i] == scopes;
      while i > 0
        invariant 0 <= i <= |scopes| && Lookup(scopes, name) == Lookup(scopes[..i], name)
      {
        i := i - 1;
        assert scopes[..i + 1][..i] == scopes[..i];
        v := Find(scopes[i], name);
        if v.Some? {
          return v;
        }
      }
      return None;
    }
  }

  // ----- what every run keeps -----

  /** The slots of variables in scope, shadowed ones included. */
  function Live(scopes: seq<seq<Variable>>, scalar: bool): seq<nat> {
    if scopes == [] then []
    else
      var n := |scopes| - 1;
      Live(scopes[..n], scalar) + SlotsOf(scopes[n], scalar)
  }

  function Both(live: seq<nat>, free: seq<nat>): multiset<nat> {
    multiset(live) + multiset(free)
  }

  /** Live and free slots share [0, next) out between them, each slot once. */
  ghost predicate Partition(live: seq<nat>, p: Pool) {
    && (forall x | x in Both(live, p.free) :: x < p.next && Both(live, p.free)[x] == 1)
    && |live| + |p.free| == p.next
    && p.max == p.next
  }

  ghost predicate Distinct(s: seq<nat>) {
    forall i, j | 0 <= i < j < |s| :: s[i] != s[j]
  }

  lemma {:induction false} OnceDistinct(s: seq<nat>)
    requires forall x | x in s :: multiset(s)[x] <= 1
    ensures Distinct(s)
  {
    if s != [] {
      var n := |s| - 1;
      assert s == s[..n] + [s[n]];
      assert multiset(s) == multiset(s[..n]) + multiset{s[n]};
      forall x | x in s[..n]
        ensures multiset(s[..n])[x] <= 1 && x != s[n]
      {
        assert x in s && x in multiset(s[..n]);
      }
      OnceDistinct(s[..n]);
      forall i | 0 <= i < n
        ensures s[i] == s[..n][i] && s[i] != s[n]
      {
        assert s[..n][i] in s[..n];
      }
    }
  }

  lemma LiveDistinct(live: seq<nat>, p: Pool)
    requires Partition(live, p)
    ensures Distinct(live) && forall x | x in live :: x < p.next && x !in p.free
  {
    forall x | x in live
      ensures multiset(live)[x] <= 1 && x < p.next && x !in p.free
    {
      assert x in multiset(live) && x in Both(live, p.free);
      assert multiset(live)[x] + multiset(p.free)[x] == 1;
      assert multiset(p.free)[x] == 0;
    }
    OnceDistinct(live);
  }

  lemma TakeKeepsPartition(live: seq<nat>, p: Pool)
    requires Partition(live, p)
    ensures Partition(live + [Take(p).0], Take(p).1)
    ensures Take(p).1.max == Max(p.max, |live| + 1)
  {
    var (slot, q) := Take(p);
    var n := |p.free|;
    var was, now := Both(live, p.free), Both(live + [slot], q.free);
    if n > 0 {
      assert p.free == p.free[..n - 1] + [slot];
      assert now == was;
      assert slot in was;
    } else {
      assert now == was + multiset{slot};
      assert slot !in was;
    }
  }

  lemma ReturnKeepsPartition(live: seq<nat>, back: seq<nat>, p: Pool)
    requires Partition(live + back, p)
    ensures Partition(live, p.(free := p.free + back))
  {
    assert Both(live, p.free + back) == Both(live + back, p.free);
  }

  lemma SlotsAppend(vs: seq<Variable>, v: Variable, scalar: bool)
    ensures SlotsOf(vs + [v], scalar) == SlotsOf(vs, scalar) + if v.scalar == scalar && v.slot >= 0 then [v.slot] else []
  {
    assert (vs + [v])[..|vs|] == vs;
  }

  lemma LiveTop(scopes: seq<seq<Variable>>, vs: seq<Variable>, scalar: bool)
    requires scopes != []
    ensures Live(scopes, scalar) == Live(scopes[..|scopes| - 1], scalar) + SlotsOf(scopes[|scopes| - 1], scalar)
    ensures Live(scopes[|scopes| - 1 := vs], scalar) == Live(scopes[..|scopes| - 1], scalar) + SlotsOf(vs, scalar)
    ensures Live(scopes + [[]], scalar) == Live(scopes, scalar)
  {
    var n := |scopes| - 1;
    assert scopes[n := vs][..n] == scopes[..n];
    assert (scopes + [[]])[..n + 1] == scopes;
    assert Live(scopes, scalar) + [] == Live(scopes, scalar);
  }

  /** A state whose slots of one kind are in order. */
  ghost predicate InOrder(s: State, scalar: bool) {
    s.scopes != [] && Partition(Live(s.scopes, scalar), PoolOf(s, scalar))
  }

  lemma PopKeeps(s: State, reserved: set<string>, scalar: bool)
    requires InOrder(s, scalar) && Apply(s, Pop, reserved).Next?
    ensures var t := Apply(s, Pop, reserved).s;
            InOrder(t, scalar) && PoolOf(t, scalar).max == Max(PoolOf(s, scalar).max, |Live(t.scopes, scalar)|)
  {
    var top := |s.scopes| - 1;
    LiveTop(s.scopes, s.scopes[top], scalar);
    ReturnKeepsPartition(Live(s.scopes[..top], scalar), SlotsOf(s.scopes[top], scalar), PoolOf(s, scalar));
  }

  lemma DeclareLive(scopes: seq<seq<Variable>>, v: Variable, scalar: bool)
    requires scopes != []
    ensures var top := |scopes| - 1;
            Live(scopes[top := scopes[top] + [v]], scalar) ==
            Live(scopes, scalar) + if v.scalar == scalar && v.slot >= 0 then [v.slot] else []
  {
    var top := |scopes| - 1;
    LiveTop(scopes, scopes[top] + [v], scalar);
    SlotsAppend(scopes[top], v, scalar);
  }

  lemma DeclareKeeps(s: State, name: string, kind: bool, isParam: bool, reserved: set<string>, scalar: bool)
    requires InOrder(s, scalar) && Apply(s, Declare(name, kind, isParam), reserved).Next?
    ensures var t := Apply(s, Declare(name, kind, isParam), reserved).s;
            InOrder(t, scalar) && PoolOf(t, scalar).max == Max(PoolOf(s, scalar).max, |Live(t.scopes, scalar)|)
  {
    var live, p := Live(s.scopes, scalar), PoolOf(s, scalar);
    var t := Apply(s, Declare(name, kind, isParam), reserved).s;
    DeclareLive(s.scopes, Variable(name, if isParam then -1 else Take(PoolOf(s, kind)).0, kind), scalar);
    if !isParam && kind == scalar {
      TakeKeepsPartition(live, p);
      assert Live(t.scopes, scalar) == live + [Take(p).0] && PoolOf(t, scalar) == Take(p).1;
    } else {
      assert Live(t.scopes, scalar) == live && PoolOf(t, scalar) == p;
    }
  }

  lemma PushKeeps(s: State, scalar: bool)
    requires InOrder(s, scalar)
    ensures var t := s.(scopes := s.scopes + [[]]);
            InOrder(t, scalar) && PoolOf(t, scalar).max == Max(PoolOf(s, scalar).max, |Live(t.scopes, scalar)|)
  {
    LiveTop(s.scopes, s.scopes[|s.scopes| - 1], scalar);
  }

  lemma StepKeeps(s: State, op: Op, reserved: set<string>, scalar: bool)
    requires InOrder(s, scalar) && Apply(s, op, reserved).Next?
    ensures var t := Apply(s, op, reserved).s;
            InOrder(t, scalar) && PoolOf(t, scalar).max == Max(PoolOf(s, scalar).max, |Live(t.scopes, scalar)|)
  {
    match op
    case Push => PushKeeps(s, scalar);
    case Pop => PopKeeps(s, reserved, scalar);
    case Declare(name, kind, isParam) => DeclareKeeps(s, name, kind, isParam, reserved, scalar);
  }

  function Max(a: nat, b: nat): nat {
    if a > b then a else b
  }

  /** Every operation succeeds in turn. */
  function Run(ops: seq<Op>, reserved: set<string>): (r: Step)
    ensures r.Next? ==> r.s.scopes != []
  {
    if ops == [] then Next(START)
    else
      match Run(ops[..|ops| - 1], reserved)
      case Failed(e) => Failed(e)
      case Next(s) =>
        ApplyKeepsScopes(s, ops[|ops| - 1], reserved);
        Apply(s, ops[|ops| - 1], reserved)
  }

  lemma ApplyKeepsScopes(s: State, op: Op, reserved: set<string>)
    requires s.scopes != []
    ensures Apply(s, op, reserved).Next? ==> Apply(s, op, reserved).s.scopes != []
  {
  }

  /** The most variables of a kind ever live at once in a run. */
  function Peak(ops: seq<Op>, reserved: set<string>, scalar: bool): nat
    requires Run(ops, reserved).Next?
  {
    if ops == [] then 0
    else Max(Peak(ops[..|ops| - 1], reserved, scalar), |Live(Run(ops, reserved).s.scopes, scalar)|)
  }

  /** In every run: live variables never share a slot, even when names shadow; free and live
      slots share out [0, high water) with nothing lost; and the high-water mark is the most
      variables ever live at once, so no allocator could do with fewer slots. */
  lemma {:induction false} AllocationIsOptimal(ops: seq<Op>, reserved: set<string>, scalar: bool)
    requires Run(ops, reserved).Next?
    ensures var s := Run(ops, reserved).s;
            && Partition(Live(s.scopes, scalar), PoolOf(s, scalar)) && Distinct(Live(s.scopes, scalar))
            && PoolOf(s, scalar).max == Peak(ops, reserved, scalar)
  {
    if ops == [] {
      LiveTop(START.scopes, [], scalar);
    } else {
      var n := |ops| - 1;
      AllocationIsOptimal(ops[..n], reserved, scalar);
      StepKeeps(Run(ops[..n], reserved).s, ops[n], reserved, scalar);
      LiveDistinct(Live(Run(ops, reserved).s.scopes, scalar), PoolOf(Run(ops, reserved).s, scalar));
    }
  }

  /** At some point of the run a variable has this slot. */
  ghost predicate UsesSlot(ops: seq<Op>, n: nat, slot: nat, reserved: set<string>, scalar: bool) {
    n <= |ops| && Run(ops[..n], reserved).Next? && slot in Live(Run(ops[..n], reserved).s.scopes, scalar)
  }

  lemma {:induction false} PrefixRuns(ops: seq<Op>, n: nat, reserved: set<string>, scalar: bool)
    requires n <= |ops| && Run(ops, reserved).Next?
    ensures Run(ops[..n], reserved).Next? && Peak(ops[..n], reserved, scalar) <= Peak(ops, reserved, scalar)
  {
    if n < |ops| {
      var m := |ops| - 1;
      PrefixRuns(ops[..m], n, reserved, scalar);
      assert ops[..m][..n] == ops[..n];
    } else {
      assert ops[..n] == ops;
    }
  }

  /** Slot `k` gets used in a run exactly when more than `k` variables of the kind are live at
      once at some point of it. */
  lemma SlotUsedIffPeakExceeds(ops: seq<Op>, k: nat, reserved: set<string>, scalar: bool)
    requires Run(ops, reserved).Next?
    ensures (exists n: nat :: UsesSlot(ops, n, k, reserved, scalar)) <==> Peak(ops, reserved, scalar) > k
  {
    if n: nat :| UsesSlot(ops, n, k, reserved, scalar) {
      PrefixRuns(ops, n, reserved, scalar);
      AllocationIsOptimal(ops[..n], reserved, scalar);
      var s := Run(ops[..n], reserved).s;
      LiveDistinct(Live(s.scopes, scalar), PoolOf(s, scalar));
    }
    if Peak(ops, reserved, scalar) > k {
      var n := PeakUses(ops, k, reserved, scalar);
    }
  }

  lemma {:induction false} PeakUses(ops: seq<Op>, k: nat, reserved: set<string>, scalar: bool) returns (n: nat)
    requires Run(ops, reserved).Next? && Peak(ops, reserved, scalar) > k
    ensures UsesSlot(ops, n, k, reserved, scalar)
  {
    var m := |ops| - 1;
    if Peak(ops[..m], reserved, scalar) > k {
      n := PeakUses(ops[..m], k, reserved, scalar);
      assert ops[..m][..n] == ops[..n];
    } else {
      n := |ops|;
      assert ops[..n] == ops;
      AllocationIsOptimal(ops, reserved, scalar);
      var s := Run(ops, reserved).s;
      LiveDistinct(Live(s.scopes, scalar), PoolOf(s, scalar));
      AllTaken(Live(s.scopes, scalar), PoolOf(s, scalar).next, k);
    }
  }

  /** So every slot index fits its byte exactly as long as at most 256 variables of a kind are
      ever live at once. */
  lemma SlotsFitAByte(ops: seq<Op>, reserved: set<string>, scalar: bool)
    requires Run(ops, reserved).Next?
    ensures (exists n: nat :: UsesSlot(ops, n, 256, reserved, scalar)) <==> Peak(ops, reserved, scalar) > 256
    ensures Peak(ops, reserved, scalar) <= 256 ==>
              forall n: nat, slot | UsesSlot(ops, n, slot, reserved, scalar) :: slot < 256
  {
    SlotUsedIffPeakExceeds(ops, 256, reserved, scalar);
    forall n: nat, slot | UsesSlot(ops, n, slot, reserved, scalar)
      ensures Peak(ops, reserved, scalar) > slot
    {
      SlotUsedIffPeakExceeds(ops, slot, reserved, scalar);
    }
  }

  function NthName(i: nat): string {
    seq(i, _ => 'v')
  }

  /** `n` declarations in one scope. */
  function Many(n: nat, scalar: bool): seq<Op> {
    if n == 0 then [] else Many(n - 1, scalar) + [Declare(NthName(n - 1), scalar, false)]
  }

  function ManyVars(n: nat, scalar: bool): seq<Variable> {
    if n == 0 then [] else ManyVars(n - 1, scalar) + [Variable(NthName(n - 1), n - 1, scalar)]
  }

  lemma {:induction false} NamesDiffer(n: nat, name: string, scalar: bool)
    requires |name| >= n
    ensures !Declares(ManyVars(n, scalar), name)
  {
    if n > 0 {
      NamesDiffer(n - 1, name, scalar);
      assert |NthName(n - 1)| == n - 1;
    }
  }

  lemma RunOneMore(ops: seq<Op>, op: Op, reserved: set<string>)
    requires Run(ops, reserved).Next?
    ensures Run(ops + [op], reserved) == Apply(Run(ops, reserved).s, op, reserved)
  {
    var more := ops + [op];
    assert more[..|more| - 1] == ops && more[|more| - 1] == op;
  }

  lemma {:induction false} ManyDeclared(n: nat, scalar: bool)
    ensures var r := Run(Many(n, scalar), {});
            r.Next? && r.s.scopes == [ManyVars(n, scalar)] && PoolOf(r.s, scalar) == Pool([], n, n)
  {
    if n > 0 {
      ManyDeclared(n - 1, scalar);
      NamesDiffer(n - 1, NthName(n - 1), scalar);
      DeclaredNext(Many(n - 1, scalar), ManyVars(n - 1, scalar), NthName(n - 1), n - 1, scalar);
    }
  }

  lemma DeclaredNext(ops: seq<Op>, vs: seq<Variable>, name: string, n: nat, scalar: bool)
    requires Run(ops, {}).Next? && Run(ops, {}).s.scopes == [vs] && PoolOf(Run(ops, {}).s, scalar) == Pool([], n, n)
    requires !Declares(vs, name)
    ensures var r := Run(ops + [Declare(name, scalar, false)], {});
            r.Next? && r.s.scopes == [vs + [Variable(name, n, scalar)]] && PoolOf(r.s, scalar) == Pool([], n + 1, n + 1)
  {
    RunOneMore(ops, Declare(name, scalar, false), {});
    OneMoreDeclared(Run(ops, {}).s, vs, name, n, scalar);
  }

  lemma OneMoreDeclared(s: State, vs: seq<Variable>, name: string, n: nat, scalar: bool)
    requires s.scopes == [vs] && PoolOf(s, scalar) == Pool([], n, n) && !Declares(vs, name)
    ensures var r := Apply(s, Declare(name, scalar, false), {});
            r.Next? && r.s.scopes == [vs + [Variable(name, n, scalar)]] && PoolOf(r.s, scalar) == Pool([], n + 1, n + 1)
  {
  }

  /** 257 declarations do it: the last is given slot 256. */
  lemma SlotOverrun(scalar: bool)
    ensures Run(Many(257, scalar), {}).Next? && Peak(Many(257, scalar), {}, scalar) == 257
    ensures 256 in Live(Run(Many(257, scalar), {}).s.scopes, scalar)
  {
    ManyDeclared(257, scalar);
    var ops := Many(257, scalar);
    AllocationIsOptimal(ops, {}, scalar);
    var s := Run(ops, {}).s;
    LiveDistinct(Live(s.scopes, scalar), PoolOf(s, scalar));
    AllTaken(Live(s.scopes, scalar), 257, 256);
  }

  function UpTo(n: nat): (r: set<nat>)
    ensures |r| == n && forall k: nat :: k in r <==> k < n
  {
    if n == 0 then {} else UpTo(n - 1) + {n - 1}
  }

  function Elems(s: seq<nat>): set<nat> {
    set x | x in s
  }

  lemma {:induction false} DistinctCard(s: seq<nat>)
    requires Distinct(s)
    ensures |Elems(s)| == |s|
  {
    if s != [] {
      var n := |s| - 1;
      DistinctCard(s[..n]);
      assert s[n] !in s[..n];
      assert Elems(s) == Elems(s[..n]) + {s[n]} by {
        assert s == s[..n] + [s[n]];
      }
    }
  }

  lemma AllTaken(s: seq<nat>, n: nat, x: nat)
    requires Distinct(s) && |s| == n && (forall y | y in s :: y < n) && x < n
    ensures x in s
  {
    DistinctCard(s);
    assert Elems(s) <= UpTo(n);
    if x !in s {
      assert Elems(s) <= UpTo(n) - {x};
      SubsetCard(Elems(s), UpTo(n) - {x});
    }
  }

  lemma {:induction false} SubsetCard(a: set<nat>, b: set<nat>)
    requires a <= b
    ensures |a| <= |b|
  {
    assert b == a + (b - a);
  }

  // ----- leaving a scope -----

  function RunFrom(s: State, ops: seq<Op>, reserved: set<string>): (r: Step)
    requires s.scopes != []
    ensures r.Next? ==> r.s.scopes != []
    decreases ops
  {
    if ops == [] then Next(s)
    else
      ApplyKeepsScopes(s, ops[0], reserved);
      match Apply(s, ops[0], reserved)
      case Failed(e) => Failed(e)
      case Next(t) => RunFrom(t, ops[1..], reserved)
  }

  /** The operations never close a scope that was open at depth `d`. */
  predicate StaysAbove(ops: seq<Op>, depth: nat, d: nat) {
    if ops == [] then true
    else
      var after := if ops[0].Push? then depth + 1 else if ops[0].Pop? then depth - 1 else depth;
      after > d && StaysAbove(ops[1..], after, d)
  }

  lemma {:induction false} OuterScopesKept(s: State, ops: seq<Op>, reserved: set<string>, d: nat)
    requires |s.scopes| > d && StaysAbove(ops, |s.scopes|, d) && RunFrom(s, ops, reserved).Next?
    ensures var t := RunFrom(s, ops, reserved).s; |t.scopes| > d && t.scopes[..d] == s.scopes[..d]
    decreases ops
  {
    if ops != [] {
      OuterScopesKept(Apply(s, ops[0], reserved).s, ops[1..], reserved, d);
    }
  }

  /** What a block declares is gone when it closes: every name means what it meant before. */
  lemma BlockRestoresNames(s: State, body: seq<Op>, reserved: set<string>, name: string)
    requires s.scopes != [] && StaysAbove(body, |s.scopes| + 1, |s.scopes|)
    requires var entered := Apply(s, Push, reserved).s;
             RunFrom(entered, body, reserved).Next? && |RunFrom(entered, body, reserved).s.scopes| == |s.scopes| + 1
    ensures var inner := RunFrom(Apply(s, Push, reserved).s, body, reserved).s;
            var closed := Apply(inner, Pop, reserved);
            closed.Next? && closed.s.scopes == s.scopes && Lookup(closed.s.scopes, name) == Lookup(s.scopes, name)
  {
    var entered := Apply(s, Push, reserved).s;
    OuterScopesKept(entered, body, reserved, |s.scopes|);
    assert entered.scopes[..|s.scopes|] == s.scopes;
  }
}
