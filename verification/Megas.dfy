/** The split-swap program the router emits: three counter loops over transient storage,
    where pool `i` keeps its buckets at key `i`, its output so far at `N + i` and its next
    marginal at `2N + i`. Amounts are unbounded integers. */
module Megas {
  import opened Arith
  import opened Greedy

  datatype MegasError = NoCandidates | TooFewBuckets | NotDivisible | EmptyBucket

  /** A request the builder accepts, and the bucket size it then uses. */
  function Bucket(candidates: nat, amountIn: nat, n: int): (r: (Option<MegasError>, nat))
    ensures r.0 == None ==> candidates > 0 && n >= 1 && r.1 > 0 && r.1 * n == amountIn
    ensures r.0 == Some(NoCandidates) <==> candidates == 0
    ensures r.0 == Some(TooFewBuckets) <==> candidates > 0 && n < 1
    ensures r.0 == Some(NotDivisible) <==> candidates > 0 && n >= 1 && amountIn % n != 0
    ensures r.0 == Some(EmptyBucket) <==> candidates > 0 && n >= 1 && amountIn == 0
  {
    if candidates == 0 then (Some(NoCandidates), 0)
    else if n < 1 then (Some(TooFewBuckets), 0)
    else if amountIn % n != 0 then (Some(NotDivisible), 0)
    else if amountIn / n == 0 then (Some(EmptyBucket), 0)
    else (None, amountIn / n)
  }

  // ----- transient storage -----

  class Transient {
    var cells: map<int, int>

    constructor ()
      ensures cells == map[]
    {
      cells := map[];
    }

    /** A key never written reads as zero. */
    function Load(key: int): int
      reads this
    {
      if key in cells then cells[key] else 0
    }

    method Store(key: int, v: int)
      modifies this
      ensures cells == old(cells)[key := v]
    {
      cells := cells[key := v];
    }
  }

  /** The storage holds split `u`: its counts, its outputs and its next marginals. */
  ghost predicate Holds(t: Transient, u: seq<nat>, q: Quotes)
    reads t
  {
    forall i | 0 <= i < |u| :: HoldsPool(t, i, |u|, u[i], q)
  }

  predicate HoldsPool(t: Transient, i: nat, pools: nat, used: nat, q: Quotes)
    reads t
  {
    && t.Load(i) == used && t.Load(pools + i) == q(i, used)
    && t.Load(2 * pools + i) == Marginal(q, i, used)
  }

  function MarginalCell(t: Transient, pools: nat, i: nat): int
    reads t
  {
    t.Load(2 * pools + i)
  }

  /** The counts alone, whatever the other cells hold. */
  ghost predicate Counts(t: Transient, u: seq<nat>)
    reads t
  {
    forall i | 0 <= i < |u| :: t.Load(i) == u[i]
  }

  /** Nothing left over from an earlier program in the cells this one adds to. */
  ghost predicate Clean(t: Transient, pools: nat)
    reads t
  {
    forall i | 0 <= i < 2 * pools :: t.Load(i) == 0
  }

  // ----- the three loops -----

  /** Whatever the storage held, marginals are set and counts and outputs are not. */
  method InitMarginals(t: Transient, pools: nat, bucket: nat, quote: (nat, int) -> int)
    modifies t
    ensures forall i | 0 <= i < pools :: MarginalCell(t, pools, i) == quote(i, bucket)
    ensures forall key | key < 2 * pools || key >= 3 * pools :: t.Load(key) == old(t.Load(key))
  {
    var i := 0;
    while i < pools
      invariant 0 <= i <= pools
      invariant forall key | key < 2 * pools || key >= 2 * pools + i :: t.Load(key) == old(t.Load(key))
      invariant forall k | 0 <= k < i :: MarginalCell(t, pools, k) == quote(k, bucket)
    {
      t.Store(2 * pools + i, quote(i, bucket));
      i := i + 1;
    }
  }

  /** On clean storage that is the split that gives nothing to anyone. */
  lemma NothingGiven(t: Transient, pools: nat, bucket: nat, quote: (nat, int) -> int)
    requires Clean(t, pools) && forall i | 0 <= i < pools :: MarginalCell(t, pools, i) == quote(i, bucket)
    ensures Holds(t, Alone(pools, pools, 0), Payout(quote, bucket))
  {
    assert 1 * bucket == bucket;
    forall i | 0 <= i < pools
      ensures HoldsPool(t, i, pools, 0, Payout(quote, bucket))
    {
      assert t.Load(i) == 0 && t.Load(pools + i) == 0 && MarginalCell(t, pools, i) == quote(i, bucket);
    }
  }

  /** The argmax loop: strictly greater wins, so ties go to the lowest pool, and pool 0
      wins when no marginal is positive. */
  method ArgMax(t: Transient, pools: nat) returns (best: nat)
    requires pools > 0
    ensures best < pools
    ensures (forall i | 0 <= i < pools :: MarginalCell(t, pools, i) >= 0) ==>
              forall i | 0 <= i < pools :: MarginalCell(t, pools, i) <= MarginalCell(t, pools, best)
    ensures forall i | 0 <= i < best :: MarginalCell(t, pools, i) < MarginalCell(t, pools, best)
  {
    var bestMarg := 0;
    best := 0;
    var i := 0;
    while i < pools
      invariant 0 <= i <= pools && best < pools
      invariant forall j | 0 <= j < i :: MarginalCell(t, pools, j) <= bestMarg
      invariant (best == 0 && bestMarg == 0) || bestMarg == MarginalCell(t, pools, best)
      invariant forall j | 0 <= j < best :: MarginalCell(t, pools, j) < MarginalCell(t, pools, best)
    {
      var m := t.Load(2 * pools + i);
      assert m == MarginalCell(t, pools, i);
      if m > bestMarg {
        bestMarg := m;
        best := i;
      }
      i := i + 1;
    }
  }

  /** So on a split the storage holds it is the best pool, when no pool pays less for more. */
  lemma GreatestIsBest(t: Transient, u: seq<nat>, q: Quotes, best: nat)
    requires Holds(t, u, q) && Rising(q, |u|) && best < |u|
    requires (forall i | 0 <= i < |u| :: MarginalCell(t, |u|, i) >= 0) ==>
               forall i | 0 <= i < |u| :: MarginalCell(t, |u|, i) <= MarginalCell(t, |u|, best)
    requires forall i | 0 <= i < best :: MarginalCell(t, |u|, i) < MarginalCell(t, |u|, best)
    ensures FirstBest(q, u, best)
  {
    forall i | 0 <= i < |u|
      ensures MarginalCell(t, |u|, i) == Marginal(q, i, u[i])
    {
      assert HoldsPool(t, i, |u|, u[i], q);
    }
  }

  /** Gives pool `best` its next bucket. */
  method Commit(t: Transient, ghost u: seq<nat>, pools: nat, best: nat, bucket: nat, quote: (nat, int) -> int)
    requires pools == |u| && best < pools && Counts(t, u)
    modifies t
    ensures Counts(t, u[best := u[best] + 1])
    ensures old(Holds(t, u, Payout(quote, bucket))) ==> Holds(t, u[best := u[best] + 1], Payout(quote, bucket))
  {
    var used := t.Load(best) + 1;
    var out := quote(best, (used + 1) * bucket);
    Record(t, u, pools, best, out, Payout(quote, bucket));
  }

  /** `out` is what the pool pays for one bucket more than it now has. */
  method Record(t: Transient, ghost u: seq<nat>, pools: nat, best: nat, out: int, ghost q: Quotes)
    requires pools == |u| && best < pools && Counts(t, u) && out == q(best, u[best] + 2)
    modifies t
    ensures Counts(t, u[best := u[best] + 1])
    ensures old(Holds(t, u, q)) ==> Holds(t, u[best := u[best] + 1], q)
  {
    var used, total := t.Load(best) + 1, t.Load(pools + best) + t.Load(2 * pools + best);
    ghost var sound := Holds(t, u, q);
    assert sound ==> HoldsPool(t, best, pools, u[best], q);
    t.Store(best, used);
    t.Store(pools + best, total);
    t.Store(2 * pools + best, out - total);
    assert t.Load(best) == used && t.Load(pools + best) == total;
    ghost var v := u[best := u[best] + 1];
    if sound {
      forall i | 0 <= i < pools
        ensures HoldsPool(t, i, pools, v[i], q)
      {
        assert old(HoldsPool(t, i, pools, u[i], q));
      }
    }
  }

  /** The execute loop: one swap for every pool whose count is positive. */
  method Execute(t: Transient, ghost u: seq<nat>, pools: nat, bucket: nat) returns (swaps: seq<Swap>)
    requires pools == |u| && Counts(t, u)
    ensures swaps == SwapsFor(u, bucket) && SendsEach(swaps, u, bucket)
    ensures forall j, k | 0 <= j < k < |swaps| :: swaps[j].pool < swaps[k].pool < pools
    ensures forall i: nat, amount: int | i < pools ::
              Swap(i, amount) in swaps <==> t.Load(i) > 0 && amount == t.Load(i) * bucket
  {
    swaps := [];
    var i := 0;
    assert u[..0] == [];
    while i < pools
      invariant 0 <= i <= pools
      invariant swaps == SwapsFor(u[..i], bucket)
    {
      assert u[..i + 1][..i] == u[..i];
      assert t.Load(i) == u[i];
      if t.Load(i) > 0 {
        swaps := swaps + [Swap(i, t.Load(i) * bucket)];
      }
      i := i + 1;
    }
    assert u[..pools] == u;
    SwapsSendEach(u, bucket);
    SentIffCounted(t, u, pools, bucket, swaps);
  }

  lemma SentIffCounted(t: Transient, u: seq<nat>, pools: nat, bucket: nat, swaps: seq<Swap>)
    requires pools == |u| && Counts(t, u) && SendsEach(swaps, u, bucket)
    ensures forall j, k | 0 <= j < k < |swaps| :: swaps[j].pool < swaps[k].pool < pools
    ensures forall i: nat, amount: int | i < pools ::
              Swap(i, amount) in swaps <==> t.Load(i) > 0 && amount == t.Load(i) * bucket
  {
    forall i: nat, amount: int | i < pools
      ensures Swap(i, amount) in swaps <==> t.Load(i) > 0 && amount == t.Load(i) * bucket
    {
      assert t.Load(i) == u[i];
      if Swap(i, amount) in swaps {
        var j :| 0 <= j < |swaps| && swaps[j] == Swap(i, amount);
        assert Sends(swaps[j], u, bucket);
      }
    }
    forall j, k | 0 <= j < k < |swaps|
      ensures swaps[j].pool < swaps[k].pool < pools
    {
      assert Sends(swaps[k], u, bucket);
    }
  }

  /** One bucket more, to the first pool whose next bucket pays most when the storage holds a
      split and the quotes are rising. */
  method GiveOne(t: Transient, ghost u: seq<nat>, pools: nat, bucket: nat, quote: (nat, int) -> int) returns (best: nat)
    requires pools == |u| > 0 && Counts(t, u)
    modifies t
    ensures best < pools && Counts(t, u[best := u[best] + 1])
    ensures old(Holds(t, u, Payout(quote, bucket))) ==> Holds(t, u[best := u[best] + 1], Payout(quote, bucket))
    ensures old(Holds(t, u, Payout(quote, bucket))) && Rising(Payout(quote, bucket), pools) ==>
              FirstBest(Payout(quote, bucket), u, best)
  {
    ghost var q := Payout(quote, bucket);
    best := ArgMax(t, pools);
    if Holds(t, u, q) && Rising(q, pools) {
      GreatestIsBest(t, u, q, best);
    }
    Commit(t, u, pools, best, bucket, quote);
  }

  /** The greedy loop: `n` times, one more bucket to a pool, on top of the counts found. */
  method Allocate(t: Transient, ghost found: seq<nat>, pools: nat, n: nat, bucket: nat, quote: (nat, int) -> int)
    returns (ghost u: seq<nat>, ghost picks: seq<nat>)
    requires pools > 0 && |found| == pools && Counts(t, found)
    modifies t
    ensures |picks| == n && Adds(u, found, picks) && Counts(t, u)
    ensures old(Holds(t, found, Payout(quote, bucket))) ==> Holds(t, u, Payout(quote, bucket))
    ensures old(Holds(t, found, Payout(quote, bucket))) && Rising(Payout(quote, bucket), pools) ==>
              WellPicked(Payout(quote, bucket), u, found, picks)
  {
    ghost var q := Payout(quote, bucket);
    ghost var sound := Holds(t, found, q);
    u, picks := found, [];
    NonePicked(q, found);
    var iter := 0;
    while iter < n
      invariant 0 <= iter <= n && |picks| == iter && Adds(u, found, picks) && Counts(t, u)
      invariant sound ==> Holds(t, u, q)
      invariant sound && Rising(q, pools) ==> WellPicked(q, u, found, picks)
    {
      var best := GiveOne(t, u, pools, bucket, quote);
      OneMoreAdds(u, found, picks, best);
      if sound && Rising(q, pools) {
        OneMorePicked(q, u, found, picks, best);
      }
      u, picks := u[best := u[best] + 1], picks + [best];
      iter := iter + 1;
    }
  }

  lemma NothingIsBalanced(q: Quotes, pools: nat)
    ensures Balanced(q, Alone(pools, pools, 0)) && Total(Alone(pools, pools, 0)) == 0
  {
    AloneSums((i, k) => 0, pools, pools, 0);
  }

  lemma NothingFound(t: Transient, found: seq<nat>, pools: nat, bucket: nat, quote: (nat, int) -> int)
    requires Clean(t, pools) && forall i | 0 <= i < pools :: MarginalCell(t, pools, i) == quote(i, bucket)
    requires |found| == pools && Counts(t, found)
    ensures Holds(t, found, Payout(quote, bucket)) && Balanced(Payout(quote, bucket), found) && found == Alone(pools, pools, 0)
  {
    NothingGiven(t, pools, bucket, quote);
    NothingIsBalanced(Payout(quote, bucket), pools);
    assert found == Alone(pools, pools, 0);
  }

  /** The whole program, on whatever an earlier one in the same transaction left: `found` is
      what the count cells held. It swaps `amountIn` and those buckets over again, so exactly
      `amountIn` if and only if all counts were zero. On clean storage, with rising quotes, each
      bucket went to the first pool that paid most for it; if they are concave too, no split
      pays more. */
  method Run(t: Transient, ghost found: seq<nat>, pools: nat, amountIn: nat, n: int, quote: (nat, int) -> int)
    returns (error: Option<MegasError>, swaps: seq<Swap>, ghost u: seq<nat>, ghost picks: seq<nat>)
    requires |found| == pools && Counts(t, found)
    modifies t
    ensures error == Bucket(pools, amountIn, n).0
    ensures error.Some? ==> swaps == [] && u == found
    ensures |u| == pools && Counts(t, u) && Total(u) == Total(found) + if error == None then n else 0
    ensures error == None ==>
              var bucket := Bucket(pools, amountIn, n).1;
              var q := Payout(quote, bucket);
              && |picks| == n && (forall i | 0 <= i < pools :: t.Load(i) == old(t.Load(i)) + multiset(picks)[i])
              && SendsEach(swaps, u, bucket) && Spent(swaps) == amountIn + Total(found) * bucket
              && (forall i: nat, amount: int | i < pools ::
                    Swap(i, amount) in swaps <==> t.Load(i) > 0 && amount == t.Load(i) * bucket)
              && (Spent(swaps) == amountIn <==> Total(found) == 0)
              && (old(Clean(t, pools)) && Rising(q, pools) ==>
                    Greedily(q, pools, picks) && (Concave(q, pools) ==> Optimal(q, u)))
  {
    var r := Bucket(pools, amountIn, n);
    error, swaps, u, picks := r.0, [], found, [];
    if error == None {
      var bucket := r.1;
      ghost var q, clean := Payout(quote, bucket), Clean(t, pools);
      InitMarginals(t, pools, bucket, quote);
      if clean {
        NothingFound(t, found, pools, bucket, quote);
      }
      u, picks := Allocate(t, found, pools, n, bucket, quote);
      swaps := Execute(t, u, pools, bucket);
      SpentInAll(u, Total(found), n, bucket, amountIn);
      if clean && Concave(q, pools) && Rising(q, pools) {
        BalancedOptimal(q, u);
      }
    }
  }

  /** Two such programs in one transaction, on clean storage and over the same pools: the second
      swaps its own amount and, in its own bucket size, every bucket of the first over again. */
  method RunTwice(t: Transient, pools: nat, a1: nat, n1: int, a2: nat, n2: int, quote: (nat, int) -> int)
    returns (first: seq<Swap>, second: seq<Swap>)
    requires Clean(t, pools) && Bucket(pools, a1, n1).0 == None && Bucket(pools, a2, n2).0 == None
    modifies t
    ensures Spent(first) == a1
    ensures Spent(second) == a2 + n1 * Bucket(pools, a2, n2).1 > a2
  {
    ghost var none := Alone(pools, pools, 0);
    NothingIsBalanced(Payout(quote, 0), pools);
    var e1, s1, u1, _ := Run(t, none, pools, a1, n1, quote);
    var e2, s2, u2, _ := Run(t, u1, pools, a2, n2, quote);
    first, second := s1, s2;
    MoreThanNothing(n1, Bucket(pools, a2, n2).1);
  }

  lemma MoreThanNothing(n: nat, bucket: nat)
    requires n > 0 && bucket > 0
    ensures n * bucket > 0
  {
  }

  lemma SpentInAll(u: seq<nat>, before: nat, n: nat, bucket: nat, amountIn: nat)
    requires Total(u) == before + n && bucket > 0 && bucket * n == amountIn
    ensures Spent(SwapsFor(u, bucket)) == amountIn + before * bucket
    ensures Spent(SwapsFor(u, bucket)) == amountIn <==> before == 0
  {
    SwapsSpend(u, bucket);
    Distribute(before, n, bucket);
    assert before * bucket == 0 <==> before == 0;
  }

  // ----- the dispatcher every pass calls through -----

  datatype Dispatch = Branch(i: nat) | IfEq(i: nat, then_: Dispatch, else_: Dispatch)

  function Select(d: Dispatch, idx: nat): nat {
    match d
    case Branch(i) => i
    case IfEq(i, a, b) => if idx == i then Select(a, idx) else Select(b, idx)
  }

  /** An index past the last pool reverts. */
  function Route(pools: nat, d: Dispatch, idx: nat): Option<nat> {
    if idx >= pools then None else Some(Select(d, idx))
  }

  method BuildDispatcher(pools: nat) returns (d: Dispatch)
    requires pools > 0
    ensures forall idx: nat :: Route(pools, d, idx) == if idx < pools then Some(idx) else None
  {
    d := Branch(pools - 1);
    var i := pools - 2;
    while i >= 0
      invariant -1 <= i <= pools - 2
      invariant forall idx: nat | i < idx < pools :: Select(d, idx) == idx
    {
      d := IfEq(i, Branch(i), d);
      i := i - 1;
    }
  }
}
