/** Why greedy splitting is optimal: with concave quotes, the marginal that every pool
    would pay for one more bucket is a price no other split can beat. */
module Greedy {

  /** Output of pool `i` for `k` buckets. A pool that gets nothing pays nothing. */
  type Quotes = (nat, nat) -> int

  function Payout(quote: (nat, int) -> int, bucket: int): Quotes {
    (i: nat, k: nat) => if k == 0 then 0 else quote(i, k * bucket)
  }

  function Marginal(q: Quotes, i: nat, k: nat): int {
    q(i, k + 1) - q(i, k)
  }

  /** Each bucket a pool gets adds at most what an earlier one did. */
  ghost predicate Concave(q: Quotes, pools: nat) {
    forall i: nat, j: nat, k: nat | i < pools && j <= k :: Marginal(q, i, j) >= Marginal(q, i, k)
  }

  /** No pool pays less for more. */
  ghost predicate Rising(q: Quotes, pools: nat) {
    forall i: nat, k: nat | i < pools :: Marginal(q, i, k) >= 0
  }

  function Change(after: nat, before: nat): int {
    after - before
  }

  function Total(u: seq<nat>): nat {
    if u == [] then 0 else Total(u[..|u| - 1]) + u[|u| - 1]
  }

  function Value(q: Quotes, u: seq<nat>): int {
    if u == [] then 0 else Value(q, u[..|u| - 1]) + q(|u| - 1, u[|u| - 1])
  }

  /** What one pool more adds to a split: its buckets, and what it is quoted for that many. */
  lemma OnePoolMore(quote: (nat, int) -> int, bucket: int, u: seq<nat>, k: nat)
    ensures Total([]) == 0 && Total(u + [k]) == Total(u) + k
    ensures var q := Payout(quote, bucket);
            Value(q, []) == 0 && Value(q, u + [k]) == Value(q, u) + if k == 0 then 0 else quote(|u|, k * bucket)
  {
    assert (u + [k])[..|u|] == u;
  }

  /** No pool's last bucket brought less than any pool's next bucket would. */
  ghost predicate Balanced(q: Quotes, u: seq<nat>) {
    forall i, j | 0 <= i < |u| && 0 <= j < |u| && u[j] > 0 :: Marginal(q, j, u[j] - 1) >= Marginal(q, i, u[i])
  }

  ghost predicate Best(q: Quotes, u: seq<nat>, b: nat) {
    b < |u| && forall i | 0 <= i < |u| :: Marginal(q, b, u[b]) >= Marginal(q, i, u[i])
  }

  /** Giving the next bucket to a pool with the best marginal keeps the split balanced. */
  lemma CommitKeepsBalance(q: Quotes, u: seq<nat>, b: nat)
    requires Concave(q, |u|) && Balanced(q, u) && Best(q, u, b)
    ensures Balanced(q, u[b := u[b] + 1])
  {
    assert Marginal(q, b, u[b]) >= Marginal(q, b, u[b] + 1);
  }

  lemma {:induction false} UpdateSums(q: Quotes, u: seq<nat>, b: nat, k: nat)
    requires b < |u|
    ensures Total(u[b := k]) == Total(u) - u[b] + k
    ensures Value(q, u[b := k]) == Value(q, u) - q(b, u[b]) + q(b, k)
  {
    var n := |u| - 1;
    var v := u[b := k];
    if b == n {
      assert v[..n] == u[..n];
    } else {
      assert v[..n] == u[..n][b := k];
      UpdateSums(q, u[..n], b, k);
    }
  }

  lemma MulMono(n: nat, x: int, y: int)
    requires x <= y
    ensures n * x <= n * y
  {
  }

  /** From `a` buckets on, `n` more gain at most what the first of them brings, each. */
  lemma {:induction false} GainAtMost(q: Quotes, pools: nat, i: nat, a: nat, n: nat)
    requires Concave(q, pools) && i < pools
    ensures q(i, a + n) - q(i, a) <= n * Marginal(q, i, a)
  {
    if n > 0 {
      GainAtMost(q, pools, i, a, n - 1);
      assert Marginal(q, i, a + n - 1) <= Marginal(q, i, a);
      assert n * Marginal(q, i, a) == (n - 1) * Marginal(q, i, a) + Marginal(q, i, a);
    }
  }

  /** Buckets `a` to `a + n` gained at least what the last of them brought, each. */
  lemma {:induction false} GainAtLeast(q: Quotes, pools: nat, i: nat, a: nat, n: nat)
    requires Concave(q, pools) && i < pools && n > 0
    ensures q(i, a + n) - q(i, a) >= n * Marginal(q, i, a + n - 1)
  {
    if n > 1 {
      GainAtLeast(q, pools, i, a, n - 1);
      var last := Marginal(q, i, a + n - 1);
      MulMono(n - 1, last, Marginal(q, i, a + n - 2));
      assert n * last == (n - 1) * last + last;
    }
  }

  /** If each pool's change is worth at most `price` a bucket, so is the whole change. */
  lemma {:induction false} PriceBound(q: Quotes, u: seq<nat>, x: seq<nat>, price: int)
    requires |x| == |u|
    requires forall i: nat | i < |u| :: q(i, x[i]) - q(i, u[i]) <= price * Change(x[i], u[i])
    ensures Value(q, x) - Value(q, u) <= price * Change(Total(x), Total(u))
  {
    if u != [] {
      var n := |u| - 1;
      PriceBound(q, u[..n], x[..n], price);
      var rest := Change(Total(x[..n]), Total(u[..n]));
      assert price * (rest + Change(x[n], u[n])) == price * rest + price * Change(x[n], u[n]);
    }
  }

  /** A pool with the greatest next marginal. */
  lemma {:induction false} BestExists(q: Quotes, u: seq<nat>) returns (b: nat)
    requires u != []
    ensures Best(q, u, b)
  {
    if |u| == 1 {
      b := 0;
    } else {
      var n := |u| - 1;
      b := BestExists(q, u[..n]);
      if Marginal(q, b, u[b]) < Marginal(q, n, u[n]) {
        forall i | 0 <= i < |u|
          ensures Marginal(q, n, u[n]) >= Marginal(q, i, u[i])
        {
          if i < n {
            assert u[..n][i] == u[i];
          }
        }
        b := n;
      } else {
        forall i | 0 <= i < |u|
          ensures Marginal(q, b, u[b]) >= Marginal(q, i, u[i])
        {
          if i < n {
            assert u[..n][i] == u[i];
          }
        }
      }
    }
  }

  /** Moving pool `i` from `u[i]` to `k` buckets is worth at most the best marginal, each. */
  lemma PoolBound(q: Quotes, u: seq<nat>, i: nat, k: nat, b: nat)
    requires Concave(q, |u|) && Balanced(q, u) && Best(q, u, b) && i < |u|
    ensures q(i, k) - q(i, u[i]) <= Marginal(q, b, u[b]) * Change(k, u[i])
  {
    var price := Marginal(q, b, u[b]);
    if k >= u[i] {
      GainAtMost(q, |u|, i, u[i], k - u[i]);
      MulMono(k - u[i], Marginal(q, i, u[i]), price);
    } else {
      var n := u[i] - k;
      GainAtLeast(q, |u|, i, k, n);
      MulMono(n, price, Marginal(q, i, u[i] - 1));
      assert price * Change(k, u[i]) == -(n * price);
    }
  }

  /** A balanced split is worth at least as much as any other split of the same buckets. */
  lemma BalancedIsOptimal(q: Quotes, u: seq<nat>, x: seq<nat>)
    requires Concave(q, |u|) && Balanced(q, u)
    requires |x| == |u| && Total(x) == Total(u)
    ensures Value(q, x) <= Value(q, u)
  {
    if u != [] {
      var b := BestExists(q, u);
      var price := Marginal(q, b, u[b]);
      forall i: nat | i < |u|
        ensures q(i, x[i]) - q(i, u[i]) <= price * Change(x[i], u[i])
      {
        PoolBound(q, u, i, x[i], b);
      }
      PriceBound(q, u, x, price);
    } else {
      assert x == u;
    }
  }

  // ----- a single pool is one of the splits -----

  function Alone(pools: nat, i: nat, n: nat): seq<nat> {
    seq(pools, j => if j == i then n else 0)
  }

  lemma {:induction false} AloneSums(q: Quotes, pools: nat, i: nat, n: nat)
    requires forall j: nat | j < pools :: q(j, 0) == 0
    ensures Total(Alone(pools, i, n)) == if i < pools then n else 0
    ensures Value(q, Alone(pools, i, n)) == if i < pools then q(i, n) else 0
    decreases pools
  {
    if pools > 0 {
      AloneSums(q, pools - 1, i, n);
      assert Alone(pools, i, n)[..pools - 1] == Alone(pools - 1, i, n);
    }
  }

  /** So a concave split never pays less than sending everything through one pool. */
  lemma NeverWorseThanOnePool(q: Quotes, u: seq<nat>, i: nat)
    requires Concave(q, |u|) && i < |u| && (forall j: nat | j < |u| :: q(j, 0) == 0)
    requires Balanced(q, u)
    ensures q(i, Total(u)) <= Value(q, u)
  {
    AloneSums(q, |u|, i, Total(u));
    BalancedIsOptimal(q, u, Alone(|u|, i, Total(u)));
  }

  /** No other split of the same buckets pays more. */
  ghost predicate Optimal(q: Quotes, u: seq<nat>) {
    forall x: seq<nat> | |x| == |u| && Total(x) == Total(u) :: Value(q, x) <= Value(q, u)
  }

  lemma BalancedOptimal(q: Quotes, u: seq<nat>)
    requires Concave(q, |u|) && Balanced(q, u)
    ensures Optimal(q, u)
  {
    forall x: seq<nat> | |x| == |u| && Total(x) == Total(u)
      ensures Value(q, x) <= Value(q, u)
    {
      BalancedIsOptimal(q, u, x);
    }
  }

  /** A split that puts pool 1 first because pool 0 pays only for two buckets at once. */
  lemma NotConcaveNotOptimal(q: Quotes)
    requires q(0, 0) == 0 && q(0, 1) == 0 && q(0, 2) == 10
    requires q(1, 0) == 0 && q(1, 1) == 1 && q(1, 2) == 2
    ensures Best(q, [0, 0], 1) && Best(q, [0, 1], 1)
    ensures Value(q, [0, 2]) < Value(q, [2, 0])
  {
    assert Value(q, [0, 2]) == Value(q, [0]) + q(1, 2) by { assert [0, 2][..1] == [0]; }
    assert Value(q, [2, 0]) == Value(q, [2]) + q(1, 0) by { assert [2, 0][..1] == [2]; }
    assert [0][..0] == [] && [2][..0] == [];
    assert Value(q, [0]) == q(0, 0) && Value(q, [2]) == q(0, 2);
  }

  // ----- greedy picks -----

  /** The first pool whose next bucket pays most. */
  ghost predicate FirstBest(q: Quotes, u: seq<nat>, b: nat) {
    Best(q, u, b) && forall i | 0 <= i < b :: Marginal(q, i, u[i]) < Marginal(q, b, u[b])
  }

  /** How many buckets each pool has after the given picks. */
  function Split(pools: nat, picks: seq<nat>): (u: seq<nat>)
    requires forall i | 0 <= i < |picks| :: picks[i] < pools
    ensures |u| == pools
  {
    if picks == [] then Alone(pools, pools, 0)
    else
      var n := |picks| - 1;
      var was := Split(pools, picks[..n]);
      was[picks[n] := was[picks[n]] + 1]
  }

  /** Just that, pool by pool. */
  lemma {:induction false} SplitCounts(pools: nat, picks: seq<nat>, i: nat)
    requires i < pools && forall j | 0 <= j < |picks| :: picks[j] < pools
    ensures Split(pools, picks)[i] == multiset(picks)[i]
  {
    if picks != [] {
      var n := |picks| - 1;
      SplitCounts(pools, picks[..n], i);
      assert picks == picks[..n] + [picks[n]];
    }
  }

  /** Every pick was the first best pool at its time. */
  ghost predicate Greedily(q: Quotes, pools: nat, picks: seq<nat>) {
    && (forall i | 0 <= i < |picks| :: picks[i] < pools)
    && (picks == [] ||
        var n := |picks| - 1;
        Greedily(q, pools, picks[..n]) && FirstBest(q, Split(pools, picks[..n]), picks[n]))
  }

  /** The picks on top of what each pool had before. */
  ghost predicate Adds(u: seq<nat>, found: seq<nat>, picks: seq<nat>) {
    && |u| == |found| && Total(u) == Total(found) + |picks|
    && (forall i | 0 <= i < |picks| :: picks[i] < |u|)
    && forall i | 0 <= i < |u| :: u[i] == found[i] + multiset(picks)[i]
  }

  lemma OneMoreAdds(u: seq<nat>, found: seq<nat>, picks: seq<nat>, best: nat)
    requires best < |u| && Adds(u, found, picks)
    ensures Adds(u[best := u[best] + 1], found, picks + [best])
  {
    UpdateSums((i, k) => 0, u, best, u[best] + 1);
  }

  /** Picked one after another, each the first best at its time: what that keeps. */
  ghost predicate WellPicked(q: Quotes, u: seq<nat>, found: seq<nat>, picks: seq<nat>) {
    && (Concave(q, |u|) && Balanced(q, found) ==> Balanced(q, u))
    && (found == Alone(|u|, |u|, 0) ==> Greedily(q, |u|, picks) && u == Split(|u|, picks))
  }

  lemma NonePicked(q: Quotes, found: seq<nat>)
    ensures Adds(found, found, []) && WellPicked(q, found, found, [])
  {
  }

  lemma OneMorePicked(q: Quotes, u: seq<nat>, found: seq<nat>, picks: seq<nat>, best: nat)
    requires WellPicked(q, u, found, picks) && FirstBest(q, u, best)
    ensures WellPicked(q, u[best := u[best] + 1], found, picks + [best])
  {
    assert (picks + [best])[..|picks|] == picks;
    if Concave(q, |u|) && Balanced(q, found) {
      CommitKeepsBalance(q, u, best);
    }
  }

  lemma {:induction false} PicksGiven(pools: nat, picks: seq<nat>)
    requires forall i | 0 <= i < |picks| :: picks[i] < pools
    ensures Total(Split(pools, picks)) == |picks|
  {
    if picks == [] {
      AloneSums((i, k) => 0, pools, pools, 0);
    } else {
      var n := |picks| - 1;
      var was := Split(pools, picks[..n]);
      PicksGiven(pools, picks[..n]);
      UpdateSums((i, k) => 0, was, picks[n], was[picks[n]] + 1);
    }
  }

  /** Whatever the quotes, every pick is given out; with concave quotes the split is balanced. */
  lemma {:induction false} GreedilyIsBalanced(q: Quotes, pools: nat, picks: seq<nat>)
    requires Greedily(q, pools, picks)
    ensures Total(Split(pools, picks)) == |picks|
    ensures Concave(q, pools) ==> Balanced(q, Split(pools, picks))
    decreases |picks|
  {
    PicksGiven(pools, picks);
    if picks != [] && Concave(q, pools) {
      var n := |picks| - 1;
      GreedilyIsBalanced(q, pools, picks[..n]);
      CommitKeepsBalance(q, Split(pools, picks[..n]), picks[n]);
    }
  }

  // ----- the swaps of a split -----

  /** An amount to send through one pool. */
  datatype Swap = Swap(pool: nat, amount: int)

  /** The swaps for a split: one per pool in use, in pool order, for all its buckets. */
  function SwapsFor(u: seq<nat>, bucket: nat): seq<Swap> {
    if u == [] then []
    else
      var n := |u| - 1;
      SwapsFor(u[..n], bucket) + if u[n] > 0 then [Swap(n, u[n] * bucket)] else []
  }

  /** What the list is, without saying how it is made: pools ascend, pool `i` has a swap exactly
      when its count is positive, and that swap is for all its buckets. */
  ghost predicate SendsEach(swaps: seq<Swap>, u: seq<nat>, bucket: nat) {
    && (forall j, k | 0 <= j < k < |swaps| :: swaps[j].pool < swaps[k].pool)
    && (forall j | 0 <= j < |swaps| :: Sends(swaps[j], u, bucket))
    && (forall i | 0 <= i < |u| && u[i] > 0 :: Swap(i, u[i] * bucket) in swaps)
  }

  predicate Sends(s: Swap, u: seq<nat>, bucket: nat) {
    s.pool < |u| && u[s.pool] > 0 && s.amount == u[s.pool] * bucket
  }

  lemma {:induction false} SwapsSendEach(u: seq<nat>, bucket: nat)
    ensures SendsEach(SwapsFor(u, bucket), u, bucket)
  {
    if u != [] {
      var n := |u| - 1;
      var rest, swaps := SwapsFor(u[..n], bucket), SwapsFor(u, bucket);
      SwapsSendEach(u[..n], bucket);
      forall j | 0 <= j < |rest|
        ensures Sends(rest[j], u, bucket) && rest[j].pool < n
      {
        assert Sends(rest[j], u[..n], bucket);
      }
      forall i | 0 <= i < |u| && u[i] > 0
        ensures Swap(i, u[i] * bucket) in swaps
      {
        assert i < n ==> u[..n][i] == u[i] && Swap(i, u[i] * bucket) in rest;
      }
    }
  }

  /** And nothing else is: the counts leave no choice. */
  lemma {:induction false} SendsOneWay(s: seq<Swap>, t: seq<Swap>, u: seq<nat>, bucket: nat)
    requires SendsEach(s, u, bucket) && SendsEach(t, u, bucket)
    ensures s == t
  {
    assert s != [] ==> Sends(s[0], u, bucket);
    assert t != [] ==> Sends(t[0], u, bucket);
    if s != [] && t != [] {
      var a, b := s[|s| - 1], t[|t| - 1];
      assert Sends(a, u, bucket) && Sends(b, u, bucket);
      LastIsGreatest(s, u, b, bucket);
      LastIsGreatest(t, u, a, bucket);
      assert a == b;
      DropLast(s, u, bucket);
      DropLast(t, u, bucket);
      SendsOneWay(s[..|s| - 1], t[..|t| - 1], u[..a.pool], bucket);
    }
  }

  lemma LastIsGreatest(s: seq<Swap>, u: seq<nat>, b: Swap, bucket: nat)
    requires s != [] && SendsEach(s, u, bucket) && Sends(b, u, bucket)
    ensures b.pool <= s[|s| - 1].pool
  {
    assert Swap(b.pool, u[b.pool] * bucket) in s;
  }

  lemma DropLast(s: seq<Swap>, u: seq<nat>, bucket: nat)
    requires s != [] && SendsEach(s, u, bucket) && s[|s| - 1].pool <= |u|
    ensures SendsEach(s[..|s| - 1], u[..s[|s| - 1].pool], bucket)
  {
    var r, n := s[..|s| - 1], s[|s| - 1].pool;
    forall j | 0 <= j < |r|
      ensures Sends(r[j], u[..n], bucket)
    {
      assert Sends(s[j], u, bucket) && s[j].pool < s[|s| - 1].pool;
    }
    forall i | 0 <= i < n && u[..n][i] > 0
      ensures Swap(i, u[..n][i] * bucket) in r
    {
      assert Swap(i, u[i] * bucket) in s;
    }
  }

  function Spent(swaps: seq<Swap>): int {
    if swaps == [] then 0 else Spent(swaps[..|swaps| - 1]) + swaps[|swaps| - 1].amount
  }

  lemma Distribute(a: int, b: int, c: int)
    ensures (a + b) * c == a * c + b * c
  {
  }

  lemma {:induction false} SwapsSpend(u: seq<nat>, bucket: nat)
    ensures Spent(SwapsFor(u, bucket)) == Total(u) * bucket
  {
    if u != [] {
      var n := |u| - 1;
      var rest := SwapsFor(u[..n], bucket);
      SwapsSpend(u[..n], bucket);
      Distribute(Total(u[..n]), u[n], bucket);
      if u[n] > 0 {
        var last := Swap(n, u[n] * bucket);
        assert (rest + [last])[..|rest|] == rest;
        assert Spent(rest + [last]) == Spent(rest) + last.amount;
      } else {
        assert rest + [] == rest;
      }
    }
  }
}
