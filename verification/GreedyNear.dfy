/** Greedy splitting when marginals may rise a little, as rounding makes them: how far from the
    best split it can end. */
module GreedyNear {
  import opened Greedy

  /** No later bucket adds more than `slack` above an earlier one. */
  ghost predicate NearlyConcave(q: Quotes, pools: nat, slack: nat) {
    forall i: nat, j: nat, k: nat | i < pools && j <= k :: Marginal(q, i, k) <= Marginal(q, i, j) + slack
  }

  /** Bucket `k` of pool `j` brought no less than some bucket pool `i` had still to be given. */
  ghost predicate Earned(q: Quotes, j: nat, k: nat, i: nat, upto: nat) {
    exists m: nat :: m <= upto && Marginal(q, j, k) >= Marginal(q, i, m)
  }

  /** Every bucket given was the best one on offer when it was. */
  ghost predicate AllEarned(q: Quotes, u: seq<nat>) {
    forall j: nat, k: nat, i: nat | j < |u| && k < u[j] && i < |u| :: Earned(q, j, k, i, u[i])
  }

  /** Giving the next bucket to a pool with the best marginal keeps that so, whatever the quotes. */
  lemma CommitEarned(q: Quotes, u: seq<nat>, b: nat)
    requires AllEarned(q, u) && Best(q, u, b)
    ensures AllEarned(q, u[b := u[b] + 1])
  {
    var v := u[b := u[b] + 1];
    forall j: nat, k: nat, i: nat | j < |v| && k < v[j] && i < |v|
      ensures Earned(q, j, k, i, v[i])
    {
      if j == b && k == u[b] {
        assert Marginal(q, b, u[b]) >= Marginal(q, i, u[i]);
      } else {
        assert Earned(q, j, k, i, u[i]);
      }
    }
  }

  /** A bucket given is worth at most the slack less than the best one still to give. */
  lemma GivenNearBest(q: Quotes, u: seq<nat>, slack: nat, j: nat, k: nat, b: nat)
    requires NearlyConcave(q, |u|, slack) && AllEarned(q, u) && b < |u| && j < |u| && k < u[j]
    ensures Marginal(q, j, k) + slack >= Marginal(q, b, u[b])
  {
    assert Earned(q, j, k, b, u[b]);
    var m: nat :| m <= u[b] && Marginal(q, j, k) >= Marginal(q, b, m);
  }

  /** Buckets `a` to `a + n`, each worth at most `most`. */
  lemma {:induction false} RunAtMost(q: Quotes, i: nat, a: nat, n: nat, most: int)
    requires forall k: nat | a <= k < a + n :: Marginal(q, i, k) <= most
    ensures q(i, a + n) - q(i, a) <= n * most
  {
    if n > 0 {
      RunAtMost(q, i, a, n - 1, most);
      assert Marginal(q, i, a + n - 1) <= most;
      assert n * most == (n - 1) * most + most;
    }
  }

  /** Buckets `a` to `a + n`, each worth at least `least`. */
  lemma {:induction false} RunAtLeast(q: Quotes, i: nat, a: nat, n: nat, least: int)
    requires forall k: nat | a <= k < a + n :: Marginal(q, i, k) >= least
    ensures q(i, a + n) - q(i, a) >= n * least
  {
    if n > 0 {
      RunAtLeast(q, i, a, n - 1, least);
      assert Marginal(q, i, a + n - 1) >= least;
      assert n * least == (n - 1) * least + least;
    }
  }

  function Distance(a: nat, b: nat): nat {
    if a < b then b - a else a - b
  }

  function Moved(x: seq<nat>, u: seq<nat>): nat
    requires |x| == |u|
  {
    if u == [] then 0 else Moved(x[..|u| - 1], u[..|u| - 1]) + Distance(x[|u| - 1], u[|u| - 1])
  }

  lemma {:induction false} MovedAtMost(x: seq<nat>, u: seq<nat>)
    requires |x| == |u|
    ensures Moved(x, u) <= Total(x) + Total(u)
  {
    if u != [] {
      MovedAtMost(x[..|u| - 1], u[..|u| - 1]);
    }
  }

  /** What changing one pool is worth, at the best marginal a bucket and the slack for each
      bucket moved. */
  lemma PoolNearBound(q: Quotes, u: seq<nat>, slack: nat, i: nat, k: nat, b: nat)
    requires NearlyConcave(q, |u|, slack) && AllEarned(q, u) && Best(q, u, b) && i < |u|
    ensures q(i, k) - q(i, u[i]) <= Marginal(q, b, u[b]) * Change(k, u[i]) + slack * Distance(k, u[i])
  {
    var price := Marginal(q, b, u[b]);
    if k >= u[i] {
      var n := k - u[i];
      forall m: nat | u[i] <= m < u[i] + n
        ensures Marginal(q, i, m) <= price + slack
      {
        assert Marginal(q, i, m) <= Marginal(q, i, u[i]) + slack;
      }
      RunAtMost(q, i, u[i], n, price + slack);
      assert n * (price + slack) == price * n + slack * n;
    } else {
      var n := u[i] - k;
      forall m: nat | k <= m < k + n
        ensures Marginal(q, i, m) >= price - slack
      {
        GivenNearBest(q, u, slack, i, m, b);
      }
      RunAtLeast(q, i, k, n, price - slack);
      assert n * (price - slack) == price * n - slack * n;
      assert price * Change(k, u[i]) == -(price * n);
    }
  }

  lemma {:induction false} NearPriceBound(q: Quotes, u: seq<nat>, x: seq<nat>, price: int, slack: nat)
    requires |x| == |u|
    requires forall i: nat | i < |u| :: q(i, x[i]) - q(i, u[i]) <= price * Change(x[i], u[i]) + slack * Distance(x[i], u[i])
    ensures Value(q, x) - Value(q, u) <= price * Change(Total(x), Total(u)) + slack * Moved(x, u)
  {
    if u != [] {
      var n := |u| - 1;
      NearPriceBound(q, u[..n], x[..n], price, slack);
      var rest, moved := Change(Total(x[..n]), Total(u[..n])), Moved(x[..n], u[..n]);
      assert price * (rest + Change(x[n], u[n])) == price * rest + price * Change(x[n], u[n]);
      assert slack * (moved + Distance(x[n], u[n])) == slack * moved + slack * Distance(x[n], u[n]);
    }
  }

  /** No split of the same buckets is worth more than twice the slack a bucket above it. */
  lemma EarnedIsNearOptimal(q: Quotes, u: seq<nat>, x: seq<nat>, slack: nat)
    requires NearlyConcave(q, |u|, slack) && AllEarned(q, u)
    requires |x| == |u| && Total(x) == Total(u)
    ensures Value(q, x) <= Value(q, u) + slack * (2 * Total(u))
  {
    if u != [] {
      var b := BestExists(q, u);
      var price := Marginal(q, b, u[b]);
      forall i: nat | i < |u|
        ensures q(i, x[i]) - q(i, u[i]) <= price * Change(x[i], u[i]) + slack * Distance(x[i], u[i])
      {
        PoolNearBound(q, u, slack, i, x[i], b);
      }
      NearPriceBound(q, u, x, price, slack);
      assert price * Change(Total(x), Total(u)) == 0;
      MovedAtMost(x, u);
      MulMono(slack, Moved(x, u), 2 * Total(u));
    } else {
      assert x == u;
    }
  }
}
