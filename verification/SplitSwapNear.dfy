/** What the chunked splitter promises for real constant-product pools, whose quotes are rounded. */
module SplitSwapNear {
  import opened Arith
  import opened Greedy
  import opened GreedyNear
  import opened SplitSwap

  datatype Reserves = Reserves(rin: nat, rout: nat)

  /** The pools' own quotes: any positive amount has one, whatever the reserves. */
  function PoolQuotes(pools: seq<Reserves>): (nat, nat) -> Option<int> {
    (p: nat, amount: nat) =>
      if p < |pools| && amount > 0 then Some(Quote(amount, pools[p].rin, pools[p].rout)) else None
  }

  /** What `step` more adds, without rounding. */
  ghost function ExactGain(x: nat, step: nat, rin: nat, rout: nat): real
    requires rin > 0
  {
    Exact(x + step, rin, rout) - Exact(x, rin, rout)
  }

  lemma GainFalls(x: nat, step: nat, rin: nat, rout: nat)
    requires rin > 0
    ensures ExactGain(x + step, step, rin, rout) <= ExactGain(x, step, rin, rout)
  {
    var m, e, c := Depth(x + step, rin) as real, (997 * step) as real, (1000 * rin * rout) as real;
    assert x + step + step == x + 2 * step;
    assert Depth(x, rin) as real == m - e && Depth(x + 2 * step, rin) as real == m + e;
    ReciprocalConvex(m, e, c);
  }

  lemma OneStepMore(n: nat, step: nat)
    requires n > 0
    ensures n * step == (n - 1) * step + step
  {
  }

  lemma {:induction false} GainFallsFar(x: nat, y: nat, step: nat, n: nat, rin: nat, rout: nat)
    requires rin > 0 && y == x + n * step
    ensures ExactGain(y, step, rin, rout) <= ExactGain(x, step, rin, rout)
    decreases n
  {
    if n > 0 {
      OneStepMore(n, step);
      GainFallsFar(x, y - step, step, n - 1, rin, rout);
      GainFalls(y - step, step, rin, rout);
    }
  }

  /** However far apart two chunks are, rounding lets the later one bring one unit more. */
  lemma LaterGainsAtMostOneMore(x: nat, y: nat, step: nat, n: nat, rin: nat, rout: nat)
    requires rin > 0 && y == x + n * step
    ensures Quote(y + step, rin, rout) - Quote(y, rin, rout) <= Quote(x + step, rin, rout) - Quote(x, rin, rout) + 1
  {
    GainFallsFar(x, y, step, n, rin, rout);
    QuoteIsFloorOfExact(x, rin, rout);
    QuoteIsFloorOfExact(x + step, rin, rout);
    QuoteIsFloorOfExact(y, rin, rout);
    QuoteIsFloorOfExact(y + step, rin, rout);
  }

  lemma NothingForNothing(rin: nat, rout: nat)
    requires rin > 0
    ensures Quote(0, rin, rout) == 0
  {
    assert Times(0 * 997, rout) == 0;
  }

  lemma EmptyPays(x: nat, rout: nat)
    requires x > 0
    ensures Quote(x, 0, rout) == rout
  {
    QuoteBelowReserve(x, 0, rout);
  }

  /** What `k` chunks bring. */
  function Paid(rin: nat, rout: nat, chunk: nat, k: nat): int
    requires chunk > 0
  {
    if k == 0 then 0
    else
      Positive(k, chunk);
      Quote(k * chunk, rin, rout)
  }

  lemma ChunkPays(pools: seq<Reserves>, chunk: nat, i: nat, k: nat)
    requires i < |pools| && chunk > 0
    ensures var q := Payout(Seen(PoolQuotes(pools)), chunk);
            q(i, k) == Paid(pools[i].rin, pools[i].rout, chunk, k)
  {
    if k > 0 {
      Positive(k, chunk);
    }
  }

  /** The quotes of constant-product pools are concave up to one unit. */
  lemma PoolsNearlyConcave(pools: seq<Reserves>, chunk: nat)
    requires chunk > 0
    ensures NearlyConcave(Payout(Seen(PoolQuotes(pools)), chunk), |pools|, 1)
  {
    var q := Payout(Seen(PoolQuotes(pools)), chunk);
    forall i: nat, j: nat, k: nat | i < |pools| && j <= k
      ensures Marginal(q, i, k) <= Marginal(q, i, j) + 1
    {
      OnePoolNearlyConcave(pools, chunk, i, j, k);
    }
  }

  lemma OnePoolNearlyConcave(pools: seq<Reserves>, chunk: nat, i: nat, j: nat, k: nat)
    requires chunk > 0 && i < |pools| && j <= k
    ensures var q := Payout(Seen(PoolQuotes(pools)), chunk); Marginal(q, i, k) <= Marginal(q, i, j) + 1
  {
    ChunkPays(pools, chunk, i, j);
    ChunkPays(pools, chunk, i, j + 1);
    ChunkPays(pools, chunk, i, k);
    ChunkPays(pools, chunk, i, k + 1);
    if pools[i].rin == 0 {
      EmptyPaysOnce(pools[i].rout, chunk, j, k);
    } else {
      ChunksFall(pools[i].rin, pools[i].rout, chunk, j, k);
    }
  }

  lemma EmptyPaysOnce(rout: nat, chunk: nat, j: nat, k: nat)
    requires chunk > 0 && j <= k
    ensures Paid(0, rout, chunk, k + 1) - Paid(0, rout, chunk, k) <= Paid(0, rout, chunk, j + 1) - Paid(0, rout, chunk, j) + 1
  {
    forall m: nat | m > 0
      ensures Paid(0, rout, chunk, m) == rout
    {
      Positive(m, chunk);
      EmptyPays(m * chunk, rout);
    }
  }

  lemma ChunksFall(rin: nat, rout: nat, chunk: nat, j: nat, k: nat)
    requires chunk > 0 && rin > 0 && j <= k
    ensures Paid(rin, rout, chunk, k + 1) - Paid(rin, rout, chunk, k)
            <= Paid(rin, rout, chunk, j + 1) - Paid(rin, rout, chunk, j) + 1
  {
    PaidIs(rin, rout, chunk, j);
    PaidIs(rin, rout, chunk, k);
    assert k * chunk == j * chunk + (k - j) * chunk;
    LaterGainsAtMostOneMore(j * chunk, k * chunk, chunk, k - j, rin, rout);
  }

  lemma PaidIs(rin: nat, rout: nat, chunk: nat, k: nat)
    requires chunk > 0 && rin > 0
    ensures Paid(rin, rout, chunk, k) == Quote(k * chunk, rin, rout)
    ensures Paid(rin, rout, chunk, k + 1) == Quote(k * chunk + chunk, rin, rout)
  {
    NothingForNothing(rin, rout);
    assert 0 * chunk == 0 && (k + 1) * chunk == k * chunk + chunk;
  }

  lemma {:induction false} PicksEarned(q: Quotes, pools: nat, picks: seq<nat>)
    requires Greedily(q, pools, picks)
    ensures AllEarned(q, Split(pools, picks))
    decreases |picks|
  {
    if picks != [] {
      var n := |picks| - 1;
      PicksEarned(q, pools, picks[..n]);
      CommitEarned(q, Split(pools, picks[..n]), picks[n]);
    }
  }

  /** For constant-product pools, with the quotes as they are, rounding and all: no other split
      of the same chunks pays more than two units a chunk above the greedy one. */
  lemma GreedyIsNearOptimal(pools: seq<Reserves>, chunk: nat, picks: seq<nat>, x: seq<nat>)
    requires chunk > 0 && Greedily(Payout(Seen(PoolQuotes(pools)), chunk), |pools|, picks)
    requires |x| == |pools| && Total(x) == |picks|
    ensures var q := Payout(Seen(PoolQuotes(pools)), chunk);
            Value(q, x) <= Value(q, Split(|pools|, picks)) + 2 * |picks|
  {
    var q := Payout(Seen(PoolQuotes(pools)), chunk);
    PicksGiven(|pools|, picks);
    PicksEarned(q, |pools|, picks);
    PoolsNearlyConcave(pools, chunk);
    EarnedIsNearOptimal(q, Split(|pools|, picks), x, 1);
  }
}
