/** The off-chain splitter: the constant-product quote and the chunked greedy allocation. */
module SplitSwap {
  import opened Arith
  import opened Greedy

  // ----- the constant-product quote -----

  /** 1000 times the input reserve after a trade of `x`, less the 0.3% fee on `x`. */
  function Depth(x: nat, rin: nat): (d: nat)
    ensures rin > 0 || x > 0 ==> d > 0
  {
    rin * 1000 + x * 997
  }

  function Times(a: nat, b: nat): nat {
    a * b
  }

  function Floor(n: nat, d: nat): nat
    requires d > 0
  {
    n / d
  }

  /** Output for `x` in against reserves `rin` and `rout`; only an empty trade against an
      empty reserve divides by zero. */
  function Quote(x: nat, rin: nat, rout: nat): nat
    requires rin > 0 || x > 0
  {
    Floor(Times(x * 997, rout), Depth(x, rin))
  }

  /** The output misses the whole reserve by a share of it that shrinks with depth. */
  lemma QuoteFloor(x: nat, rin: nat, rout: nat)
    requires rin > 0 || x > 0
    ensures var q, d := Quote(x, rin, rout), Depth(x, rin);
            q * d <= rout * d - 1000 * rin * rout < (q + 1) * d
  {
    var n, d := x * 997 * rout, Depth(x, rin);
    assert n == (n / d) * d + n % d;
    assert (n / d + 1) * d == (n / d) * d + d;
    assert rout * d == 1000 * rin * rout + n;
  }

  /** The quote in full: the most that can go out while 1000 units of each reserve, and 997 of
      each unit coming in, keep the product. */
  lemma QuoteExactly(x: nat, rin: nat, rout: nat, out: nat)
    requires rin > 0 || x > 0
    ensures out == Quote(x, rin, rout) <==>
            (1000 * rin + 997 * x) * (rout - out) >= 1000 * rin * rout > (1000 * rin + 997 * x) * (rout - out - 1)
  {
    QuoteFloor(x, rin, rout);
    var d, q, c := Depth(x, rin), Quote(x, rin, rout), 1000 * rin * rout;
    assert d * (rout - out) == rout * d - out * d && d * (rout - out - 1) == rout * d - (out + 1) * d;
    if rout * d - out * d >= c > rout * d - (out + 1) * d {
      MulLess(d, q, out + 1);
      MulLess(d, out, q + 1);
    }
  }

  lemma MulLess(a: nat, b: int, c: int)
    requires b * a < c * a
    ensures b < c
  {
  }

  /** A pool pays out its whole reserve only when it holds none of the input token. */
  lemma QuoteBelowReserve(x: nat, rin: nat, rout: nat)
    requires rin > 0 || x > 0
    ensures Quote(x, rin, rout) <= rout
    ensures Quote(x, rin, rout) < rout <==> rin > 0 && rout > 0
  {
    QuoteFloor(x, rin, rout);
    var q, d := Quote(x, rin, rout), Depth(x, rin);
    if rin == 0 || rout == 0 {
      MulLess(d, rout, q + 1);
      MulLess(d, q, rout + 1);
    } else {
      assert 1000 * rin * rout > 0;
      MulLess(d, q, rout);
    }
  }

  lemma RealMulCancel(a: real, b: real, d: real)
    requires d > 0.0 && a * d <= b * d
    ensures a <= b
  {
  }

  lemma RealMulCancelStrict(a: real, b: real, d: real)
    requires d > 0.0 && a * d < b * d
    ensures a < b
  {
  }

  lemma RealQuotient(q: real, r: real, c: real, d: real)
    requires d > 0.0 && q * d <= r * d - c < (q + 1.0) * d
    ensures q <= r - c / d < q + 1.0
  {
    assert (r - c / d) * d == r * d - c;
    RealMulCancel(q, r - c / d, d);
    RealMulCancelStrict(r - c / d, q + 1.0, d);
  }

  lemma MulReal(a: int, b: int)
    ensures (a * b) as real == a as real * b as real
  {
  }

  /** The output without rounding. */
  ghost function Exact(x: nat, rin: nat, rout: nat): real
    requires rin > 0 || x > 0
  {
    rout as real - (1000 * rin * rout) as real / Depth(x, rin) as real
  }

  lemma QuoteIsFloorOfExact(x: nat, rin: nat, rout: nat)
    requires rin > 0 || x > 0
    ensures Quote(x, rin, rout) as real <= Exact(x, rin, rout) < Quote(x, rin, rout) as real + 1.0
  {
    QuoteFloor(x, rin, rout);
    var q, d := Quote(x, rin, rout), Depth(x, rin);
    MulReal(q, d);
    MulReal(rout, d);
    MulReal(q + 1, d);
    RealQuotient(q as real, rout as real, (1000 * rin * rout) as real, d as real);
  }

  lemma ReciprocalFalls(a: real, b: real, c: real)
    requires 0.0 < a <= b && c >= 0.0
    ensures c / b <= c / a
  {
    assert (c / b) * b == c && (c / a) * a == c;
    assert (c / a) * b >= (c / a) * a by { assert c / a >= 0.0; }
    RealMulCancel(c / b, c / a, b);
  }

  /** More in never brings less out. */
  lemma QuoteMonotone(x: nat, y: nat, rin: nat, rout: nat)
    requires (rin > 0 || x > 0) && x <= y
    ensures Quote(x, rin, rout) <= Quote(y, rin, rout)
  {
    QuoteIsFloorOfExact(x, rin, rout);
    QuoteIsFloorOfExact(y, rin, rout);
    ReciprocalFalls(Depth(x, rin) as real, Depth(y, rin) as real, (1000 * rin * rout) as real);
  }

  /** The product of the reserves never falls. */
  lemma ProductNeverFalls(x: nat, rin: nat, rout: nat)
    requires rin > 0 || x > 0
    ensures (rin + x) * (rout - Quote(x, rin, rout)) >= rin * rout
  {
    QuoteFloor(x, rin, rout);
    QuoteBelowReserve(x, rin, rout);
    var left := rout - Quote(x, rin, rout);
    // the fee leaves 3 * x * left on top of what the formula keeps
    assert 1000 * ((rin + x) * left) == Depth(x, rin) * left + 3 * (x * left);
    assert Depth(x, rin) * left == rout * Depth(x, rin) - Quote(x, rin, rout) * Depth(x, rin);
    assert x * left >= 0;
    assert 1000 * rin * rout == 1000 * (rin * rout);
  }

  /** A reciprocal is convex: the two ends add up to at least twice the middle. */
  lemma ReciprocalConvex(m: real, e: real, c: real)
    requires e >= 0.0 && m > e && c >= 0.0
    ensures c / (m - e) + c / (m + e) >= 2.0 * (c / m)
  {
    ReciprocalFalls(m - e, m + e, c);
    EndsAtLeastTwice(c / (m - e), c / (m + e), c / m, m, e, c);
  }

  lemma EndsAtLeastTwice(p: real, q: real, r: real, m: real, e: real, c: real)
    requires p * (m - e) == c && q * (m + e) == c && r * m == c
    requires p >= q && e >= 0.0 && m > 0.0
    ensures p + q >= 2.0 * r
  {
    assert (p + q) * m == p * (m - e) + q * (m + e) + (p - q) * e;
    assert (p - q) * e >= 0.0;
    RealMulCancel(2.0 * r, p + q, m);
  }

  /** Marginals never rise by more than one unit, which is rounding. */
  lemma MarginalsFallUpToRounding(x: nat, step: nat, rin: nat, rout: nat)
    requires rin > 0 || x > 0
    ensures Quote(x + 2 * step, rin, rout) - Quote(x + step, rin, rout)
            <= Quote(x + step, rin, rout) - Quote(x, rin, rout) + 1
  {
    QuoteIsFloorOfExact(x, rin, rout);
    QuoteIsFloorOfExact(x + step, rin, rout);
    QuoteIsFloorOfExact(x + 2 * step, rin, rout);
    var m, e, c := Depth(x + step, rin) as real, (997 * step) as real, (1000 * rin * rout) as real;
    assert Depth(x, rin) as real == m - e && Depth(x + 2 * step, rin) as real == m + e;
    ReciprocalConvex(m, e, c);
  }

  /** That one unit does occur: here the second unit in pays where the first did not. */
  lemma RoundingCanRaiseMarginal()
    ensures Quote(2, 1000, 1003) - Quote(1, 1000, 1003) == Quote(1, 1000, 1003) - Quote(0, 1000, 1003) + 1
  {
    assert Quote(0, 1000, 1003) == 0;
    assert Quote(1, 1000, 1003) == 0;
    assert Quote(2, 1000, 1003) == 1;
  }

  // ----- the greedy allocation -----

  datatype AllocationError = DivisionByZero | NoPools

  datatype Allocation = Allocated(swaps: seq<Swap>) | Failed(error: AllocationError)

  function ChunkSize(total: nat): nat {
    if total / 40 > 0 then total / 40 else total
  }

  /** From 40 units on there are 40 to 79 chunks and less than a chunk is left over; below
      that there is one chunk, the whole total. */
  lemma ChunkCount(total: nat)
    requires total > 0
    ensures var size := ChunkSize(total);
            && size > 0
            && 0 <= total - (total / size) * size < size
            && (total >= 40 ==> 40 * size <= total < 40 * size + 40)
            && (if total >= 40 then 40 <= total / size <= 79 else total / size == 1 && size == total)
  {
    var size := ChunkSize(total);
    assert total == (total / size) * size + total % size;
    if total >= 40 {
      var k := total / size;
      assert 40 * size <= total < 40 * size + 40;
      MulLess(size, 39, k);
      assert total < 80 * size;
      MulLess(size, k, 80);
    }
  }

  /** What a pool pays as the allocator sees it: a quote that fails counts as nothing. */
  function Seen(quote: (nat, nat) -> Option<int>): (nat, int) -> int {
    (p: nat, amount: int) =>
      if amount <= 0 then 0 else match quote(p, amount) case Some(v) => v case None => 0
  }

  /** So less than one chunk is left over, and concave quotes make the split optimal. */
  lemma GreedilySpends(q: Quotes, pools: nat, picks: seq<nat>, total: nat)
    requires total > 0 && ChunkSize(total) > 0 && Greedily(q, pools, picks) && |picks| == total / ChunkSize(total)
    ensures 0 <= total - Spent(SwapsFor(Split(pools, picks), ChunkSize(total))) < ChunkSize(total)
    ensures Concave(q, pools) ==> Optimal(q, Split(pools, picks))
  {
    ChunkCount(total);
    GreedilyIsBalanced(q, pools, picks);
    SwapsSpend(Split(pools, picks), ChunkSize(total));
    if Concave(q, pools) {
      BalancedOptimal(q, Split(pools, picks));
    }
  }

  /** A pool gets a swap exactly when it was picked, for as many chunks as it was. */
  lemma SentIffPicked(pools: nat, picks: seq<nat>, chunk: nat, swaps: seq<Swap>)
    requires forall j | 0 <= j < |picks| :: picks[j] < pools
    requires SendsEach(swaps, Split(pools, picks), chunk)
    ensures forall i: nat, amount: int | i < pools ::
              Swap(i, amount) in swaps <==> i in picks && amount == multiset(picks)[i] * chunk
  {
    forall i: nat, amount: int | i < pools
      ensures Swap(i, amount) in swaps <==> i in picks && amount == multiset(picks)[i] * chunk
    {
      SplitCounts(pools, picks, i);
      assert i in picks <==> i in multiset(picks);
      if Swap(i, amount) in swaps {
        var j :| 0 <= j < |swaps| && swaps[j] == Swap(i, amount);
        assert Sends(swaps[j], Split(pools, picks), chunk);
      }
    }
  }

  class Allocator {
    /** The pools' own quote functions; `None` is a quote that could not be had. */
    const quote: (nat, nat) -> Option<int>
    /** Quotes seen so far, over every call. */
    var cache: map<(nat, nat), int>

    ghost predicate Valid()
      reads this
    {
      forall key | key in cache :: cache[key] == Seen(quote)(key.0, key.1)
    }

    constructor (quote: (nat, nat) -> Option<int>)
      ensures Valid() && this.quote == quote
    {
      this.quote := quote;
      cache := map[];
    }

    method CachedQuote(p: nat, amount: nat) returns (out: int)
      requires Valid() && amount > 0
      modifies this
      ensures Valid() && out == Seen(quote)(p, amount)
      ensures out == if quote(p, amount).Some? then quote(p, amount).value else 0
    {
      if (p, amount) in cache {
        out := cache[(p, amount)];
      } else {
        var result := quote(p, amount);
        out := if result.Some? then result.value else 0;
        cache := cache[(p, amount) := out];
      }
    }

    /** One round: the first pool whose next chunk pays most. */
    method Pick(u: seq<nat>, chunk: nat) returns (best: nat)
      requires Valid() && chunk > 0 && u != []
      modifies this
      ensures Valid() && FirstBest(Payout(Seen(quote), chunk), u, best)
    {
      ghost var q := Payout(Seen(quote), chunk);
      var bestMarginal := 0;
      best := 0;
      var i := 0;
      while i < |u|
        invariant Valid()
        invariant 0 <= i <= |u| && best < |u| && (i > 0 ==> best < i)
        invariant i > 0 ==> bestMarginal == Marginal(q, best, u[best])
        invariant forall j | 0 <= j < i :: Marginal(q, j, u[j]) <= bestMarginal
        invariant forall j | 0 <= j < best :: Marginal(q, j, u[j]) < bestMarginal
      {
        var current := 0;
        if u[i] > 0 {
          Positive(u[i], chunk);
          current := CachedQuote(i, u[i] * chunk);
        }
        Positive(u[i] + 1, chunk);
        var next := CachedQuote(i, (u[i] + 1) * chunk);
        assert next - current == Marginal(q, i, u[i]);
        if i == 0 || next - current > bestMarginal {
          bestMarginal := next - current;
          best := i;
        }
        i := i + 1;
      }
    }

    /** Chunk by chunk to the first best pool. */
    method Distribute(pools: nat, chunk: nat, chunks: nat) returns (alloc: seq<nat>, ghost picks: seq<nat>)
      requires Valid() && pools > 0 && chunk > 0
      modifies this
      ensures Valid() && |picks| == chunks && Greedily(Payout(Seen(quote), chunk), pools, picks)
      ensures alloc == Split(pools, picks)
    {
      ghost var q := Payout(Seen(quote), chunk);
      alloc, picks := Alone(pools, pools, 0), [];
      for i := 0 to chunks
        invariant Valid() && |picks| == i && Greedily(q, pools, picks) && alloc == Split(pools, picks)
      {
        var best := Pick(alloc, chunk);
        assert (picks + [best])[..i] == picks;
        alloc := alloc[best := alloc[best] + 1];
        picks := picks + [best];
      }
    }

    /** The allocation: chunk by chunk to the first best pool; pools given nothing are
        dropped, and less than one chunk is left over. */
    method Allocate(pools: nat, total: nat) returns (r: Allocation, ghost picks: seq<nat>)
      requires Valid()
      modifies this
      ensures Valid()
      ensures r == Failed(DivisionByZero) <==> total == 0
      ensures r == Failed(NoPools) <==> total > 0 && pools == 0
      ensures r.Allocated? ==>
                var chunk := ChunkSize(total);
                var q := Payout(Seen(quote), chunk);
                && Greedily(q, pools, picks) && |picks| == total / chunk
                && SendsEach(r.swaps, Split(pools, picks), chunk)
                && (forall i: nat, amount: int | i < pools ::
                      Swap(i, amount) in r.swaps <==> i in picks && amount == multiset(picks)[i] * chunk)
                && 0 <= total - Spent(r.swaps) < chunk
                && (Concave(q, pools) ==> Optimal(q, Split(pools, picks)))
    {
      picks := [];
      if total == 0 {
        r := Failed(DivisionByZero);
        return;
      }
      ChunkCount(total);
      var chunk := ChunkSize(total);
      var chunks := total / chunk;
      if pools == 0 {
        r := Failed(NoPools);
        return;
      }
      var alloc;
      alloc, picks := Distribute(pools, chunk, chunks);
      GreedilySpends(Payout(Seen(quote), chunk), pools, picks, total);
      r := Allocated(SwapsFor(alloc, chunk));
      SwapsSendEach(alloc, chunk);
      SentIffPicked(pools, picks, chunk, r.swaps);
    }
  }

  lemma Positive(a: nat, b: nat)
    requires a > 0 && b > 0
    ensures a * b > 0
  {
  }
}
