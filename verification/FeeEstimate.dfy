/** What a fee estimate is, independent of how it is computed, and what follows. */
module FeeEstimate {
  import opened Bits
  import opened FeeSearch
  import R = FeeRing
  import A = FeeAverages
  import S = FeeScan

  datatype EstimatorBucket = EstimatorBucket(
    start: real, end: real, withinTarget: real, totalConfirmed: real, inMempool: real, leftMempool: real)

  const NO_BUCKET := EstimatorBucket(-1.0, -1.0, 0.0, 0.0, 0.0, 0.0)

  datatype Quote = Quote(rate: Option<real>, pass: EstimatorBucket, fail: EstimatorBucket)

  /** Transactions of a bucket that have waited at least `target` blocks, by the counters. */
  function Waiting(c: R.Counters, best: nat, target: nat, b: nat): int
    requires R.Shaped(c, |c.overflow|) && b < |c.overflow| && target <= |c.ring|
  {
    S.Scan(c, best, target, b) + c.overflow[b]
  }

  /** One cell per bucket for a target and its period. */
  function Cells(a: A.Averages, c: R.Counters, best: nat, target: nat, period: nat, n: nat): (cells: seq<Cell>)
    requires A.Shaped(a, n) && R.Shaped(c, n) && period < |a.confirmed| && target <= |c.ring|
    ensures |cells| == n
    ensures forall b :: 0 <= b < n ==>
      cells[b] == Cell(a.confirmed[period][b], a.txCount[b], a.failed[period][b], Waiting(c, best, target, b) as real)
  {
    seq(n, b requires 0 <= b < n =>
      Cell(a.confirmed[period][b], a.txCount[b], a.failed[period][b], Waiting(c, best, target, b) as real))
  }

  /** The fee range and sums of the buckets from `near` down to `far`. */
  function BucketRange(buckets: seq<real>, near: nat, far: nat, sums: Cell): EstimatorBucket
    requires near < |buckets| && far < |buckets|
  {
    var low, high := if near < far then near else far, if near < far then far else near;
    EstimatorBucket(A.LowerEnd(buckets, low), buckets[high], sums.within, sums.total, sums.waiting, sums.left)
  }

  function RangeOf(buckets: seq<real>, cells: seq<Cell>, span: Span): EstimatorBucket
    requires span.lo < span.hi <= |cells| == |buckets|
  {
    BucketRange(buckets, span.hi - 1, span.lo, Sum(cells, span.lo, span.hi))
  }

  function AverageRate(a: A.Averages, m: nat): real
    requires m < |a.txCount| == |a.feeRate| && a.txCount[m] > 0.0
  {
    a.feeRate[m] / a.txCount[m]
  }

  /** The average fee rate of the median bucket, when it is not negative. */
  ghost predicate IsMedianRate(a: A.Averages, cells: seq<Cell>, span: Span, rate: Option<real>)
    requires span.lo < span.hi <= |cells| == |a.txCount| == |a.feeRate|
  {
    exists m: nat :: IsMedian(cells, span, m) && a.txCount[m] > 0.0
      && rate == if AverageRate(a, m) >= 0.0 then Some(AverageRate(a, m)) else None
  }

  ghost predicate IsEstimate(e: Quote, a: A.Averages, buckets: seq<real>, cells: seq<Cell>, rules: Rules)
    requires |cells| == |a.txCount| == |a.feeRate| == |buckets|
  {
    var n := |cells|;
    var group := LastGroup(cells, rules, n);
    var bottom := if group.Some? then group.value.lo else n;
    var below := FailSpan(cells, rules, bottom);
    && e.fail == (if below.Some? then RangeOf(buckets, cells, below.value) else NO_BUCKET)
    && match group
       case None => e.pass == NO_BUCKET && e.rate == None
       case Some(span) =>
         var range := RangeOf(buckets, cells, span);
         if range.totalConfirmed > 0.0
         then e.pass == range && IsMedianRate(a, cells, span, e.rate)
         else e.pass == range.(start := -1.0, end := -1.0) && e.rate == None
  }

  // ----- The running sums of the search -----

  /** The accumulators of the scan. */
  datatype Tally = Tally(
    sums: Cell, partial: real, best: Option<Span>, pass: Cell, fail: EstimatorBucket, passing: bool)

  /** The accumulators hold the sums of the buckets scanned so far. */
  ghost predicate Tallied(buckets: seq<real>, cells: seq<Cell>, rules: Rules, k: nat, mark: nat, hi: nat, t: Tally)
    requires |buckets| == |cells|
  {
    && Scanned(cells, rules, k, mark, hi, t.best)
    && (t.passing <==> mark == hi)
    && t.sums == Sum(cells, k, hi) && t.partial == Sum(cells, k, mark).total
    && (t.best.Some? ==> t.pass == Sum(cells, t.best.value.lo, t.best.value.hi))
    && (t.passing ==> t.fail == NO_BUCKET)
    && (!t.passing ==> NextCheck(cells, rules, hi, hi).Some?
                       && t.fail == RangeOf(buckets, cells, Span(NextCheck(cells, rules, hi, hi).value, hi)))
  }

  lemma TallyStarts(buckets: seq<real>, cells: seq<Cell>, rules: Rules)
    requires |buckets| == |cells|
    ensures Tallied(buckets, cells, rules, |cells|, |cells|, |cells|,
                    Tally(NOTHING, 0.0, None, NOTHING, NO_BUCKET, true))
  {
  }

  lemma TallyTooFew(buckets: seq<real>, cells: seq<Cell>, rules: Rules, k: nat, mark: nat, hi: nat, t: Tally)
    requires |buckets| == |cells| && Tallied(buckets, cells, rules, k, mark, hi, t) && 0 < k
    requires t.partial + cells[k - 1].total < rules.enough
    ensures Tallied(buckets, cells, rules, k - 1, mark, hi,
                    t.(sums := Plus(cells[k - 1], t.sums), partial := t.partial + cells[k - 1].total))
  {
    hide LastGroup, NextCheck, RangeOf;
    ScanTooFew(cells, rules, k, mark, hi, t.best);
  }

  lemma TallyFails(buckets: seq<real>, cells: seq<Cell>, rules: Rules, k: nat, mark: nat, hi: nat, t: Tally)
    requires |buckets| == |cells| && Tallied(buckets, cells, rules, k, mark, hi, t) && 0 < k
    requires t.partial + cells[k - 1].total >= rules.enough && !Passes(Plus(cells[k - 1], t.sums), rules)
    ensures var sums := Plus(cells[k - 1], t.sums);
      var fail := if t.passing then BucketRange(buckets, hi - 1, k - 1, sums) else t.fail;
      Tallied(buckets, cells, rules, k - 1, k - 1, hi, t.(sums := sums, partial := 0.0, fail := fail, passing := false))
  {
    hide LastGroup, NextCheck, BucketRange, Passes;
    ScanFails(cells, rules, k, mark, hi, t.best);
  }

  lemma TallyPasses(buckets: seq<real>, cells: seq<Cell>, rules: Rules, k: nat, mark: nat, hi: nat, t: Tally)
    requires |buckets| == |cells| && Tallied(buckets, cells, rules, k, mark, hi, t) && 0 < k
    requires t.partial + cells[k - 1].total >= rules.enough && Passes(Plus(cells[k - 1], t.sums), rules)
    ensures Tallied(buckets, cells, rules, k - 1, k - 1, k - 1,
                    Tally(NOTHING, 0.0, Some(Span(k - 1, hi)), Plus(cells[k - 1], t.sums), NO_BUCKET, true))
  {
    hide LastGroup, NextCheck, BucketRange, Passes;
    ScanPasses(cells, rules, k, mark, hi, t.best);
  }

  lemma TallyEnds(buckets: seq<real>, cells: seq<Cell>, rules: Rules, mark: nat, hi: nat, t: Tally)
    requires |buckets| == |cells| && Tallied(buckets, cells, rules, 0, mark, hi, t)
    ensures t.best == LastGroup(cells, rules, |cells|)
    ensures t.best.Some? ==> t.best.value.lo < t.best.value.hi <= |cells|
    ensures t.best.Some? ==> t.pass == Sum(cells, t.best.value.lo, t.best.value.hi)
    ensures hi == if t.best.Some? then t.best.value.lo else |cells|
    ensures var below := FailSpan(cells, rules, hi);
      var fail := if t.passing && 0 < hi then BucketRange(buckets, hi - 1, 0, t.sums) else t.fail;
      fail == (if below.Some? then RangeOf(buckets, cells, below.value) else NO_BUCKET)
  {
    hide LastGroup, NextCheck, BucketRange;
    ScanEnds(cells, rules, mark, hi, t.best);
  }

  // ----- Consequences -----

  /** The failing range starts directly below the passing one. */
  lemma FailBelowPass(e: Quote, a: A.Averages, buckets: seq<real>, cells: seq<Cell>, rules: Rules)
    requires |cells| == |a.txCount| == |a.feeRate| == |buckets|
    requires A.Ascending(buckets) && NonNegative(cells) && rules.enough > 0.0
    requires IsEstimate(e, a, buckets, cells, rules)
    ensures e.pass != NO_BUCKET && e.fail != NO_BUCKET ==> e.fail.end == e.pass.start
    ensures e.pass != NO_BUCKET && e.fail == NO_BUCKET ==> e.pass.start == 0.0
    ensures e.pass == NO_BUCKET ==> e.fail.end == buckets[|buckets| - 1]
  {
    LastGroupIsGroup(cells, rules, |cells|);
    var group := LastGroup(cells, rules, |cells|);
    if group.Some? {
      assert RangeOf(buckets, cells, group.value).totalConfirmed > 0.0;
      assert e.pass.start >= 0.0;
    }
  }

  /** A returned range holds enough transactions, enough of them in time. */
  lemma PassMeetsRules(e: Quote, a: A.Averages, buckets: seq<real>, cells: seq<Cell>, rules: Rules)
    requires |cells| == |a.txCount| == |a.feeRate| == |buckets| && NonNegative(cells)
    requires IsEstimate(e, a, buckets, cells, rules) && LastGroup(cells, rules, |cells|).Some?
    ensures e.pass.totalConfirmed >= rules.enough
    ensures var all := e.pass.totalConfirmed + e.pass.leftMempool + e.pass.inMempool;
      if all > 0.0 then e.pass.withinTarget >= rules.threshold * all else rules.threshold <= 0.0
  {
    hide Passes, IsEstimate, LastGroup, Sum, NonNegative;
    PassIsGroup(e, a, buckets, cells, rules);
    PassesIff(SumsOf(e.pass), rules);
  }

  /** The four sums of a range. */
  function SumsOf(r: EstimatorBucket): Cell { Cell(r.withinTarget, r.totalConfirmed, r.leftMempool, r.inMempool) }

  lemma PassIsGroup(e: Quote, a: A.Averages, buckets: seq<real>, cells: seq<Cell>, rules: Rules)
    requires |cells| == |a.txCount| == |a.feeRate| == |buckets| && NonNegative(cells)
    requires IsEstimate(e, a, buckets, cells, rules) && LastGroup(cells, rules, |cells|).Some?
    ensures e.pass.totalConfirmed >= rules.enough && Passes(SumsOf(e.pass), rules)
  {
    hide Passes, IsMedianRate, LastGroup, FailSpan, Sum, NonNegative;
    LastGroupIsGroup(cells, rules, |cells|);
  }

  /** A failing range with enough transactions misses the threshold; one with too few reaches the bottom. */
  lemma FailMissesRules(e: Quote, a: A.Averages, buckets: seq<real>, cells: seq<Cell>, rules: Rules)
    requires |cells| == |a.txCount| == |a.feeRate| == |buckets| && NonNegative(cells) && A.Ascending(buckets)
    requires IsEstimate(e, a, buckets, cells, rules) && e.fail != NO_BUCKET
    ensures var all := e.fail.totalConfirmed + e.fail.leftMempool + e.fail.inMempool;
      if e.fail.totalConfirmed < rules.enough then e.fail.start == 0.0
      else if all > 0.0 then e.fail.withinTarget < rules.threshold * all else rules.threshold > 0.0
  {
    hide Passes, IsEstimate, NonNegative, A.Ascending;
    FailIsNoGroup(e, a, buckets, cells, rules);
    PassesIff(SumsOf(e.fail), rules);
  }

  lemma FailIsNoGroup(e: Quote, a: A.Averages, buckets: seq<real>, cells: seq<Cell>, rules: Rules)
    requires |cells| == |a.txCount| == |a.feeRate| == |buckets| && NonNegative(cells)
    requires IsEstimate(e, a, buckets, cells, rules) && e.fail != NO_BUCKET
    ensures if e.fail.totalConfirmed < rules.enough then e.fail.start == 0.0 else !Passes(SumsOf(e.fail), rules)
  {
    hide Passes, LastGroup, GroupBottom, IsMedianRate, Sum, NonNegative;
    var group := LastGroup(cells, rules, |cells|);
    var q := if group.Some? then group.value.lo else |cells|;
    NothingBelow(cells, rules);
    NoGroupNoPass(cells, rules, q);
    NoCheckTooFew(cells, rules, q);
  }

  lemma NoCheckTooFew(cells: seq<Cell>, rules: Rules, q: nat)
    requires 0 < q <= |cells|
    ensures var p := NextCheck(cells, rules, q, q);
      if p.Some? then Sum(cells, p.value, q).total >= rules.enough else Sum(cells, 0, q).total < rules.enough
  {
  }

  lemma NothingBelow(cells: seq<Cell>, rules: Rules)
    requires NonNegative(cells)
    ensures var group := LastGroup(cells, rules, |cells|);
      var q := if group.Some? then group.value.lo else |cells|; GroupBottom(cells, rules, q, q).None?
  {
    CutsTile(cells, rules, |cells|);
  }

  lemma NoGroupNoPass(cells: seq<Cell>, rules: Rules, q: nat)
    requires q <= |cells| && GroupBottom(cells, rules, q, q).None?
    ensures var p := NextCheck(cells, rules, q, q); p.Some? ==> !Passes(Sum(cells, p.value, q), rules)
  {
  }

  // ----- The sums of a range, row by row -----

  ghost function Added(row: seq<real>, lo: nat, hi: nat): real
    requires lo <= hi <= |row|
  {
    if lo == hi then 0.0 else Added(row, lo, hi - 1) + row[hi - 1]
  }

  /** The waiting transactions of every bucket, by the counters. */
  ghost function WaitingRow(c: R.Counters, best: nat, target: nat): (row: seq<real>)
    requires R.Shaped(c, |c.overflow|) && target <= |c.ring|
    ensures |row| == |c.overflow|
  {
    seq(|c.overflow|, b requires 0 <= b < |c.overflow| => Waiting(c, best, target, b) as real)
  }

  lemma {:induction false} SumRows(a: A.Averages, c: R.Counters, best: nat, target: nat, period: nat, n: nat,
                                   lo: nat, hi: nat)
    requires A.Shaped(a, n) && R.Shaped(c, n) && period < |a.confirmed| && target <= |c.ring| && lo <= hi <= n
    ensures Sum(Cells(a, c, best, target, period, n), lo, hi)
      == Cell(Added(a.confirmed[period], lo, hi), Added(a.txCount, lo, hi), Added(a.failed[period], lo, hi),
              Added(WaitingRow(c, best, target), lo, hi))
    decreases hi - lo
  {
    hide Waiting;
    if lo < hi {
      SumRows(a, c, best, target, period, n, lo, hi - 1);
      SumLast(Cells(a, c, best, target, period, n), lo, hi - 1);
    }
  }

  /** The range that is reported and its sums: confirmed in time and failed from the target's
      rows, confirmed at all, and waiting; the rate is the average of a bucket that leaves at
      most half of the confirmed transactions on either side. */
  ghost predicate Reports(e: Quote, a: A.Averages, waiting: seq<real>, period: nat, buckets: seq<real>,
                          lo: nat, hi: nat)
    requires A.Shaped(a, |buckets|) && |waiting| == |buckets| && period < |a.confirmed|
  {
    && lo < hi <= |buckets|
    && e.pass.start == (if lo == 0 then 0.0 else buckets[lo - 1]) && e.pass.end == buckets[hi - 1]
    && e.pass.withinTarget == Added(a.confirmed[period], lo, hi)
    && e.pass.totalConfirmed == Added(a.txCount, lo, hi)
    && e.pass.leftMempool == Added(a.failed[period], lo, hi)
    && e.pass.inMempool == Added(waiting, lo, hi)
    && exists m: nat :: IsTypical(e.rate, a, lo, hi, m)
  }

  ghost predicate IsTypical(rate: Option<real>, a: A.Averages, lo: nat, hi: nat, m: nat)
    requires lo < hi <= |a.txCount| == |a.feeRate|
  {
    && lo <= m < hi && a.txCount[m] > 0.0
    && 2.0 * Added(a.txCount, lo, m) <= Added(a.txCount, lo, hi)
    && 2.0 * Added(a.txCount, m + 1, hi) <= Added(a.txCount, lo, hi)
    && (rate.Some? <==> a.feeRate[m] >= 0.0) && (rate.Some? ==> rate.value * a.txCount[m] == a.feeRate[m])
  }

  lemma PassIsReported(e: Quote, a: A.Averages, c: R.Counters, best: nat, target: nat, period: nat,
                       buckets: seq<real>, rules: Rules)
    requires A.Plausible(a, buckets) && R.Shaped(c, |buckets|) && period < |a.confirmed| && target <= |c.ring|
    requires rules.enough > 0.0
    requires IsEstimate(e, a, buckets, Cells(a, c, best, target, period, |buckets|), rules)
    ensures e.pass != NO_BUCKET ==>
      exists lo: nat, hi: nat :: Reports(e, a, WaitingRow(c, best, target), period, buckets, lo, hi)
  {
    hide LastGroup, FailSpan, Cells, WaitingRow, Sum, Added;
    var cells := Cells(a, c, best, target, period, |buckets|);
    var group := LastGroup(cells, rules, |cells|);
    if group.Some? {
      var lo, hi := group.value.lo, group.value.hi;
      SumRows(a, c, best, target, period, |buckets|, lo, hi);
      assert NonNegative(cells) by { CountsNonNegative(a, buckets, cells); }
      LastGroupIsGroup(cells, rules, |cells|);
      var m: nat :| IsMedian(cells, group.value, m) && a.txCount[m] > 0.0
        && e.rate == if AverageRate(a, m) >= 0.0 then Some(AverageRate(a, m)) else None;
      MedianBalances(cells, group.value, m);
      SumRows(a, c, best, target, period, |buckets|, lo, m);
      SumRows(a, c, best, target, period, |buckets|, m + 1, hi);
      SignOfQuotient(a.feeRate[m], a.txCount[m]);
      assert IsTypical(e.rate, a, lo, hi, m);
      assert Reports(e, a, WaitingRow(c, best, target), period, buckets, lo, hi);
    }
  }

  lemma SignOfQuotient(x: real, y: real)
    requires y > 0.0
    ensures (x / y >= 0.0 <==> x >= 0.0) && x / y * y == x
  {
    QuotientAtLeast(x, y, 0.0);
  }

  lemma {:induction false} SumShares(cells: seq<Cell>, lo: nat, hi: nat)
    requires lo <= hi <= |cells|
    requires forall i :: 0 <= i < |cells| ==> 0.0 <= cells[i].within <= cells[i].total && 0.0 <= cells[i].left
    ensures var c := Sum(cells, lo, hi); 0.0 <= c.within <= c.total && 0.0 <= c.left
    decreases hi - lo
  {
    if lo < hi {
      SumShares(cells, lo + 1, hi);
    }
  }

  /** The sums of a range are shares: no more confirmed in time than confirmed at all. */
  lemma RangesAreShares(e: Quote, a: A.Averages, c: R.Counters, best: nat, target: nat, period: nat,
                        buckets: seq<real>, rules: Rules)
    requires A.Plausible(a, buckets) && R.Shaped(c, |buckets|) && period < |a.confirmed| && target <= |c.ring|
    requires IsEstimate(e, a, buckets, Cells(a, c, best, target, period, |buckets|), rules)
    ensures 0.0 <= e.pass.withinTarget <= e.pass.totalConfirmed && 0.0 <= e.pass.leftMempool
    ensures 0.0 <= e.fail.withinTarget <= e.fail.totalConfirmed && 0.0 <= e.fail.leftMempool
  {
    hide LastGroup, FailSpan, IsMedianRate;
    var cells := Cells(a, c, best, target, period, |buckets|);
    forall b | 0 <= b < |cells| ensures 0.0 <= cells[b].within <= cells[b].total && 0.0 <= cells[b].left {
      assert A.CellFits(a, |buckets|, period, b);
    }
    var group := LastGroup(cells, rules, |cells|);
    var below := FailSpan(cells, rules, if group.Some? then group.value.lo else |cells|);
    if group.Some? {
      SumShares(cells, group.value.lo, group.value.hi);
    }
    if below.Some? {
      SumShares(cells, below.value.lo, below.value.hi);
    }
  }

  lemma AverageInBounds(low: real, high: real, count: real, fees: real)
    requires count > 0.0 && low * count <= fees <= high * count
    ensures low <= fees / count <= high
  {
    var v := fees / count;
    assert v * count == fees;
    if v < low {
      PositiveProduct(low - v, count);
    } else if v > high {
      PositiveProduct(v - high, count);
    }
  }

  lemma PositiveProduct(x: real, y: real)
    requires x > 0.0 && y > 0.0
    ensures x * y > 0.0
  {
  }

  lemma BoundariesNest(buckets: seq<real>, lo: nat, m: nat, hi: nat)
    requires A.Ascending(buckets) && lo <= m < hi <= |buckets|
    ensures 0.0 <= A.LowerEnd(buckets, lo) <= A.LowerEnd(buckets, m) && buckets[m] <= buckets[hi - 1]
  {
    if lo > 0 {
      assert buckets[0] <= buckets[lo - 1];
    } else if m > 0 {
      assert buckets[0] <= buckets[m - 1];
    }
  }

  /** With plausible averages and a positive sufficiency bound, a range that is
      found yields a rate, and the rate lies inside the range. */
  lemma EstimateInRange(e: Quote, a: A.Averages, buckets: seq<real>, cells: seq<Cell>, rules: Rules)
    requires A.Ascending(buckets) && A.Plausible(a, buckets) && rules.enough > 0.0
    requires |cells| == |buckets| && forall b :: 0 <= b < |cells| ==> cells[b].total == a.txCount[b]
    requires IsEstimate(e, a, buckets, cells, rules)
    ensures LastGroup(cells, rules, |cells|).Some? <==> e.rate.Some?
    ensures e.rate.Some? ==> e.pass.start <= e.rate.value <= e.pass.end
  {
    hide AverageRate, LastGroup, IsMedian, FailSpan, A.FeeSumFits;
    assert NonNegative(cells) by { CountsNonNegative(a, buckets, cells); }
    LastGroupIsGroup(cells, rules, |cells|);
    var group := LastGroup(cells, rules, |cells|);
    if group.Some? {
      MedianRateInRange(a, buckets, cells, group.value, e.rate);
    }
  }

  lemma CountsNonNegative(a: A.Averages, buckets: seq<real>, cells: seq<Cell>)
    requires A.Plausible(a, buckets)
    requires |cells| == |buckets| && forall b :: 0 <= b < |cells| ==> cells[b].total == a.txCount[b]
    ensures NonNegative(cells)
  {
    forall b | 0 <= b < |cells| ensures cells[b].total >= 0.0 { assert A.FeeSumFits(a, buckets, b); }
  }

  lemma MedianRateInRange(a: A.Averages, buckets: seq<real>, cells: seq<Cell>, span: Span, rate: Option<real>)
    requires A.Ascending(buckets) && A.Plausible(a, buckets) && span.lo < span.hi <= |cells| == |buckets|
    requires IsMedianRate(a, cells, span, rate)
    ensures rate.Some? && A.LowerEnd(buckets, span.lo) <= rate.value <= buckets[span.hi - 1]
  {
    hide AverageRate;
    var m: nat :| IsMedian(cells, span, m) && a.txCount[m] > 0.0
      && rate == if AverageRate(a, m) >= 0.0 then Some(AverageRate(a, m)) else None;
    BoundariesNest(buckets, span.lo, m, span.hi);
    assert A.FeeSumFits(a, buckets, m);
    hide A.Plausible, IsMedian, IsMedianRate, A.Ascending;
    AverageInBounds(A.LowerEnd(buckets, m), buckets[m], a.txCount[m], a.feeRate[m]);
    AverageRateIs(a, m);
  }

  lemma AverageRateIs(a: A.Averages, m: nat)
    requires m < |a.txCount| == |a.feeRate| && a.txCount[m] > 0.0
    ensures AverageRate(a, m) == a.feeRate[m] / a.txCount[m]
  {
  }
}
