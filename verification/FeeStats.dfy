/** One horizon of the fee estimator: its counters and averages, updated in place. */
module FeeStats {
  import opened Arithmetic
  import opened Bits
  import opened FeeSearch
  import opened FeeEstimate
  import R = FeeRing
  import A = FeeAverages
  import S = FeeScan

  /** `max_confirms` never overflows for the horizons in use, so it is a plain product. */
  function MaxConfirms(periods: nat, scale: nat): nat { periods * scale }

  class ConfirmStats {
    const decay: real
    const scale: nat
    var txCountAverage: seq<real>
    var confirmationAverage: seq<seq<real>>
    var failureAverage: seq<seq<real>>
    var feeRateAverage: seq<real>
    var unconfirmed: seq<seq<int>>
    var oldUnconfirmed: seq<int>

    function Averages(): A.Averages
      reads this
    {
      A.Averages(txCountAverage, feeRateAverage, confirmationAverage, failureAverage)
    }

    function Counters(): R.Counters
      reads this
    {
      R.Counters(unconfirmed, oldUnconfirmed)
    }

    predicate Valid(buckets: nat)
      reads this
    {
      && 0.0 <= decay < 1.0 && scale > 0 && confirmationAverage != []
      && A.Shaped(Averages(), buckets) && R.Shaped(Counters(), buckets)
      && |unconfirmed| == MaxConfirms(|confirmationAverage|, scale)
    }

    constructor (buckets: nat, periods: nat, decay: real, scale: nat)
      requires 0.0 <= decay < 1.0 && scale > 0 && periods > 0
      ensures Valid(buckets) && this.decay == decay && this.scale == scale
      ensures Averages() == A.FreshAverages(buckets, periods)
      ensures unconfirmed == seq(MaxConfirms(periods, scale), _ => seq(buckets, _ => 0))
      ensures oldUnconfirmed == seq(buckets, _ => 0)
    {
      this.decay := decay;
      this.scale := scale;
      txCountAverage := seq(buckets, _ => 0.0);
      confirmationAverage := seq(periods, _ => seq(buckets, _ => 0.0));
      failureAverage := seq(periods, _ => seq(buckets, _ => 0.0));
      feeRateAverage := seq(buckets, _ => 0.0);
      unconfirmed := seq(MaxConfirms(periods, scale), _ => seq(buckets, _ => 0));
      oldUnconfirmed := seq(buckets, _ => 0);
    }

    /** A block takes over its slot; the counts still in it move to the overflow row. */
    method ClearCurrent(height: nat)
      requires Valid(|oldUnconfirmed|)
      modifies this`unconfirmed, this`oldUnconfirmed
      ensures Valid(|oldUnconfirmed|)
      ensures Counters() == R.Cleared(old(Counters()), height) && Averages() == old(Averages())
    {
      ghost var before := Counters();
      var index := height % |unconfirmed|;
      var bucket := 0;
      while bucket < |oldUnconfirmed|
        invariant bucket <= |oldUnconfirmed| == |before.overflow|
        invariant |unconfirmed| == |before.ring| && |unconfirmed[index]| == |before.overflow|
        invariant forall i :: 0 <= i < |unconfirmed| && i != index ==> unconfirmed[i] == before.ring[i]
        invariant forall b :: 0 <= b < bucket ==>
          unconfirmed[index][b] == 0 && oldUnconfirmed[b] == R.Clamp(before.overflow[b] + before.ring[index][b])
        invariant forall b :: bucket <= b < |before.overflow| ==>
          unconfirmed[index][b] == before.ring[index][b] && oldUnconfirmed[b] == before.overflow[b]
      {
        oldUnconfirmed := oldUnconfirmed[bucket := R.Clamp(oldUnconfirmed[bucket] + unconfirmed[index][bucket])];
        unconfirmed := unconfirmed[index := unconfirmed[index][bucket := 0]];
        bucket := bucket + 1;
      }
      assert unconfirmed[index] == seq(|before.overflow|, _ => 0);
      assert unconfirmed == R.Cleared(before, height).ring;
      assert oldUnconfirmed == R.Cleared(before, height).overflow;
    }

    /** Every average decays by one block. */
    method UpdateMovingAverages()
      requires Valid(|txCountAverage|)
      modifies this`txCountAverage, this`feeRateAverage, this`confirmationAverage, this`failureAverage
      ensures Valid(|txCountAverage|)
      ensures Averages() == A.Decayed(old(Averages()), decay) && Counters() == old(Counters())
    {
      hide RowDecayed, RowsDecayed;
      ghost var a := Averages();
      ghost var n := |txCountAverage|;
      NothingDecayed(a, decay, n);
      var bucket := 0;
      while bucket < |txCountAverage|
        invariant bucket <= n == |txCountAverage|
        invariant RowDecayed(txCountAverage, a.txCount, decay, bucket, n)
        invariant RowDecayed(feeRateAverage, a.feeRate, decay, bucket, n)
        invariant RowsDecayed(confirmationAverage, a.confirmed, decay, bucket, n)
        invariant RowsDecayed(failureAverage, a.failed, decay, bucket, n)
      {
        confirmationAverage := DecayColumn(confirmationAverage, a.confirmed, decay, bucket, n);
        failureAverage := DecayColumn(failureAverage, a.failed, decay, bucket, n);
        ghost var counts, rates := txCountAverage, feeRateAverage;
        RowLength(txCountAverage, a.txCount, decay, bucket, n);
        RowLength(feeRateAverage, a.feeRate, decay, bucket, n);
        txCountAverage := txCountAverage[bucket := txCountAverage[bucket] * decay];
        feeRateAverage := feeRateAverage[bucket := feeRateAverage[bucket] * decay];
        DecayCell(counts, txCountAverage, a.txCount, decay, bucket, n);
        DecayCell(rates, feeRateAverage, a.feeRate, decay, bucket, n);
        bucket := bucket + 1;
      }
      DecayedRow(txCountAverage, a.txCount, decay, n);
      DecayedRow(feeRateAverage, a.feeRate, decay, n);
      DecayedRows(confirmationAverage, a.confirmed, decay, n);
      DecayedRows(failureAverage, a.failed, decay, n);
    }

    /** A transaction enters the ring at `height`. */
    method NewTransaction(buckets: seq<real>, height: nat, feeRate: real) returns (bucket: nat)
      requires buckets != [] && Valid(|buckets|)
      modifies this`unconfirmed
      ensures Valid(|buckets|) && bucket == A.BucketIndex(buckets, feeRate)
      ensures Counters() == R.Entered(old(Counters()), height, bucket) && Averages() == old(Averages())
    {
      bucket := A.BucketIndex(buckets, feeRate);
      var index := height % |unconfirmed|;
      var row := unconfirmed[index];
      unconfirmed := unconfirmed[index := row[bucket := R.Clamp(row[bucket] + 1)]];
    }

    /** A transaction confirmed after `blocksToConfirm` blocks; zero blocks record nothing. */
    method RecordConfirmation(buckets: seq<real>, blocksToConfirm: nat, feeRate: real)
      requires buckets != [] && Valid(|buckets|)
      modifies this`confirmationAverage, this`txCountAverage, this`feeRateAverage
      ensures Valid(|buckets|) && Counters() == old(Counters())
      ensures Averages()
        == A.Recorded(old(Averages()), blocksToConfirm, scale, A.BucketIndex(buckets, feeRate), feeRate)
    {
      if blocksToConfirm == 0 {
        return;
      }
      var periods := A.PeriodsFor(blocksToConfirm, scale);
      var bucket := A.BucketIndex(buckets, feeRate);
      var start := if periods == 0 then 0 else periods - 1;
      confirmationAverage := AddToColumn(confirmationAverage, bucket, start, |confirmationAverage|);
      txCountAverage := txCountAverage[bucket := txCountAverage[bucket] + 1.0];
      feeRateAverage := feeRateAverage[bucket := feeRateAverage[bucket] + feeRate];
    }

    /** A transaction leaves; outside a block it counts as failed for the periods it waited. */
    method RemoveTransaction(entryHeight: nat, bestHeight: nat, bucket: nat, inBlock: bool)
      requires Valid(|oldUnconfirmed|) && bucket < |oldUnconfirmed|
      modifies this`unconfirmed, this`oldUnconfirmed, this`failureAverage
      ensures Valid(|oldUnconfirmed|)
      ensures Counters() == R.Left(old(Counters()), entryHeight, bestHeight, bucket)
      ensures Averages() == if inBlock then old(Averages())
        else A.Abandoned(old(Averages()), R.SaturatingSub(bestHeight, entryHeight), scale, bucket)
    {
      var blocksAgo := R.SaturatingSub(bestHeight, entryHeight);
      if blocksAgo >= MaxConfirms(|confirmationAverage|, scale) {
        oldUnconfirmed := oldUnconfirmed[bucket := R.Clamp(oldUnconfirmed[bucket] - 1)];
      } else {
        var index := entryHeight % |unconfirmed|;
        var row := unconfirmed[index];
        unconfirmed := unconfirmed[index := row[bucket := R.Clamp(row[bucket] - 1)]];
      }
      if !inBlock && blocksAgo >= scale {
        var periods := blocksAgo / scale;
        var failurePeriods := if periods < |failureAverage| then periods else |failureAverage|;
        failureAverage := AddToColumn(failureAverage, bucket, 0, failurePeriods);
      }
    }

    /** The cells the search runs over. */
    function CellsFor(target: nat, bestHeight: nat, buckets: nat): (cells: seq<Cell>)
      requires Valid(buckets) && target <= MaxConfirms(|confirmationAverage|, scale)
      reads this
      ensures |cells| == buckets
    {
      PeriodInRange(target, scale, |confirmationAverage|);
      Cells(Averages(), Counters(), bestHeight, target, PeriodOf(target, scale), buckets)
    }

    /** Transactions of a bucket that have waited at least `target` blocks. */
    method CountWaiting(target: nat, bestHeight: nat, bucket: nat) returns (waiting: real)
      requires Valid(|oldUnconfirmed|) && bucket < |oldUnconfirmed|
      requires target <= MaxConfirms(|confirmationAverage|, scale)
      ensures waiting == Waiting(Counters(), bestHeight, target, bucket) as real
    {
      waiting := 0.0;
      var confirmation := target;
      while confirmation < MaxConfirms(|confirmationAverage|, scale)
        invariant target <= confirmation <= |unconfirmed|
        invariant waiting == (S.Scan(Counters(), bestHeight, target, bucket)
                              - S.Scan(Counters(), bestHeight, confirmation, bucket)) as real
      {
        var index := R.SaturatingSub(bestHeight, confirmation) % |unconfirmed|;
        waiting := waiting + unconfirmed[index][bucket] as real;
        confirmation := confirmation + 1;
      }
      waiting := waiting + oldUnconfirmed[bucket] as real;
    }

    /** The median bucket of a span: where half of its transactions are reached. */
    method FindMedian(buckets: nat, span: Span, ghost cells: seq<Cell>, totalCount: real) returns (rate: Option<real>)
      requires Valid(buckets) && span.lo < span.hi <= buckets == |cells|
      requires forall b :: 0 <= b < buckets ==> cells[b].total == txCountAverage[b]
      requires totalCount == Sum(cells, span.lo, span.hi).total > 0.0
      ensures IsMedianRate(Averages(), cells, span, rate)
    {
      hide AverageRate;
      var remaining := totalCount / 2.0;
      var bucket := span.lo;
      while true
        invariant span.lo <= bucket < span.hi && remaining > 0.0
        invariant remaining == totalCount / 2.0 - Sum(cells, span.lo, bucket).total
        invariant forall j :: span.lo < j <= bucket ==> Sum(cells, span.lo, j).total < totalCount / 2.0
        decreases span.hi - bucket
      {
        SumLast(cells, span.lo, bucket);
        if txCountAverage[bucket] < remaining {
          remaining := remaining - txCountAverage[bucket];
          bucket := bucket + 1;
        } else {
          assert IsMedian(cells, span, bucket);
          var value := AverageRate(Averages(), bucket);
          return if value >= 0.0 then Some(value) else None;
        }
      }
    }

    /** The fee estimate for a target; out-of-range arguments estimate nothing. */
    method Estimate(buckets: seq<real>, target: nat, sufficientTxValue: real, successThreshold: real, bestHeight: nat)
      returns (e: Quote)
      requires buckets != [] && Valid(|buckets|)
      ensures var usable := 0 < target <= MaxConfirms(|confirmationAverage|, scale) && 0.0 <= successThreshold <= 1.0;
        if usable
        then IsEstimate(e, Averages(), buckets, CellsFor(target, bestHeight, |buckets|),
                        Rules(sufficientTxValue / (1.0 - decay), successThreshold))
        else e == Quote(None, NO_BUCKET, NO_BUCKET)
    {
      hide LastGroup, FailSpan, IsMedianRate, Cells, MaxConfirms;
      if target == 0 || target > MaxConfirms(|confirmationAverage|, scale)
         || !(0.0 <= successThreshold <= 1.0) {
        return Quote(None, NO_BUCKET, NO_BUCKET);
      }
      PeriodInRange(target, scale, |confirmationAverage|);
      ghost var cells := CellsFor(target, bestHeight, |buckets|);
      var rules := Rules(sufficientTxValue / (1.0 - decay), successThreshold);
      var best, passSums, fail := SearchBuckets(buckets, target, rules, bestHeight);
      var pass, rate := NO_BUCKET, None;
      if best.Some? {
        var span := best.value;
        pass := EstimatorBucket(-1.0, -1.0, passSums.within, passSums.total, passSums.waiting, passSums.left);
        var totalBucketCount := 0.0;
        for bucket := span.lo to span.hi
          invariant totalBucketCount == Sum(cells, span.lo, bucket).total
        {
          SumLast(cells, span.lo, bucket);
          totalBucketCount := totalBucketCount + txCountAverage[bucket];
        }
        if totalBucketCount > 0.0 {
          rate := FindMedian(|buckets|, span, cells, totalBucketCount);
          pass := pass.(start := A.LowerEnd(buckets, span.lo), end := buckets[span.hi - 1]);
        }
      }
      return Quote(rate, pass, fail);
    }

    /** What one bucket adds to the running sums. */
    method ReadCell(target: nat, bestHeight: nat, bucket: nat, n: nat) returns (cell: Cell)
      requires Valid(n) && target <= MaxConfirms(|confirmationAverage|, scale) && bucket < n
      ensures cell == CellsFor(target, bestHeight, n)[bucket]
    {
      hide MaxConfirms, PeriodOf;
      PeriodInRange(target, scale, |confirmationAverage|);
      var periodTarget := PeriodOf(target, scale);
      var waiting := CountWaiting(target, bestHeight, bucket);
      cell := Cell(confirmationAverage[periodTarget][bucket], txCountAverage[bucket],
                   failureAverage[periodTarget][bucket], waiting);
    }

    /** The scan from the highest bucket down, with its running sums. */
    method SearchBuckets(buckets: seq<real>, target: nat, rules: Rules, bestHeight: nat)
      returns (best: Option<Span>, pass: Cell, fail: EstimatorBucket)
      requires buckets != [] && Valid(|buckets|) && target <= MaxConfirms(|confirmationAverage|, scale)
      ensures var cells := CellsFor(target, bestHeight, |buckets|);
        && best == LastGroup(cells, rules, |buckets|)
        && (best.Some? ==> pass == Sum(cells, best.value.lo, best.value.hi))
        && var below := FailSpan(cells, rules, if best.Some? then best.value.lo else |buckets|);
           fail == (if below.Some? then RangeOf(buckets, cells, below.value) else NO_BUCKET)
    {
      hide Tallied, LastGroup, FailSpan, Passes, CellsFor, Valid, MaxConfirms, BucketRange, Sum;
      ghost var cells := CellsFor(target, bestHeight, |buckets|);
      var sums, partial := NOTHING, 0.0;
      var currentNear := |buckets| - 1;
      var newRange, passing := true, true;
      best, pass, fail := None, NOTHING, NO_BUCKET;
      var k: nat := |buckets|;
      ghost var mark: nat, hi: nat := k, k;
      TallyStarts(buckets, cells, rules);
      while k > 0
        invariant k <= hi <= |buckets|
        invariant Tallied(buckets, cells, rules, k, mark, hi, Tally(sums, partial, best, pass, fail, passing))
        invariant newRange <==> k == hi
        invariant !newRange ==> hi == currentNear + 1
      {
        var bucket := k - 1;
        ghost var before := Tally(sums, partial, best, pass, fail, passing);
        if newRange {
          currentNear := bucket;
          newRange := false;
        }
        var cell := ReadCell(target, bestHeight, bucket, |buckets|);
        sums := Plus(cell, sums);
        partial := partial + cell.total;
        if partial < rules.enough {
          TallyTooFew(buckets, cells, rules, k, mark, hi, before);
        } else {
          partial := 0.0;
          if !Passes(sums, rules) {
            TallyFails(buckets, cells, rules, k, mark, hi, before);
            if passing {
              fail := BucketRange(buckets, currentNear, bucket, sums);
              passing := false;
            }
            mark := bucket;
          } else {
            TallyPasses(buckets, cells, rules, k, mark, hi, before);
            fail := NO_BUCKET;
            passing := true;
            pass := sums;
            sums := NOTHING;
            best := Some(Span(bucket, currentNear + 1));
            newRange := true;
            mark, hi := bucket, bucket;
          }
        }
        k := bucket;
      }
      TallyEnds(buckets, cells, rules, mark, hi, Tally(sums, partial, best, pass, fail, passing));
      if passing && !newRange {
        fail := BucketRange(buckets, currentNear, 0, sums);
      }
    }
  }

  /** The period a target falls into. */
  function PeriodOf(target: nat, scale: nat): nat
    requires scale > 0
  {
    R.SaturatingSub(A.PeriodsFor(target, scale), 1)
  }

  lemma PeriodInRange(target: nat, scale: nat, periods: nat)
    requires scale > 0 && periods > 0 && target <= MaxConfirms(periods, scale)
    ensures PeriodOf(target, scale) < periods
  {
    var q := A.PeriodsFor(target, scale);
    assert q * scale <= target + (scale - 1);
    assert (periods + 1) * scale == periods * scale + scale;
    if q > periods {
      MulOrder(periods + 1, q, scale);
    }
  }

  /** The rows from `lo` up to `hi` have one more transaction in bucket `b`. */
  method AddToColumn(rows: seq<seq<real>>, b: nat, lo: nat, hi: nat) returns (r: seq<seq<real>>)
    requires hi <= |rows| && forall p :: 0 <= p < |rows| ==> b < |rows[p]|
    ensures r == A.AddToRows(rows, b, lo, hi)
  {
    r := rows;
    var period := lo;
    while period < hi
      invariant lo <= period && (lo <= hi ==> period <= hi) && |r| == |rows|
      invariant forall p :: 0 <= p < |rows| ==>
        r[p] == if lo <= p < period && p < hi then rows[p][b := rows[p][b] + 1.0] else rows[p]
    {
      r := r[period := r[period][b := r[period][b] + 1.0]];
      period := period + 1;
    }
  }

  /** The first `done` buckets of a row have decayed, the others have not. */
  ghost predicate RowDecayed(row: seq<real>, before: seq<real>, decay: real, done: nat, n: nat) {
    && |row| == |before| == n && done <= n
    && forall b :: 0 <= b < n ==> row[b] == if b < done then before[b] * decay else before[b]
  }

  ghost predicate RowsDecayed(rows: seq<seq<real>>, before: seq<seq<real>>, decay: real, done: nat, n: nat) {
    |rows| == |before| && forall p :: 0 <= p < |rows| ==> RowDecayed(rows[p], before[p], decay, done, n)
  }

  lemma NothingDecayed(a: A.Averages, decay: real, n: nat)
    requires A.Shaped(a, n)
    ensures RowDecayed(a.txCount, a.txCount, decay, 0, n) && RowDecayed(a.feeRate, a.feeRate, decay, 0, n)
    ensures RowsDecayed(a.confirmed, a.confirmed, decay, 0, n) && RowsDecayed(a.failed, a.failed, decay, 0, n)
  {
  }

  lemma RowLength(row: seq<real>, before: seq<real>, decay: real, done: nat, n: nat)
    requires RowDecayed(row, before, decay, done, n)
    ensures |row| == n
  {
  }

  lemma DecayCell(row: seq<real>, next: seq<real>, before: seq<real>, decay: real, bucket: nat, n: nat)
    requires bucket < n == |row| && RowDecayed(row, before, decay, bucket, n)
    requires |next| == n && next[bucket] == row[bucket] * decay
    requires forall b :: 0 <= b < n && b != bucket ==> next[b] == row[b]
    ensures RowDecayed(next, before, decay, bucket + 1, n)
  {
  }

  lemma DecayedRow(row: seq<real>, before: seq<real>, decay: real, n: nat)
    requires RowDecayed(row, before, decay, n, n)
    ensures row == A.ScaleRow(before, decay) && |row| == n
  {
  }

  lemma DecayedRows(rows: seq<seq<real>>, before: seq<seq<real>>, decay: real, n: nat)
    requires RowsDecayed(rows, before, decay, n, n)
    ensures rows == A.ScaleRows(before, decay) && A.Rows(rows, n)
  {
    forall p | 0 <= p < |rows| ensures rows[p] == A.ScaleRow(before[p], decay) && |rows[p]| == n {
      DecayedRow(rows[p], before[p], decay, n);
    }
  }

  method DecayColumn(rows: seq<seq<real>>, ghost before: seq<seq<real>>, decay: real, bucket: nat, ghost n: nat)
    returns (r: seq<seq<real>>)
    requires bucket < n && RowsDecayed(rows, before, decay, bucket, n)
    ensures RowsDecayed(r, before, decay, bucket + 1, n) && |r| == |rows|
  {
    hide RowDecayed;
    r := rows;
    var period := 0;
    while period < |r|
      invariant period <= |r| == |rows| == |before|
      invariant forall p :: 0 <= p < period ==> RowDecayed(r[p], before[p], decay, bucket + 1, n)
      invariant forall p :: period <= p < |r| ==> RowDecayed(r[p], before[p], decay, bucket, n)
    {
      ghost var row := r[period];
      RowLength(row, before[period], decay, bucket, n);
      r := r[period := r[period][bucket := r[period][bucket] * decay]];
      DecayCell(row, r[period], before[period], decay, bucket, n);
      period := period + 1;
    }
  }
}
