/** Decaying confirmation statistics per fee bucket. Rates and averages are
    mathematical reals. */
module FeeAverages {
  import opened Arithmetic

  /** `confirmed[p][b]`: confirmed within `p + 1` periods; `failed[p][b]`: left
      unconfirmed after at least `p + 1` periods; `feeRate[b]`: sum of fee rates. */
  datatype Averages = Averages(
    txCount: seq<real>, feeRate: seq<real>, confirmed: seq<seq<real>>, failed: seq<seq<real>>)

  predicate Rows(rows: seq<seq<real>>, buckets: nat) {
    forall p :: 0 <= p < |rows| ==> |rows[p]| == buckets
  }

  predicate Shaped(a: Averages, buckets: nat) {
    |a.txCount| == buckets && |a.feeRate| == buckets && |a.confirmed| == |a.failed|
    && Rows(a.confirmed, buckets) && Rows(a.failed, buckets)
  }

  // ----- Buckets -----

  /** Boundaries are positive and strictly increasing. */
  predicate Ascending(buckets: seq<real>) {
    |buckets| > 0 && buckets[0] > 0.0
    && forall i, j :: 0 <= i < j < |buckets| ==> buckets[i] < buckets[j]
  }

  function LowerEnd(buckets: seq<real>, b: nat): real
    requires b < |buckets|
  {
    if b == 0 then 0.0 else buckets[b - 1]
  }

  /** The first bucket from `from` on whose boundary is not below the rate, else the last bucket. */
  function BucketFrom(buckets: seq<real>, rate: real, from: nat): (b: nat)
    requires from < |buckets|
    ensures from <= b < |buckets|
    ensures rate <= buckets[b] || b == |buckets| - 1
    ensures forall i :: from <= i < b ==> buckets[i] < rate
    decreases |buckets| - from
  {
    if rate <= buckets[from] || from == |buckets| - 1 then from else BucketFrom(buckets, rate, from + 1)
  }

  function BucketIndex(buckets: seq<real>, rate: real): (b: nat)
    requires buckets != []
    ensures b < |buckets|
    ensures 0.0 < rate <= buckets[|buckets| - 1] ==> LowerEnd(buckets, b) < rate <= buckets[b]
    ensures (forall i :: 0 <= i < b ==> buckets[i] < rate) && (rate <= buckets[b] || b == |buckets| - 1)
  {
    BucketFrom(buckets, rate, 0)
  }

  // ----- Updates -----

  function ScaleRow(row: seq<real>, k: real): (r: seq<real>)
    ensures |r| == |row| && forall b :: 0 <= b < |row| ==> r[b] == row[b] * k
  {
    seq(|row|, b requires 0 <= b < |row| => row[b] * k)
  }

  function ScaleRows(rows: seq<seq<real>>, k: real): (r: seq<seq<real>>)
    ensures |r| == |rows| && forall p :: 0 <= p < |rows| ==> r[p] == ScaleRow(rows[p], k)
  {
    seq(|rows|, p requires 0 <= p < |rows| => ScaleRow(rows[p], k))
  }

  /** One more transaction in bucket `b` of the rows from `lo` up to `hi`. */
  function AddToRows(rows: seq<seq<real>>, b: nat, lo: nat, hi: nat): (r: seq<seq<real>>)
    requires forall p :: 0 <= p < |rows| ==> b < |rows[p]|
    ensures |r| == |rows|
    ensures forall p :: 0 <= p < |rows| ==> |r[p]| == |rows[p]|
    ensures forall p, i :: 0 <= p < |rows| && 0 <= i < |rows[p]| ==>
      r[p][i] == rows[p][i] + (if i == b && lo <= p < hi then 1.0 else 0.0)
  {
    seq(|rows|, p requires 0 <= p < |rows| => if lo <= p < hi then rows[p][b := rows[p][b] + 1.0] else rows[p])
  }

  /** A new block: everything decays. */
  function Decayed(a: Averages, decay: real): Averages {
    Averages(ScaleRow(a.txCount, decay), ScaleRow(a.feeRate, decay),
             ScaleRows(a.confirmed, decay), ScaleRows(a.failed, decay))
  }

  /** Whole periods needed for `blocks` blocks, rounded up, with 32-bit saturation. */
  function PeriodsFor(blocks: nat, scale: nat): nat
    requires scale > 0
  {
    (if blocks + (scale - 1) > U32_MAX then U32_MAX else blocks + (scale - 1)) / scale
  }

  /** A transaction confirmed after `blocks` blocks. */
  function Recorded(a: Averages, blocks: nat, scale: nat, b: nat, rate: real): (r: Averages)
    requires scale > 0 && Shaped(a, |a.txCount|) && b < |a.txCount|
  {
    if blocks == 0 then a
    else
      var start := if PeriodsFor(blocks, scale) == 0 then 0 else PeriodsFor(blocks, scale) - 1;
      a.(confirmed := AddToRows(a.confirmed, b, start, |a.confirmed|),
         txCount := a.txCount[b := a.txCount[b] + 1.0],
         feeRate := a.feeRate[b := a.feeRate[b] + rate])
  }

  /** A transaction that left without confirming after `blocks` blocks. */
  function Abandoned(a: Averages, blocks: nat, scale: nat, b: nat): (r: Averages)
    requires scale > 0 && Shaped(a, |a.txCount|) && b < |a.txCount|
  {
    if blocks < scale then a
    else
      var periods := blocks / scale;
      a.(failed := AddToRows(a.failed, b, 0, if periods < |a.failed| then periods else |a.failed|))
  }

  // ----- What every update keeps -----

  /** Fee sums fit their bucket's bounds, and a longer target never has fewer
      confirmations nor more failures. */
  predicate Plausible(a: Averages, buckets: seq<real>) {
    && Shaped(a, |buckets|)
    && (forall b :: 0 <= b < |buckets| ==> FeeSumFits(a, buckets, b))
    && (forall p, b :: 0 <= p < |a.confirmed| && 0 <= b < |buckets| ==> CellFits(a, |buckets|, p, b))
    && (forall p, q, b :: 0 <= p <= q < |a.confirmed| && 0 <= b < |buckets| ==> PeriodsOrdered(a, |buckets|, p, q, b))
  }

  predicate CellFits(a: Averages, buckets: nat, p: nat, b: nat)
    requires Shaped(a, buckets) && p < |a.confirmed| && b < buckets
  {
    0.0 <= a.confirmed[p][b] <= a.txCount[b] && 0.0 <= a.failed[p][b]
  }

  predicate PeriodsOrdered(a: Averages, buckets: nat, p: nat, q: nat, b: nat)
    requires Shaped(a, buckets) && p <= q < |a.confirmed| && b < buckets
  {
    a.confirmed[p][b] <= a.confirmed[q][b] && a.failed[q][b] <= a.failed[p][b]
  }

  predicate FeeSumFits(a: Averages, buckets: seq<real>, b: nat)
    requires Shaped(a, |buckets|) && b < |buckets|
  {
    0.0 <= a.txCount[b]
    && LowerEnd(buckets, b) * a.txCount[b] <= a.feeRate[b] <= buckets[b] * a.txCount[b]
  }

  lemma ScaleOrder(k: real, x: real, y: real)
    requires 0.0 <= k && x <= y
    ensures x * k <= y * k
  {
  }

  lemma DecayedPlausible(a: Averages, buckets: seq<real>, decay: real)
    requires Plausible(a, buckets) && 0.0 <= decay <= 1.0
    ensures Plausible(Decayed(a, decay), buckets)
  {
    hide FeeSumFits, CellFits, PeriodsOrdered;
    var r, n := Decayed(a, decay), |buckets|;
    forall b | 0 <= b < n ensures FeeSumFits(r, buckets, b) { DecayedFeeSum(a, buckets, decay, b); }
    forall p, b | 0 <= p < |a.confirmed| && 0 <= b < n ensures CellFits(r, n, p, b) { DecayedCell(a, n, decay, p, b); }
    forall p, q, b | 0 <= p <= q < |a.confirmed| && 0 <= b < n ensures PeriodsOrdered(r, n, p, q, b) {
      DecayedPeriods(a, n, decay, p, q, b);
    }
  }

  lemma DecayedCell(a: Averages, buckets: nat, decay: real, p: nat, b: nat)
    requires Shaped(a, buckets) && 0.0 <= decay && p < |a.confirmed| && b < buckets && CellFits(a, buckets, p, b)
    ensures Shaped(Decayed(a, decay), buckets) && CellFits(Decayed(a, decay), buckets, p, b)
  {
    ScaleOrder(decay, 0.0, a.confirmed[p][b]);
    ScaleOrder(decay, a.confirmed[p][b], a.txCount[b]);
    ScaleOrder(decay, 0.0, a.failed[p][b]);
  }

  lemma DecayedPeriods(a: Averages, buckets: nat, decay: real, p: nat, q: nat, b: nat)
    requires Shaped(a, buckets) && 0.0 <= decay && p <= q < |a.confirmed| && b < buckets
    requires PeriodsOrdered(a, buckets, p, q, b)
    ensures Shaped(Decayed(a, decay), buckets) && PeriodsOrdered(Decayed(a, decay), buckets, p, q, b)
  {
    ScaleOrder(decay, a.confirmed[p][b], a.confirmed[q][b]);
    ScaleOrder(decay, a.failed[q][b], a.failed[p][b]);
  }

  lemma DecayedFeeSum(a: Averages, buckets: seq<real>, decay: real, b: nat)
    requires Shaped(a, |buckets|) && 0.0 <= decay && b < |buckets| && FeeSumFits(a, buckets, b)
    ensures Shaped(Decayed(a, decay), |buckets|) && FeeSumFits(Decayed(a, decay), buckets, b)
  {
    BoundsDecay(LowerEnd(buckets, b), buckets[b], a.txCount[b], a.feeRate[b], decay);
  }

  lemma BoundsDecay(low: real, high: real, count: real, fees: real, decay: real)
    requires 0.0 <= decay && 0.0 <= count && low * count <= fees <= high * count
    ensures 0.0 <= count * decay
    ensures low * (count * decay) <= fees * decay <= high * (count * decay)
  {
    ScaleOrder(decay, 0.0, count);
    ScaleOrder(decay, low * count, fees);
    ScaleOrder(decay, fees, high * count);
    assert (low * count) * decay == low * (count * decay);
    assert (high * count) * decay == high * (count * decay);
  }

  lemma RecordedPlausible(a: Averages, buckets: seq<real>, blocks: nat, scale: nat, b: nat, rate: real)
    requires Plausible(a, buckets) && scale > 0 && b < |buckets|
    requires LowerEnd(buckets, b) <= rate <= buckets[b]
    ensures Plausible(Recorded(a, blocks, scale, b, rate), buckets)
  {
    hide PeriodsFor;
    var r := Recorded(a, blocks, scale, b, rate);
    forall i | 0 <= i < |buckets| ensures FeeSumFits(r, buckets, i) {
      assert FeeSumFits(a, buckets, i);
      if i == b {
        assert buckets[b] * (a.txCount[b] + 1.0) == buckets[b] * a.txCount[b] + buckets[b];
        assert LowerEnd(buckets, b) * (a.txCount[b] + 1.0)
          == LowerEnd(buckets, b) * a.txCount[b] + LowerEnd(buckets, b);
      }
    }
    forall p, i | 0 <= p < |a.confirmed| && 0 <= i < |buckets| ensures CellFits(r, |buckets|, p, i) {
      assert CellFits(a, |buckets|, p, i);
    }
    forall p, q, i | 0 <= p <= q < |a.confirmed| && 0 <= i < |buckets| ensures PeriodsOrdered(r, |buckets|, p, q, i) {
      assert PeriodsOrdered(a, |buckets|, p, q, i);
    }
  }

  lemma AbandonedPlausible(a: Averages, buckets: seq<real>, blocks: nat, scale: nat, b: nat)
    requires Plausible(a, buckets) && scale > 0 && b < |buckets|
    ensures Plausible(Abandoned(a, blocks, scale, b), buckets)
  {
    var r := Abandoned(a, blocks, scale, b);
    forall i | 0 <= i < |buckets| ensures FeeSumFits(r, buckets, i) {
      assert FeeSumFits(a, buckets, i);
    }
    forall p, i | 0 <= p < |a.confirmed| && 0 <= i < |buckets| ensures CellFits(r, |buckets|, p, i) {
      assert CellFits(a, |buckets|, p, i);
    }
    forall p, q, i | 0 <= p <= q < |a.confirmed| && 0 <= i < |buckets| ensures PeriodsOrdered(r, |buckets|, p, q, i) {
      assert PeriodsOrdered(a, |buckets|, p, q, i);
    }
  }

  function FreshAverages(buckets: nat, periods: nat): Averages {
    var zeros := seq(buckets, _ => 0.0);
    Averages(zeros, zeros, seq(periods, _ => zeros), seq(periods, _ => zeros))
  }

  lemma FreshPlausible(buckets: seq<real>, periods: nat)
    ensures Plausible(FreshAverages(|buckets|, periods), buckets)
  {
    var a := FreshAverages(|buckets|, periods);
    forall b | 0 <= b < |buckets| ensures FeeSumFits(a, buckets, b) {
      assert LowerEnd(buckets, b) * 0.0 == 0.0 && buckets[b] * 0.0 == 0.0;
    }
  }
}
