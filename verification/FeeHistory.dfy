/** What the averages mean: decayed counts over everything that happened, told
    by waiting times in blocks and not by periods and rows. */
module FeeHistory {
  import opened Arithmetic
  import opened FeeRing
  import opened FeeModel
  import opened FeeStats
  import A = FeeAverages
  import E = FeeEstimate
  import Q = FeeSearch
  import Runs = FeeRuns

  /** Weights are added as things happen and shrink by `decay` with every block. */
  ghost function Weighted(changes: seq<Change>, decay: real, weight: Change -> real): real {
    if changes == [] then 0.0
    else
      var rest, last := changes[..|changes| - 1], changes[|changes| - 1];
      if last.Ticks? then Weighted(rest, decay, weight) * decay else Weighted(rest, decay, weight) + weight(last)
  }

  function Waited(c: Change): nat
    requires c.Departs? || c.Confirms?
  {
    SaturatingSub(c.best, c.entry)
  }

  /** A confirmation in bucket `b`; one in the block of entry does not count. */
  ghost function ConfirmedIn(b: nat): Change -> real {
    (c: Change) => if c.Confirms? && c.rateBucket == b && Waited(c) > 0 then 1.0 else 0.0
  }

  ghost function RateIn(b: nat): Change -> real {
    (c: Change) => if c.Confirms? && c.rateBucket == b && Waited(c) > 0 then c.rate else 0.0
  }

  /** A confirmation within `limit` blocks. */
  ghost function ConfirmedWithin(b: nat, limit: nat): Change -> real {
    (c: Change) => if c.Confirms? && c.rateBucket == b && 0 < Waited(c) <= limit then 1.0 else 0.0
  }

  /** A departure without confirmation after at least `limit` blocks. */
  ghost function FailedAfter(b: nat, limit: nat): Change -> real {
    (c: Change) => if c.Departs? && c.bucket == b && limit <= Waited(c) then 1.0 else 0.0
  }

  // ----- Rows and blocks -----

  /** A row takes a confirmation exactly when it came within the row's number of blocks. */
  lemma RowTakesConfirmation(blocks: nat, scale: nat, p: nat)
    requires scale > 0 && blocks > 0 && (p + 1) * scale + scale <= U32_MAX
    ensures (if A.PeriodsFor(blocks, scale) == 0 then 0 else A.PeriodsFor(blocks, scale) - 1) <= p
      <==> blocks <= (p + 1) * scale
  {
    var sum := if blocks + (scale - 1) > U32_MAX then U32_MAX else blocks + (scale - 1);
    QuotientAtMost(sum, scale, p + 1);
    assert (p + 2) * scale == (p + 1) * scale + scale;
  }

  lemma QuotientAtMost(x: nat, n: nat, k: nat)
    requires n > 0
    ensures x / n <= k <==> x < (k + 1) * n
  {
    var q := x / n;
    assert q * n <= x < (q + 1) * n by { assert (q + 1) * n == q * n + n; }
    if q <= k {
      MulOrder(q + 1, k + 1, n);
    } else {
      MulOrder(k + 1, q, n);
    }
  }

  /** A row takes a failure exactly when it lasted at least the row's number of blocks. */
  lemma RowTakesFailure(blocks: nat, scale: nat, p: nat)
    requires scale > 0
    ensures p < blocks / scale <==> (p + 1) * scale <= blocks
  {
    QuotientAtMost(blocks, scale, p);
  }

  // ----- One horizon -----

  predicate AllFit(changes: seq<Change>, n: nat) {
    forall c | c in changes :: Fits(c, n)
  }

  function Fold(t: Stats, changes: seq<Change>, n: nat): (r: Stats)
    requires ValidStats(t, n) && AllFit(changes, n)
    ensures ValidStats(r, n) && r.scale == t.scale && r.decay == t.decay
    ensures |r.averages.confirmed| == |t.averages.confirmed|
  {
    if changes == [] then t
    else Apply(Fold(t, changes[..|changes| - 1], n), changes[|changes| - 1], n)
  }

  /** The averages after the changes, bucket by bucket and row by row. */
  ghost predicate Explained(a: A.Averages, changes: seq<Change>, decay: real, scale: nat, n: nat)
    requires A.Shaped(a, n)
  {
    && (forall b :: 0 <= b < n ==>
          a.txCount[b] == Weighted(changes, decay, ConfirmedIn(b))
          && a.feeRate[b] == Weighted(changes, decay, RateIn(b)))
    && (forall p, b :: 0 <= p < |a.confirmed| && 0 <= b < n ==> CellExplained(a, changes, decay, scale, n, p, b))
  }

  ghost predicate CellExplained(a: A.Averages, changes: seq<Change>, decay: real, scale: nat, n: nat, p: nat, b: nat)
    requires A.Shaped(a, n) && p < |a.confirmed| && b < n
  {
    a.confirmed[p][b] == Weighted(changes, decay, ConfirmedWithin(b, (p + 1) * scale))
    && a.failed[p][b] == Weighted(changes, decay, FailedAfter(b, (p + 1) * scale))
  }

  /** Every row's number of blocks is far from the 32-bit limit. */
  predicate SmallRows(rows: nat, scale: nat) { (rows + 1) * scale <= U32_MAX }

  lemma WeightedStep(rest: seq<Change>, c: Change, decay: real, weight: Change -> real)
    ensures Weighted(rest + [c], decay, weight)
      == if c.Ticks? then Weighted(rest, decay, weight) * decay else Weighted(rest, decay, weight) + weight(c)
  {
    assert (rest + [c])[..|rest + [c]| - 1] == rest;
  }

  lemma RowFits(rows: nat, scale: nat, p: nat)
    requires SmallRows(rows, scale) && p < rows
    ensures (p + 1) * scale + scale <= U32_MAX
  {
    MulOrder(p + 2, rows + 1, scale);
    assert (p + 2) * scale == (p + 1) * scale + scale;
  }

  lemma ConfirmedCell(t: Stats, c: Change, n: nat, p: nat, b: nat)
    requires ValidStats(t, n) && Fits(c, n) && p < |t.averages.confirmed| && b < n
    requires SmallRows(|t.averages.confirmed|, t.scale)
    ensures var before, after := t.averages.confirmed[p][b], Apply(t, c, n).averages.confirmed[p][b];
      after == if c.Ticks? then before * t.decay else before + ConfirmedWithin(b, (p + 1) * t.scale)(c)
  {
    hide A.PeriodsFor, Left, Entered, Cleared, SmallRows;
    if c.Confirms? && Waited(c) > 0 {
      RowFits(|t.averages.confirmed|, t.scale, p);
      RowTakesConfirmation(Waited(c), t.scale, p);
    }
  }

  lemma FailedCell(t: Stats, c: Change, n: nat, p: nat, b: nat)
    requires ValidStats(t, n) && Fits(c, n) && p < |t.averages.confirmed| && b < n
    ensures var before, after := t.averages.failed[p][b], Apply(t, c, n).averages.failed[p][b];
      after == if c.Ticks? then before * t.decay else before + FailedAfter(b, (p + 1) * t.scale)(c)
  {
    hide A.PeriodsFor, Left, Entered, Cleared;
    if c.Departs? {
      RowTakesFailure(Waited(c), t.scale, p);
      ScaleOrMore(Waited(c), t.scale, p);
    }
  }

  lemma ScaleOrMore(blocks: nat, scale: nat, p: nat)
    ensures (p + 1) * scale <= blocks ==> scale <= blocks
  {
    MulOrder(1, p + 1, scale);
  }

  lemma BucketCell(t: Stats, c: Change, n: nat, b: nat)
    requires ValidStats(t, n) && Fits(c, n) && b < n
    ensures var before, after := t.averages.txCount[b], Apply(t, c, n).averages.txCount[b];
      after == if c.Ticks? then before * t.decay else before + ConfirmedIn(b)(c)
    ensures var before, after := t.averages.feeRate[b], Apply(t, c, n).averages.feeRate[b];
      after == if c.Ticks? then before * t.decay else before + RateIn(b)(c)
  {
    hide A.PeriodsFor, Left, Entered, Cleared;
  }

  lemma ExplainedStep(t: Stats, rest: seq<Change>, c: Change, n: nat)
    requires ValidStats(t, n) && Fits(c, n) && SmallRows(|t.averages.confirmed|, t.scale)
    requires Explained(t.averages, rest, t.decay, t.scale, n)
    ensures Explained(Apply(t, c, n).averages, rest + [c], t.decay, t.scale, n)
    ensures |Apply(t, c, n).averages.confirmed| == |t.averages.confirmed|
  {
    hide Weighted, ConfirmedIn, RateIn, ConfirmedWithin, FailedAfter;
    var a, r := t.averages, Apply(t, c, n).averages;
    SameRows(t, c, n);
    forall b | 0 <= b < n
      ensures r.txCount[b] == Weighted(rest + [c], t.decay, ConfirmedIn(b))
      ensures r.feeRate[b] == Weighted(rest + [c], t.decay, RateIn(b))
    {
      BucketCell(t, c, n, b);
      WeightedStep(rest, c, t.decay, ConfirmedIn(b));
      WeightedStep(rest, c, t.decay, RateIn(b));
    }
    forall p, b | 0 <= p < |r.confirmed| && 0 <= b < n ensures CellExplained(r, rest + [c], t.decay, t.scale, n, p, b) {
      assert CellExplained(a, rest, t.decay, t.scale, n, p, b);
      ConfirmedCell(t, c, n, p, b);
      FailedCell(t, c, n, p, b);
      WeightedStep(rest, c, t.decay, ConfirmedWithin(b, (p + 1) * t.scale));
      WeightedStep(rest, c, t.decay, FailedAfter(b, (p + 1) * t.scale));
    }
  }

  lemma SameRows(t: Stats, c: Change, n: nat)
    requires ValidStats(t, n) && Fits(c, n)
    ensures var r := Apply(t, c, n);
      |r.averages.confirmed| == |t.averages.confirmed| && r.decay == t.decay && r.scale == t.scale
  {
    hide A.PeriodsFor, Left, Entered, Cleared;
  }

  /** After any changes the averages of a fresh horizon are the decayed sums of the
      confirmations and failures, by how many blocks each took. */
  lemma {:induction false} FoldExplained(t: Stats, changes: seq<Change>, n: nat)
    requires ValidStats(t, n) && AllFit(changes, n) && SmallRows(|t.averages.confirmed|, t.scale)
    requires t.averages == A.FreshAverages(n, |t.averages.confirmed|)
    ensures Explained(Fold(t, changes, n).averages, changes, t.decay, t.scale, n)
  {
    hide Apply, SmallRows, ValidStats;
    if changes == [] {
      FreshExplained(t, n);
    } else {
      var rest, c := changes[..|changes| - 1], changes[|changes| - 1];
      FoldExplained(t, rest, n);
      ExplainedStep(Fold(t, rest, n), rest, c, n);
      assert rest + [c] == changes;
    }
  }

  lemma FreshExplained(t: Stats, n: nat)
    requires ValidStats(t, n) && t.averages == A.FreshAverages(n, |t.averages.confirmed|)
    ensures Explained(t.averages, [], t.decay, t.scale, n)
  {
  }

  // ----- Whole runs -----

  ghost function ConfirmChanges(s: State, ids: seq<Txid>): (r: seq<Change>)
    requires Valid(s)
    ensures AllFit(r, |s.buckets|)
    decreases |ids|
  {
    if ids == [] then []
    else
      (if ids[0] in s.tracked then
         var t := s.tracked[ids[0]];
         [Confirms(t.entryHeight, s.best, t.bucket, A.BucketIndex(s.buckets, t.feeRate), t.feeRate)]
       else [])
      + ConfirmChanges(ConfirmOf(s, ids[0]), ids[1..])
  }

  /** What an operation changes in each horizon. */
  ghost function ChangesOf(s: State, op: Op): (r: seq<Change>)
    requires Valid(s) && Runs.ValidOp(op)
    ensures AllFit(r, |s.buckets|)
  {
    match op
    case TrackEntry(_, _, fee, vsize, height) =>
      if Accepted(s, op) then [Arrives(height, A.BucketIndex(s.buckets, FeeRate(fee, vsize)))] else []
    case RemoveEntry(id) =>
      if id in s.tracked then [Departs(s.tracked[id].entryHeight, s.best, s.tracked[id].bucket)] else []
    case ProcessBlock(height, confirmed) =>
      if height > s.best then [Ticks(height)] + ConfirmChanges(TickOf(s, height), confirmed) else []
  }

  ghost function ChangesOfRun(s: State, ops: seq<Op>): (r: seq<Change>)
    requires Valid(s) && Runs.ValidOps(ops)
    ensures AllFit(r, |s.buckets|)
  {
    if ops == [] then []
    else
      var rest := ops[..|ops| - 1];
      ChangesOfRun(s, rest) + ChangesOf(Runs.Run(s, rest), ops[|ops| - 1])
  }

  lemma {:induction false} FoldConcat(t: Stats, a: seq<Change>, b: seq<Change>, n: nat)
    requires ValidStats(t, n) && AllFit(a, n) && AllFit(b, n)
    ensures Fold(t, a + b, n) == Fold(Fold(t, a, n), b, n)
    decreases |b|
  {
    hide Apply;
    if b == [] {
      assert a + b == a;
    } else {
      FoldConcat(t, a, b[..|b| - 1], n);
      assert (a + b)[..|a + b| - 1] == a + b[..|b| - 1];
    }
  }

  lemma FoldOne(t: Stats, c: Change, n: nat)
    requires ValidStats(t, n) && Fits(c, n)
    ensures Fold(t, [c], n) == Apply(t, c, n)
  {
    hide Apply;
    assert [c][..0] == [];
  }

  lemma {:induction false} ConfirmAllFolds(s: State, ids: seq<Txid>, h: Horizon)
    requires Valid(s)
    ensures StatsOf(ConfirmAll(s, ids), h) == Fold(StatsOf(s, h), ConfirmChanges(s, ids), |s.buckets|)
    decreases |ids|
  {
    hide Apply, A.BucketIndex, Fold;
    if ids == [] {
      FoldNothing(StatsOf(s, h), |s.buckets|);
    } else {
      var next := ConfirmOf(s, ids[0]);
      var later := ConfirmChanges(next, ids[1..]);
      ConfirmAllFolds(next, ids[1..], h);
      if ids[0] in s.tracked {
        var c := ConfirmChanges(s, ids)[0];
        FoldOne(StatsOf(s, h), c, |s.buckets|);
        FoldConcat(StatsOf(s, h), [c], later, |s.buckets|);
        assert ConfirmChanges(s, ids) == [c] + later;
      } else {
        assert [] + later == later;
      }
    }
  }

  lemma FoldNothing(t: Stats, n: nat)
    requires ValidStats(t, n)
    ensures Fold(t, [], n) == t
  {
  }

  lemma StepFolds(s: State, op: Op, h: Horizon)
    requires Valid(s) && Runs.ValidOp(op)
    ensures StatsOf(Runs.Step(s, op), h) == Fold(StatsOf(s, h), ChangesOf(s, op), |s.buckets|)
  {
    hide Apply, A.BucketIndex, Fold, WellTracked, ConfirmAll, ConfirmChanges;
    var t, n := StatsOf(s, h), |s.buckets|;
    FoldNothing(t, n);
    match op
    case TrackEntry(_, _, _, _, _) =>
      if Accepted(s, op) { FoldOne(t, ChangesOf(s, op)[0], n); }
    case RemoveEntry(id) =>
      if id in s.tracked { FoldOne(t, ChangesOf(s, op)[0], n); }
    case ProcessBlock(height, confirmed) =>
      if height > s.best {
        var ticked := TickOf(s, height);
        FoldOne(t, Ticks(height), n);
        ConfirmAllFolds(ticked, confirmed, h);
        FoldConcat(t, [Ticks(height)], ConfirmChanges(ticked, confirmed), n);
      }
  }

  lemma {:induction false} RunFolds(s: State, ops: seq<Op>, h: Horizon)
    requires Valid(s) && Runs.ValidOps(ops)
    ensures StatsOf(Runs.Run(s, ops), h) == Fold(StatsOf(s, h), ChangesOfRun(s, ops), |s.buckets|)
  {
    hide Runs.Step, Fold, ChangesOf;
    if ops == [] {
      FoldNothing(StatsOf(s, h), |s.buckets|);
    } else {
      var rest, op := ops[..|ops| - 1], ops[|ops| - 1];
      RunFolds(s, rest, h);
      StepFolds(Runs.Run(s, rest), op, h);
      FoldConcat(StatsOf(s, h), ChangesOfRun(s, rest), ChangesOf(Runs.Run(s, rest), op), |s.buckets|);
    }
  }

  /** Over every run from a fresh estimator, in every horizon, each average is the
      decayed number of confirmations or failures it stands for. */
  lemma EveryRunExplained(buckets: seq<real>, best: nat, ops: seq<Op>, h: Horizon)
    requires Runs.ValidStart(buckets, ops)
    ensures var s := Runs.FreshState(buckets, best); var t := StatsOf(Runs.Run(s, ops), h);
      ValidStats(t, |buckets|) && Explained(t.averages, ChangesOfRun(s, ops), t.decay, t.scale, |buckets|)
  {
    hide Runs.Run, Fold, Explained, ChangesOfRun;
    var s := Runs.FreshState(buckets, best);
    RunFolds(s, ops, h);
    FoldExplained(StatsOf(s, h), ChangesOfRun(s, ops), |buckets|);
  }

  /** The row of a target is told in blocks by the next multiple of the scale. */
  lemma RowOfTarget(target: nat, scale: nat)
    requires scale > 0 && target > 0 && target + scale <= U32_MAX
    ensures target <= (PeriodOf(target, scale) + 1) * scale < target + scale
  {
    var q := (target + (scale - 1)) / scale;
    var r := (target + (scale - 1)) % scale;
    assert target + (scale - 1) == q * scale + r;
    PositiveQuotient(target + (scale - 1), scale);
    assert PeriodOf(target, scale) + 1 == q;
  }

  /** A bucket's cell for a target: the decayed number of confirmations within the target,
      rounded up to whole periods, of all confirmations, and of failures after as long. */
  ghost predicate CellTold(cell: Q.Cell, changes: seq<Change>, decay: real, scale: nat, target: nat, b: nat) {
    exists limit: nat :: target <= limit < target + scale && CellToldBy(cell, changes, decay, b, limit)
  }

  ghost predicate CellToldBy(cell: Q.Cell, changes: seq<Change>, decay: real, b: nat, limit: nat) {
    && cell.within == Weighted(changes, decay, ConfirmedWithin(b, limit))
    && cell.total == Weighted(changes, decay, ConfirmedIn(b))
    && cell.left == Weighted(changes, decay, FailedAfter(b, limit))
  }

  /** Over every run the estimator reads exactly these numbers for a target. */
  lemma EveryCellExplained(buckets: seq<real>, best: nat, ops: seq<Op>, h: Horizon, target: nat, b: nat)
    requires Runs.ValidStart(buckets, ops) && b < |buckets|
    requires 0 < target <= |StatsOf(Runs.Run(Runs.FreshState(buckets, best), ops), h).counters.ring|
    ensures var s0 := Runs.FreshState(buckets, best); var s := Runs.Run(s0, ops); var t := StatsOf(s, h);
      && PeriodOf(target, t.scale) < |t.averages.confirmed|
      && CellTold(E.Cells(t.averages, t.counters, s.best, target, PeriodOf(target, t.scale), |buckets|)[b],
                  ChangesOfRun(s0, ops), t.decay, t.scale, target, b)
  {
    hide Runs.Run, Explained, ChangesOfRun, PeriodOf, Weighted, ConfirmedIn, ConfirmedWithin, FailedAfter, E.Waiting;
    var s0 := Runs.FreshState(buckets, best);
    var s := Runs.Run(s0, ops);
    var t := StatsOf(s, h);
    EveryRunExplained(buckets, best, ops, h);
    RunKeepsSmallRows(buckets, best, ops, h);
    PeriodInRange(target, t.scale, |t.averages.confirmed|);
    RowOfTarget(target, t.scale);
    var p := PeriodOf(target, t.scale);
    CellOf(t.averages, ChangesOfRun(s0, ops), t.decay, t.scale, |buckets|, p, b);
    assert CellToldBy(E.Cells(t.averages, t.counters, s.best, target, p, |buckets|)[b],
                      ChangesOfRun(s0, ops), t.decay, b, (p + 1) * t.scale);
  }

  lemma CellOf(a: A.Averages, changes: seq<Change>, decay: real, scale: nat, n: nat, p: nat, b: nat)
    requires A.Shaped(a, n) && Explained(a, changes, decay, scale, n) && p < |a.confirmed| && b < n
    ensures CellExplained(a, changes, decay, scale, n, p, b)
    ensures a.txCount[b] == Weighted(changes, decay, ConfirmedIn(b))
  {
  }

  lemma RunKeepsSmallRows(buckets: seq<real>, best: nat, ops: seq<Op>, h: Horizon)
    requires Runs.ValidStart(buckets, ops)
    ensures var t := StatsOf(Runs.Run(Runs.FreshState(buckets, best), ops), h);
      |t.counters.ring| == |t.averages.confirmed| * t.scale && |t.counters.ring| + t.scale <= U32_MAX
  {
    hide Runs.Run, Fold, ChangesOfRun;
    var s := Runs.FreshState(buckets, best);
    RunFolds(s, ops, h);
  }
}
