/** The fee estimator object: three horizons updated in step with one map. */
module FeeEstimator {
  import opened Arithmetic
  import opened Bits
  import opened FeeRing
  import opened FeeModel
  import opened FeeEstimate
  import opened FeeStats
  import A = FeeAverages
  import Q = FeeSearch
  import Runs = FeeRuns

  const INF_BUCKET_FEERATE: real :=
    1000000000000000000000000000000000000000000000000000000000000000000000000000000000000000000000000000.0

  /** Boundaries from 100 up by five percent to ten million, then an unreachable one. */
  method DefaultBuckets() returns (buckets: seq<real>)
    ensures A.Ascending(buckets) && buckets[|buckets| - 1] == INF_BUCKET_FEERATE >= TOP_RATE
    ensures buckets[0] == 100.0
    ensures forall i :: 0 <= i < |buckets| - 2 ==> buckets[i + 1] == buckets[i] * 1.05
    ensures |buckets| >= 2 && buckets[|buckets| - 2] <= 10000000.0 < buckets[|buckets| - 2] * 1.05
  {
    buckets := [];
    var boundary := 100.0;
    while boundary <= 10000000.0
      invariant boundary >= 100.0
      invariant forall i, j :: 0 <= i < j < |buckets| ==> buckets[i] < buckets[j]
      invariant forall i :: 0 <= i < |buckets| ==> 100.0 <= buckets[i] < boundary && buckets[i] <= 10000000.0
      invariant forall i :: 0 <= i < |buckets| - 1 ==> buckets[i + 1] == buckets[i] * 1.05
      invariant if buckets == [] then boundary == 100.0
        else buckets[0] == 100.0 && boundary == buckets[|buckets| - 1] * 1.05
      decreases (20000000.0 - boundary).Floor
    {
      buckets := buckets + [boundary];
      boundary := boundary * 1.05;
    }
    buckets := buckets + [INF_BUCKET_FEERATE];
  }

  function View(c: ConfirmStats): Stats
    reads c
  {
    Stats(c.Counters(), c.Averages(), c.scale, c.decay)
  }

  lemma ViewValid(c: ConfirmStats, n: nat)
    ensures ValidStats(View(c), n) <==> c.Valid(n)
  {
  }

  // ----- One change to one horizon -----

  method Arrive(c: ConfirmStats, buckets: seq<real>, height: nat, feeRate: real) returns (bucket: nat)
    requires buckets != [] && ValidStats(View(c), |buckets|)
    modifies c
    ensures bucket == A.BucketIndex(buckets, feeRate)
    ensures View(c) == Apply(old(View(c)), Arrives(height, bucket), |buckets|)
  {
    hide Entered, A.BucketIndex;
    ViewValid(c, |buckets|);
    bucket := c.NewTransaction(buckets, height, feeRate);
  }

  method Depart(c: ConfirmStats, entry: nat, best: nat, bucket: nat, ghost n: nat)
    requires ValidStats(View(c), n) && bucket < n
    modifies c
    ensures View(c) == Apply(old(View(c)), Departs(entry, best, bucket), n)
  {
    hide Left, A.Abandoned;
    ViewValid(c, n);
    c.RemoveTransaction(entry, best, bucket, false);
  }

  method Confirm(c: ConfirmStats, buckets: seq<real>, entry: nat, best: nat, bucket: nat, feeRate: real)
    requires buckets != [] && ValidStats(View(c), |buckets|) && bucket < |buckets|
    modifies c
    ensures View(c) == Apply(old(View(c)),
      Confirms(entry, best, bucket, A.BucketIndex(buckets, feeRate), feeRate), |buckets|)
  {
    hide Left, A.Recorded, A.BucketIndex;
    ViewValid(c, |buckets|);
    c.RemoveTransaction(entry, best, bucket, true);
    c.RecordConfirmation(buckets, SaturatingSub(best, entry), feeRate);
  }

  method Tick(c: ConfirmStats, height: nat, ghost n: nat)
    requires ValidStats(View(c), n)
    modifies c
    ensures View(c) == Apply(old(View(c)), Ticks(height), n)
  {
    hide Cleared, A.Decayed;
    ViewValid(c, n);
    c.ClearCurrent(height);
    c.UpdateMovingAverages();
  }

  /** A fee rate is positive exactly when the fee is at least one thousandth per byte. */
  lemma PositiveRate(fee: nat, vsize: nat)
    requires vsize > 0
    ensures FeeRate(fee, vsize) > 0.0 <==> fee * 1000 >= vsize
  {
    PositiveQuotient(fee * 1000, vsize);
  }

  // ----- The confirmation loop -----

  /** The map without the given transactions. */
  ghost function Without(tracked: map<Txid, Tracked>, ids: seq<Txid>): map<Txid, Tracked> {
    tracked - set id | id in ids
  }

  lemma {:induction false} ConfirmAllTracked(s: State, ids: seq<Txid>)
    requires Valid(s)
    ensures ConfirmAll(s, ids).tracked == Without(s.tracked, ids)
    decreases |ids|
  {
    hide Apply, A.BucketIndex, Valid;
    if ids != [] {
      ConfirmAllTracked(ConfirmOf(s, ids[0]), ids[1..]);
      assert ConfirmOf(s, ids[0]).tracked == s.tracked - {ids[0]};
    }
  }

  /** What is still tracked after the given confirmations. */
  ghost predicate Remaining(tracked: map<Txid, Tracked>, initially: map<Txid, Tracked>, ids: seq<Txid>) {
    tracked.Keys == initially.Keys - set id | id in ids
  }

  ghost predicate AnyKnown(initially: map<Txid, Tracked>, ids: seq<Txid>) {
    exists id :: id in ids && id in initially
  }

  lemma NoneKnown(tracked: map<Txid, Tracked>, initially: map<Txid, Tracked>, ids: seq<Txid>)
    requires tracked == initially
    ensures Remaining(tracked, initially, ids[..0]) && !AnyKnown(initially, ids[..0]) && ids[0..] == ids
  {
  }

  lemma KnownStep(tracked: map<Txid, Tracked>, initially: map<Txid, Tracked>, ids: seq<Txid>, i: nat)
    requires i < |ids| && Remaining(tracked, initially, ids[..i])
    ensures Remaining(tracked - {ids[i]}, initially, ids[..i + 1])
    ensures AnyKnown(initially, ids[..i + 1]) <==> AnyKnown(initially, ids[..i]) || ids[i] in tracked
  {
    assert ids[..i + 1] == ids[..i] + [ids[i]];
  }

  lemma ConfirmAllStep(s: State, ids: seq<Txid>, i: nat)
    requires Valid(s) && i < |ids|
    ensures ConfirmAll(s, ids[i..]) == ConfirmAll(ConfirmOf(s, ids[i]), ids[i + 1..])
  {
    hide ConfirmOf, Valid;
    assert ids[i..][0] == ids[i] && ids[i..][1..] == ids[i + 1..];
  }

  lemma AllConfirmed(s: State, initially: map<Txid, Tracked>, ids: seq<Txid>)
    requires Valid(s)
    ensures ConfirmAll(s, ids[|ids|..]) == s
    ensures AnyKnown(initially, ids[..|ids|]) <==> exists id :: id in ids && id in initially
  {
    assert ids[..|ids|] == ids;
  }

  class FeeEstimator {
    const buckets: seq<real>
    const medium: ConfirmStats
    const short: ConfirmStats
    const long: ConfirmStats
    var bestHeight: nat
    var firstRecordedHeight: nat
    var tracked: map<Txid, Tracked>

    /** The estimator as a value. */
    function Value(): State
      reads this, short, medium, long
    {
      State(buckets, View(short), View(medium), View(long), bestHeight, firstRecordedHeight, tracked)
    }

    predicate Consistent()
      reads this, short, medium, long
    {
      short != medium && short != long && medium != long && Valid(Value())
    }

    constructor (bestHeight: nat)
      ensures Consistent() && fresh(short) && fresh(medium) && fresh(long)
      ensures Value() == Runs.FreshState(buckets, bestHeight)
      ensures this.bestHeight == bestHeight && tracked == map[] && firstRecordedHeight == 0
      ensures (short.scale, short.decay) == (1, 0.962) && |short.unconfirmed| == 12
      ensures (medium.scale, medium.decay) == (2, 0.9952) && |medium.unconfirmed| == 48
      ensures (long.scale, long.decay) == (24, 0.99931) && |long.unconfirmed| == 1008
    {
      var boundaries := DefaultBuckets();
      buckets := boundaries;
      medium := new ConfirmStats(|boundaries|, 24, 0.9952, 2);
      short := new ConfirmStats(|boundaries|, 12, 0.962, 1);
      long := new ConfirmStats(|boundaries|, 42, 0.99931, 24);
      this.bestHeight := bestHeight;
      firstRecordedHeight := 0;
      tracked := map[];
    }

    method TrackMempoolEntry(txid: Txid, isCoinbase: bool, feeSat: nat, vsize: nat, height: nat)
      requires Consistent() && feeSat <= U64_MAX
      modifies this, short, medium, long
      ensures Consistent()
      ensures Value() == TrackOf(old(Value()), TrackEntry(txid, isCoinbase, feeSat, vsize, height))
      ensures bestHeight == old(bestHeight) && firstRecordedHeight == old(firstRecordedHeight)
      ensures if vsize > 0 && height == bestHeight && txid !in old(tracked) && feeSat * 1000 >= vsize && !isCoinbase
        then
          var rate := (feeSat * 1000 / vsize) as real;
          tracked == old(tracked)[txid := Tracked(height, A.BucketIndex(buckets, rate), rate)]
        else Value() == old(Value())
    {
      hide Apply, ValidStats, A.BucketIndex, WellTracked;
      if vsize > 0 { PositiveRate(feeSat, vsize); }
      if vsize == 0 || height != bestHeight || txid in tracked {
        return;
      }
      var feeRate := FeeRate(feeSat, vsize);
      if feeRate <= 0.0 || isCoinbase {
        return;
      }
      var bucket := Arrive(medium, buckets, height, feeRate);
      var _ := Arrive(short, buckets, height, feeRate);
      var _ := Arrive(long, buckets, height, feeRate);
      tracked := tracked[txid := Tracked(height, bucket, feeRate)];
      assert Value() == TrackOf(old(Value()), TrackEntry(txid, isCoinbase, feeSat, vsize, height));
    }

    method RemoveFromMempool(txid: Txid)
      requires Consistent()
      modifies this, short, medium, long
      ensures Consistent() && Value() == RemoveOf(old(Value()), txid)
      ensures tracked == old(tracked) - {txid} && bestHeight == old(bestHeight)
      ensures firstRecordedHeight == old(firstRecordedHeight) && (txid !in old(tracked) ==> Value() == old(Value()))
    {
      hide Apply, ValidStats, A.BucketIndex;
      if txid !in tracked {
        return;
      }
      var t := tracked[txid];
      tracked := tracked - {txid};
      Depart(medium, t.entryHeight, bestHeight, t.bucket, |buckets|);
      Depart(short, t.entryHeight, bestHeight, t.bucket, |buckets|);
      Depart(long, t.entryHeight, bestHeight, t.bucket, |buckets|);
    }

    /** A block ages and decays every horizon, then confirms its tracked transactions in order. */
    method ProcessBlock(height: nat, confirmed: seq<Txid>)
      requires Consistent()
      modifies this, short, medium, long
      ensures Consistent() && Value() == BlockOf(old(Value()), height, confirmed)
      ensures height <= old(bestHeight) ==> Value() == old(Value())
      ensures height > old(bestHeight) ==>
        && bestHeight == height && tracked == Without(old(tracked), confirmed)
        && firstRecordedHeight ==
           if old(firstRecordedHeight) == 0 && (exists id :: id in confirmed && id in old(tracked)) then height
           else old(firstRecordedHeight)
    {
      hide Apply, ValidStats, A.BucketIndex, WellTracked;
      if height <= bestHeight {
        return;
      }
      ghost var before := Value();
      bestHeight := height;
      Tick(medium, height, |buckets|);
      Tick(short, height, |buckets|);
      Tick(long, height, |buckets|);
      assert Value() == TickOf(before, height);
      ConfirmAllTracked(Value(), confirmed);
      var counted := ConfirmEach(confirmed, before.tracked);
      if firstRecordedHeight == 0 && counted > 0 {
        firstRecordedHeight := height;
      }
    }

    method ConfirmEach(confirmed: seq<Txid>, ghost initially: map<Txid, Tracked>) returns (counted: nat)
      requires Consistent() && tracked == initially
      modifies this`tracked, short, medium, long
      ensures Consistent() && Value() == ConfirmAll(old(Value()), confirmed)
      ensures counted > 0 <==> exists id :: id in confirmed && id in initially
    {
      hide Apply, ValidStats, A.BucketIndex, WellTracked, ConfirmOf, ConfirmAll, Valid, View, Remaining, AnyKnown;
      counted := 0;
      var i := 0;
      NoneKnown(tracked, initially, confirmed);
      while i < |confirmed|
        invariant i <= |confirmed| && Consistent()
        invariant ConfirmAll(Value(), confirmed[i..]) == old(ConfirmAll(Value(), confirmed))
        invariant Remaining(tracked, initially, confirmed[..i])
        invariant counted > 0 <==> AnyKnown(initially, confirmed[..i])
      {
        var txid := confirmed[i];
        ConfirmAllStep(Value(), confirmed, i);
        KnownStep(tracked, initially, confirmed, i);
        var known := ConfirmOne(txid);
        if known {
          counted := counted + 1;
        }
        i := i + 1;
      }
      AllConfirmed(Value(), initially, confirmed);
    }

    method ConfirmOne(txid: Txid) returns (known: bool)
      requires Consistent()
      modifies this`tracked, short, medium, long
      ensures Consistent() && Value() == ConfirmOf(old(Value()), txid)
      ensures tracked == old(tracked) - {txid} && known == (txid in old(tracked))
    {
      hide Apply, ValidStats, A.BucketIndex;
      known := txid in tracked;
      if !known {
        return;
      }
      var t := tracked[txid];
      tracked := tracked - {txid};
      Confirm(medium, buckets, t.entryHeight, bestHeight, t.bucket, t.feeRate);
      Confirm(short, buckets, t.entryHeight, bestHeight, t.bucket, t.feeRate);
      Confirm(long, buckets, t.entryHeight, bestHeight, t.bucket, t.feeRate);
    }

    /** Every tracked transaction is removed, in some order. */
    method FlushUnconfirmed() returns (ghost order: seq<Txid>)
      requires Consistent()
      modifies this, short, medium, long
      ensures Consistent() && tracked == map[]
      ensures Value() == RemoveEach(old(Value()), order)
    {
      hide RemoveOf;
      order := [];
      ghost var before := Value();
      while tracked != map[]
        invariant Consistent() && Value() == RemoveEach(before, order)
        decreases |tracked|
      {
        var txid :| txid in tracked;
        ghost var n := |tracked|;
        ShrinkMap(tracked, txid);
        RemoveEachLast(before, order, txid);
        RemovedKeys(Value(), txid);
        RemoveFromMempool(txid);
        order := order + [txid];
      }
    }

    /** The estimate of one horizon. */
    method EstimateFor(horizon: Horizon, target: nat, sufficient: real, threshold: real) returns (e: Quote)
      requires Consistent()
      ensures var t := StatsOf(Value(), horizon);
        var usable := 0 < target <= |t.counters.ring| && 0.0 <= threshold <= 1.0;
        if usable then
          PeriodOf(target, t.scale) < |t.averages.confirmed|
          && IsEstimate(e, t.averages, buckets,
                        Cells(t.averages, t.counters, bestHeight, target, PeriodOf(target, t.scale), |buckets|),
                        Q.Rules(sufficient / (1.0 - t.decay), threshold))
        else e == Quote(None, NO_BUCKET, NO_BUCKET)
    {
      hide IsEstimate, Cells, WellTracked, PeriodOf;
      ViewValid(short, |buckets|);
      ViewValid(medium, |buckets|);
      ViewValid(long, |buckets|);
      var stats := match horizon case Short => short case Medium => medium case Long => long;
      e := stats.Estimate(buckets, target, sufficient, threshold, bestHeight);
      if target <= |View(stats).counters.ring| {
        PeriodInRange(target, stats.scale, |stats.confirmationAverage|);
      }
    }
  }

  ghost function RemoveEach(s: State, ids: seq<Txid>): (r: State)
    requires Valid(s)
    ensures Valid(r)
  {
    if ids == [] then s else RemoveOf(RemoveEach(s, ids[..|ids| - 1]), ids[|ids| - 1])
  }

  lemma RemoveEachLast(s: State, ids: seq<Txid>, id: Txid)
    requires Valid(s)
    ensures RemoveEach(s, ids + [id]) == RemoveOf(RemoveEach(s, ids), id)
  {
    hide RemoveOf;
    assert (ids + [id])[..|ids + [id]| - 1] == ids;
  }

  lemma ShrinkMap(m: map<Txid, Tracked>, id: Txid)
    requires id in m
    ensures |m - {id}| < |m|
  {
    assert (m - {id}).Keys + {id} == m.Keys;
  }

  lemma RemovedKeys(s: State, id: Txid)
    requires Valid(s)
    ensures RemoveOf(s, id).tracked == s.tracked - {id}
  {
    hide ApplyAll;
  }
}
