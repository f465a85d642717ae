/** Properties of the estimator over every run of its operations. */
module FeeRuns {
  import opened FeeRing
  import opened FeeModel
  import opened FeeEstimate
  import L = FeeLedger
  import A = FeeAverages
  import Q = FeeSearch
  import S = FeeScan

  predicate ValidOp(op: Op) { op.TrackEntry? ==> op.fee <= U64_MAX }

  predicate ValidOps(ops: seq<Op>) { forall op | op in ops :: ValidOp(op) }

  function Step(s: State, op: Op): (r: State)
    requires Valid(s) && ValidOp(op)
    ensures Valid(r) && r.buckets == s.buckets
  {
    match op
    case TrackEntry(_, _, _, _, _) => TrackOf(s, op)
    case RemoveEntry(id) => RemoveOf(s, id)
    case ProcessBlock(height, confirmed) => BlockOf(s, height, confirmed)
  }

  /** The state after a run, the last operation being the most recent. */
  function Run(s: State, ops: seq<Op>): (r: State)
    requires Valid(s) && ValidOps(ops)
    ensures Valid(r) && r.buckets == s.buckets
  {
    if ops == [] then s else Step(Run(s, ops[..|ops| - 1]), ops[|ops| - 1])
  }

  // ----- The counters of one horizon follow the ledger -----

  function LedgerOf(s: State, h: Horizon): Ledger { Ledger(StatsOf(s, h).counters, s.tracked, s.best) }

  lemma LedgerValid(s: State, h: Horizon)
    requires Valid(s)
    ensures ValidLedger(LedgerOf(s, h), |s.buckets|)
  {
  }

  /** What an operation means to the counters; a rejected entry means nothing. */
  function EventsOf(buckets: seq<real>, op: Op): (r: seq<L.Event>)
    requires buckets != []
    ensures L.ValidEvents(r, |buckets|) && |r| <= 1
  {
    match op
    case TrackEntry(id, coinbase, fee, vsize, height) =>
      if vsize > 0 && FeeRate(fee, vsize) > 0.0 && !coinbase
      then [L.Track(id, A.BucketIndex(buckets, FeeRate(fee, vsize)), FeeRate(fee, vsize), height)] else []
    case RemoveEntry(id) => [L.Drop(id)]
    case ProcessBlock(height, confirmed) => [L.Block(height, confirmed)]
  }

  function EventsOfAll(buckets: seq<real>, ops: seq<Op>): (r: seq<L.Event>)
    requires buckets != []
    ensures L.ValidEvents(r, |buckets|)
  {
    if ops == [] then [] else EventsOfAll(buckets, ops[..|ops| - 1]) + EventsOf(buckets, ops[|ops| - 1])
  }

  lemma {:induction false} ConfirmFollows(s: State, ids: seq<Txid>, h: Horizon)
    requires Valid(s)
    ensures ValidLedger(LedgerOf(s, h), |s.buckets|)
    ensures LedgerOf(ConfirmAll(s, ids), h) == L.Settle(LedgerOf(s, h), ids, |s.buckets|)
    decreases |ids|
  {
    hide A.Recorded, Left, A.BucketIndex;
    LedgerValid(s, h);
    if ids != [] {
      ConfirmFollows(ConfirmOf(s, ids[0]), ids[1..], h);
    }
  }

  lemma TrackFollows(s: State, op: Op, h: Horizon)
    requires Valid(s) && ValidOp(op) && op.TrackEntry? && ValidLedger(LedgerOf(s, h), |s.buckets|)
    ensures var events := EventsOf(s.buckets, op);
      LedgerOf(Step(s, op), h)
      == if events == [] then LedgerOf(s, h) else L.Step(LedgerOf(s, h), events[0], |s.buckets|)
  {
    hide Entered, A.BucketIndex, ValidStats, WellTracked, FeeRate;
  }

  lemma RemoveFollows(s: State, id: Txid, h: Horizon)
    requires Valid(s) && ValidLedger(LedgerOf(s, h), |s.buckets|)
    ensures LedgerOf(Step(s, RemoveEntry(id)), h) == L.Step(LedgerOf(s, h), L.Drop(id), |s.buckets|)
  {
    hide Left, A.Abandoned, A.BucketIndex, ValidStats;
  }

  lemma BlockFollows(s: State, height: nat, confirmed: seq<Txid>, h: Horizon)
    requires Valid(s) && ValidLedger(LedgerOf(s, h), |s.buckets|)
    ensures LedgerOf(Step(s, ProcessBlock(height, confirmed)), h)
      == L.Step(LedgerOf(s, h), L.Block(height, confirmed), |s.buckets|)
  {
    hide Cleared, A.Decayed, L.Settle, ConfirmAll, ValidStats, WellTracked;
    if height > s.best {
      ConfirmFollows(TickOf(s, height), confirmed, h);
    }
  }

  lemma StepFollows(s: State, op: Op, h: Horizon)
    requires Valid(s) && ValidOp(op)
    ensures ValidLedger(LedgerOf(s, h), |s.buckets|)
    ensures LedgerOf(Step(s, op), h) == L.Run(LedgerOf(s, h), EventsOf(s.buckets, op), |s.buckets|)
  {
    hide Step, L.Step, A.BucketIndex, FeeRate, ValidStats, WellTracked;
    LedgerValid(s, h);
    var events := EventsOf(s.buckets, op);
    if events != [] {
      assert events[..0] == [];
      assert L.Run(LedgerOf(s, h), events, |s.buckets|) == L.Step(LedgerOf(s, h), events[0], |s.buckets|);
    }
    match op
    case TrackEntry(_, _, _, _, _) => TrackFollows(s, op, h);
    case RemoveEntry(id) => RemoveFollows(s, id, h);
    case ProcessBlock(height, confirmed) => BlockFollows(s, height, confirmed, h);
  }

  lemma {:induction false} RunConcat(g: Ledger, a: seq<L.Event>, b: seq<L.Event>, n: nat)
    requires ValidLedger(g, n) && L.ValidEvents(a, n) && L.ValidEvents(b, n)
    ensures L.Run(g, a + b, n) == L.Run(L.Run(g, a, n), b, n)
    decreases |b|
  {
    hide L.Step;
    if b == [] {
      assert a + b == a;
    } else {
      var top := |b| - 1;
      RunConcat(g, a, b[..top], n);
      assert (a + b)[..|a + b| - 1] == a + b[..top];
    }
  }

  lemma {:induction false} RunFollows(s: State, ops: seq<Op>, h: Horizon)
    requires Valid(s) && ValidOps(ops)
    ensures ValidLedger(LedgerOf(s, h), |s.buckets|)
    ensures LedgerOf(Run(s, ops), h) == L.Run(LedgerOf(s, h), EventsOfAll(s.buckets, ops), |s.buckets|)
  {
    hide Step, L.Step, EventsOf;
    LedgerValid(s, h);
    if ops != [] {
      var rest, op := ops[..|ops| - 1], ops[|ops| - 1];
      RunFollows(s, rest, h);
      StepFollows(Run(s, rest), op, h);
      RunConcat(LedgerOf(s, h), EventsOfAll(s.buckets, rest), EventsOf(s.buckets, op), |s.buckets|);
    }
  }

  // ----- Runs from a fresh estimator -----

  function FreshStats(buckets: nat, periods: nat, scale: nat, decay: real): (t: Stats)
    requires periods > 0 && scale > 0 && 0.0 <= decay < 1.0
    ensures ValidStats(t, buckets) && |t.counters.ring| == periods * scale
  {
    assert periods * scale > 0;
    Stats(Counters(seq(periods * scale, _ => seq(buckets, _ => 0)), seq(buckets, _ => 0)),
          A.FreshAverages(buckets, periods), scale, decay)
  }

  /** The three horizons with their periods, scales and decay factors. */
  function FreshState(buckets: seq<real>, best: nat): (s: State)
    requires A.Ascending(buckets) && buckets[|buckets| - 1] >= TOP_RATE
    ensures Valid(s) && s.buckets == buckets && s.best == best
  {
    State(buckets, FreshStats(|buckets|, 12, 1, 0.962), FreshStats(|buckets|, 24, 2, 0.9952),
          FreshStats(|buckets|, 42, 24, 0.99931), best, 0, map[])
  }

  /** Which horizon is which: periods, blocks per period and decay factor. */
  lemma HorizonParameters(buckets: seq<real>, best: nat, h: Horizon)
    requires A.Ascending(buckets) && buckets[|buckets| - 1] >= TOP_RATE
    ensures var t := StatsOf(FreshState(buckets, best), h);
      (|t.averages.confirmed|, t.scale, t.decay)
      == if h.Short? then (12, 1, 0.962) else if h.Medium? then (24, 2, 0.9952) else (42, 24, 0.99931)
  {
  }

  predicate ValidStart(buckets: seq<real>, ops: seq<Op>) {
    A.Ascending(buckets) && buckets[|buckets| - 1] >= TOP_RATE && ValidOps(ops)
  }

  lemma FreshLedger(buckets: seq<real>, best: nat, h: Horizon)
    requires A.Ascending(buckets) && buckets[|buckets| - 1] >= TOP_RATE
    ensures var s := FreshState(buckets, best);
      LedgerOf(s, h) == L.Fresh(|StatsOf(s, h).counters.ring|, |buckets|, best)
  {
  }

  /** Over every run, even when block heights jump, each horizon's ring and
      overflow row hold exactly one count per tracked transaction of a bucket,
      and no ring counter is negative. */
  lemma EveryRunConserves(buckets: seq<real>, best: nat, ops: seq<Op>, h: Horizon)
    requires ValidStart(buckets, ops) && L.Tracks(EventsOfAll(buckets, ops)) <= I32_MAX
    ensures L.Sound(LedgerOf(Run(FreshState(buckets, best), ops), h), |buckets|, L.Tracks(EventsOfAll(buckets, ops)))
  {
    hide FreshState, L.Sound, L.Fresh;
    var s := FreshState(buckets, best);
    RunFollows(s, ops, h);
    FreshLedger(buckets, best, h);
    L.RunIsSound(|StatsOf(s, h).counters.ring|, |buckets|, best, EventsOfAll(buckets, ops));
  }

  /** Along the run every accepted block is the next one and at most 2^31 - 1
      transactions are tracked at a time. */
  predicate Contiguous(s: State, ops: seq<Op>)
    requires Valid(s) && ValidOps(ops)
  {
    |Run(s, ops).tracked| <= I32_MAX
    && (ops != [] ==>
      var rest, op := ops[..|ops| - 1], ops[|ops| - 1];
      Contiguous(s, rest) && (op.ProcessBlock? ==> op.height <= Run(s, rest).best + 1))
  }

  /** Over every contiguous run each ring slot counts exactly the young tracked
      transactions of its heights, and the overflow row the others. */
  lemma {:induction false} EveryContiguousRunAgrees(buckets: seq<real>, best: nat, ops: seq<Op>, h: Horizon)
    requires ValidStart(buckets, ops) && Contiguous(FreshState(buckets, best), ops)
    ensures ValidLedger(LedgerOf(Run(FreshState(buckets, best), ops), h), |buckets|)
    ensures Agrees(LedgerOf(Run(FreshState(buckets, best), ops), h), |buckets|)
  {
    hide FreshState, Agrees, L.Fresh, Step, EventsOf;
    var s0 := FreshState(buckets, best);
    if ops == [] {
      FreshLedger(buckets, best, h);
      L.FreshIsExact(|StatsOf(s0, h).counters.ring|, |buckets|, best);
    } else {
      var rest, op := ops[..|ops| - 1], ops[|ops| - 1];
      EveryContiguousRunAgrees(buckets, best, rest, h);
      StepAgrees(Run(s0, rest), op, h);
    }
    LedgerValid(Run(s0, ops), h);
  }

  lemma StepAgrees(s: State, op: Op, h: Horizon)
    requires Valid(s) && ValidOp(op) && ValidLedger(LedgerOf(s, h), |s.buckets|) && Agrees(LedgerOf(s, h), |s.buckets|)
    requires |s.tracked| <= I32_MAX && |Step(s, op).tracked| <= I32_MAX
    requires op.ProcessBlock? ==> op.height <= s.best + 1
    ensures ValidLedger(LedgerOf(Step(s, op), h), |s.buckets|) && Agrees(LedgerOf(Step(s, op), h), |s.buckets|)
  {
    hide Agrees, Step, L.Step, NoneSkipped, ValidStats, WellTracked, A.BucketIndex, FeeRate, Bounded;
    StepFollows(s, op, h);
    var g, events := LedgerOf(s, h), EventsOf(s.buckets, op);
    if events != [] {
      assert events[..0] == [];
      assert LedgerOf(Step(s, op), h) == L.Step(g, events[0], |s.buckets|);
      if op.ProcessBlock? {
        NextBlockSkipsNothing(g.tracked, |g.counters.ring|, g.best);
        L.BlockAgreesIff(g, op.height, op.confirmed, |s.buckets|);
      } else {
        L.EventAgrees(g, events[0], |s.buckets|);
      }
    }
  }

  /** What `estimate` takes for a bucket's waiting transactions is their number
      exactly when the chain is at least as long as the ring, the target is the
      ring size, or nothing tracked in the bucket entered at height zero. */
  lemma WaitingIsCounted(buckets: seq<real>, best: nat, ops: seq<Op>, h: Horizon, target: nat, b: nat)
    requires ValidStart(buckets, ops) && Contiguous(FreshState(buckets, best), ops) && b < |buckets|
    requires target <= |StatsOf(Run(FreshState(buckets, best), ops), h).counters.ring|
    ensures var s := Run(FreshState(buckets, best), ops); var n := |StatsOf(s, h).counters.ring|;
      Waiting(StatsOf(s, h).counters, s.best, target, b) == Count(s.tracked, Aged(b, target, s.best))
      <==> n <= s.best + 1 || target == n || Count(s.tracked, S.EnteredAt(b, 0)) == 0
  {
    hide FreshState, Run, Agrees, Contiguous;
    EveryContiguousRunAgrees(buckets, best, ops, h);
    S.ScanIsCountIff(LedgerOf(Run(FreshState(buckets, best), ops), h), |buckets|, target, b);
  }

  // ----- Averages over runs -----

  predicate AllPlausible(s: State) {
    forall h :: A.Plausible(StatsOf(s, h).averages, s.buckets)
  }

  lemma ApplyPlausible(s: State, c: Change)
    requires Valid(s) && AllPlausible(s) && Fits(c, |s.buckets|)
    requires c.Confirms? ==> A.LowerEnd(s.buckets, c.rateBucket) <= c.rate <= s.buckets[c.rateBucket]
    ensures AllPlausible(ApplyAll(s, c))
  {
    hide A.Plausible;
    forall h ensures A.Plausible(StatsOf(ApplyAll(s, c), h).averages, s.buckets) {
      var t := StatsOf(s, h);
      assert A.Plausible(t.averages, s.buckets);
      assert StatsOf(ApplyAll(s, c), h) == Apply(t, c, |s.buckets|);
      match c
      case Ticks(_) => A.DecayedPlausible(t.averages, s.buckets, t.decay);
      case Arrives(_, _) =>
      case Departs(entry, best, b) =>
        A.AbandonedPlausible(t.averages, s.buckets, SaturatingSub(best, entry), t.scale, b);
      case Confirms(entry, best, _, b, rate) =>
        A.RecordedPlausible(t.averages, s.buckets, SaturatingSub(best, entry), t.scale, b, rate);
    }
  }

  lemma {:induction false} ConfirmPlausible(s: State, ids: seq<Txid>)
    requires Valid(s) && AllPlausible(s)
    ensures AllPlausible(ConfirmAll(s, ids))
    decreases |ids|
  {
    hide AllPlausible;
    if ids != [] {
      if ids[0] in s.tracked {
        var t := s.tracked[ids[0]];
        var c := Confirms(t.entryHeight, s.best, t.bucket, A.BucketIndex(s.buckets, t.feeRate), t.feeRate);
        ApplyPlausible(s, c);
        SameAverages(ApplyAll(s, c), ConfirmOf(s, ids[0]));
      }
      ConfirmPlausible(ConfirmOf(s, ids[0]), ids[1..]);
    }
  }

  lemma SameAverages(s: State, r: State)
    requires AllPlausible(s) && s.buckets == r.buckets && s.short == r.short && s.medium == r.medium && s.long == r.long
    ensures AllPlausible(r)
  {
    hide A.Plausible;
    forall h ensures A.Plausible(StatsOf(r, h).averages, r.buckets) {
      assert A.Plausible(StatsOf(s, h).averages, s.buckets);
    }
  }

  lemma StepPlausible(s: State, op: Op)
    requires Valid(s) && ValidOp(op) && AllPlausible(s)
    ensures AllPlausible(Step(s, op))
  {
    hide AllPlausible, Apply;
    match op
    case TrackEntry(id, _, fee, vsize, height) =>
      if Accepted(s, op) {
        var c := Arrives(height, A.BucketIndex(s.buckets, FeeRate(fee, vsize)));
        ApplyPlausible(s, c);
        SameAverages(ApplyAll(s, c), Step(s, op));
      }
    case RemoveEntry(id) =>
      if id in s.tracked {
        var c := Departs(s.tracked[id].entryHeight, s.best, s.tracked[id].bucket);
        ApplyPlausible(s, c);
        SameAverages(ApplyAll(s, c), Step(s, op));
      }
    case ProcessBlock(height, confirmed) =>
      if height > s.best {
        ApplyPlausible(s, Ticks(height));
        SameAverages(ApplyAll(s, Ticks(height)), TickOf(s, height));
        ConfirmPlausible(TickOf(s, height), confirmed);
        SameAverages(ConfirmAll(TickOf(s, height), confirmed), Step(s, op));
      }
  }

  /** Over every run the averages stay plausible in all three horizons. */
  lemma {:induction false} EveryRunPlausible(buckets: seq<real>, best: nat, ops: seq<Op>)
    requires ValidStart(buckets, ops)
    ensures AllPlausible(Run(FreshState(buckets, best), ops))
  {
    hide Step, A.Plausible;
    if ops == [] {
      A.FreshPlausible(buckets, 12);
      A.FreshPlausible(buckets, 24);
      A.FreshPlausible(buckets, 42);
    } else {
      EveryRunPlausible(buckets, best, ops[..|ops| - 1]);
      StepPlausible(Run(FreshState(buckets, best), ops[..|ops| - 1]), ops[|ops| - 1]);
    }
  }

  /** Over every run, an estimate that finds a range has a rate inside that range,
      and the range is what it reports and meets the threshold. */
  lemma EveryEstimateInRange(buckets: seq<real>, best: nat, ops: seq<Op>, h: Horizon, target: nat, period: nat,
                             rules: Q.Rules, e: Quote)
    requires ValidStart(buckets, ops) && rules.enough > 0.0
    requires var t := StatsOf(Run(FreshState(buckets, best), ops), h);
      target <= |t.counters.ring| && period < |t.averages.confirmed|
    requires var s := Run(FreshState(buckets, best), ops); var t := StatsOf(s, h);
      IsEstimate(e, t.averages, buckets, Cells(t.averages, t.counters, s.best, target, period, |buckets|), rules)
    ensures e.rate.Some? ==> e.pass.start <= e.rate.value <= e.pass.end
    ensures e.rate.Some? <==> e.pass != NO_BUCKET
    ensures e.pass.withinTarget <= e.pass.totalConfirmed && e.fail.withinTarget <= e.fail.totalConfirmed
    ensures e.rate.Some? ==>
      var all := e.pass.totalConfirmed + e.pass.leftMempool + e.pass.inMempool;
      if all > 0.0 then e.pass.withinTarget >= rules.threshold * all else rules.threshold <= 0.0
    ensures var s := Run(FreshState(buckets, best), ops); var t := StatsOf(s, h);
      e.rate.Some? ==>
        exists lo: nat, hi: nat ::
          Reports(e, t.averages, WaitingRow(t.counters, s.best, target), period, buckets, lo, hi)
  {
    hide FreshState, Run, A.Plausible;
    EveryRunPlausible(buckets, best, ops);
    var s := Run(FreshState(buckets, best), ops);
    var t := StatsOf(s, h);
    var cells := Cells(t.averages, t.counters, s.best, target, period, |buckets|);
    EstimateInRange(e, t.averages, buckets, cells, rules);
    CountsNonNegative(t.averages, buckets, cells);
    FailBelowPass(e, t.averages, buckets, cells, rules);
    RangesAreShares(e, t.averages, t.counters, s.best, target, period, buckets, rules);
    if e.rate.Some? {
      PassMeetsRules(e, t.averages, buckets, cells, rules);
      PassIsReported(e, t.averages, t.counters, s.best, target, period, buckets, rules);
    }
  }
}
