/** The whole estimator as a value: three horizons over one map of tracked
    transactions, and its operations. */
module FeeModel {
  import opened Arithmetic
  import opened FeeRing
  import A = FeeAverages

  datatype Horizon = Short | Medium | Long

  datatype Stats = Stats(counters: Counters, averages: A.Averages, scale: nat, decay: real)

  datatype State = State(
    buckets: seq<real>, short: Stats, medium: Stats, long: Stats,
    best: nat, firstRecorded: nat, tracked: map<Txid, Tracked>)

  function StatsOf(s: State, h: Horizon): Stats {
    match h
    case Short => s.short
    case Medium => s.medium
    case Long => s.long
  }

  predicate ValidStats(t: Stats, buckets: nat) {
    && 0.0 <= t.decay < 1.0 && t.scale > 0 && t.averages.confirmed != []
    && A.Shaped(t.averages, buckets) && FeeRing.Shaped(t.counters, buckets)
    && |t.counters.ring| == |t.averages.confirmed| * t.scale
  }

  /** A tracked transaction is in the bucket of its fee rate and entered no later than the best height. */
  predicate WellTracked(t: Tracked, buckets: seq<real>, best: nat)
    requires buckets != []
  {
    t.entryHeight <= best && 0.0 < t.feeRate <= buckets[|buckets| - 1] && t.bucket == A.BucketIndex(buckets, t.feeRate)
  }

  predicate Valid(s: State) {
    && A.Ascending(s.buckets) && s.buckets[|s.buckets| - 1] >= TOP_RATE
    && ValidStats(s.short, |s.buckets|) && ValidStats(s.medium, |s.buckets|) && ValidStats(s.long, |s.buckets|)
    && forall id | id in s.tracked :: WellTracked(s.tracked[id], s.buckets, s.best)
  }

  // ----- Changes to one horizon, made to all three alike -----

  datatype Change =
    | Ticks(height: nat)
    | Arrives(height: nat, bucket: nat)
    | Departs(entry: nat, best: nat, bucket: nat)
    | Confirms(entry: nat, best: nat, bucket: nat, rateBucket: nat, rate: real)

  predicate Fits(c: Change, n: nat) {
    (!c.Ticks? ==> c.bucket < n) && (c.Confirms? ==> c.rateBucket < n)
  }

  function Apply(t: Stats, c: Change, n: nat): (r: Stats)
    requires ValidStats(t, n) && Fits(c, n)
    ensures ValidStats(r, n) && |r.counters.ring| == |t.counters.ring|
  {
    match c
    case Ticks(height) =>
      t.(counters := Cleared(t.counters, height), averages := A.Decayed(t.averages, t.decay))
    case Arrives(height, b) =>
      t.(counters := Entered(t.counters, height, b))
    case Departs(entry, best, b) =>
      t.(counters := Left(t.counters, entry, best, b),
         averages := A.Abandoned(t.averages, SaturatingSub(best, entry), t.scale, b))
    case Confirms(entry, best, b, rateBucket, rate) =>
      t.(counters := Left(t.counters, entry, best, b),
         averages := A.Recorded(t.averages, SaturatingSub(best, entry), t.scale, rateBucket, rate))
  }

  function ApplyAll(s: State, c: Change): (r: State)
    requires Valid(s) && Fits(c, |s.buckets|)
    ensures Valid(r) && r == s.(short := r.short, medium := r.medium, long := r.long)
    ensures forall h :: StatsOf(r, h) == Apply(StatsOf(s, h), c, |s.buckets|)
  {
    var n := |s.buckets|;
    s.(short := Apply(s.short, c, n), medium := Apply(s.medium, c, n), long := Apply(s.long, c, n))
  }

  // ----- Operations on the estimator -----

  datatype Op =
    | TrackEntry(id: Txid, coinbase: bool, fee: nat, vsize: nat, height: nat)
    | RemoveEntry(id: Txid)
    | ProcessBlock(height: nat, confirmed: seq<Txid>)

  const U64_MAX: nat := 0xffff_ffff_ffff_ffff

  function FeeRate(fee: nat, vsize: nat): real
    requires vsize > 0
  {
    (fee * 1000 / vsize) as real
  }

  /** No 64-bit fee over a positive size exceeds this rate. */
  const TOP_RATE: real := 18446744073709551615000.0

  lemma RateBelowTop(op: Op)
    requires op.TrackEntry? && op.vsize > 0 && op.fee <= U64_MAX
    ensures FeeRate(op.fee, op.vsize) <= TOP_RATE
  {
    DivideShrinks(op.fee * 1000, op.vsize);
  }

  predicate Accepted(s: State, op: Op)
    requires op.TrackEntry?
  {
    op.vsize > 0 && op.height == s.best && op.id !in s.tracked && FeeRate(op.fee, op.vsize) > 0.0 && !op.coinbase
  }

  function TrackOf(s: State, op: Op): (r: State)
    requires Valid(s) && op.TrackEntry? && op.fee <= U64_MAX
    ensures Valid(r) && r.buckets == s.buckets
  {
    if !Accepted(s, op) then s
    else
      var rate := FeeRate(op.fee, op.vsize);
      RateBelowTop(op);
      var b := A.BucketIndex(s.buckets, rate);
      ApplyAll(s, Arrives(op.height, b)).(tracked := s.tracked[op.id := Tracked(op.height, b, rate)])
  }

  function RemoveOf(s: State, id: Txid): (r: State)
    requires Valid(s)
    ensures Valid(r) && r.buckets == s.buckets && r.best == s.best
  {
    if id !in s.tracked then s
    else
      var t := s.tracked[id];
      ApplyAll(s, Departs(t.entryHeight, s.best, t.bucket)).(tracked := s.tracked - {id})
  }

  function ConfirmOf(s: State, id: Txid): (r: State)
    requires Valid(s)
    ensures Valid(r) && r.buckets == s.buckets && r.best == s.best
  {
    if id !in s.tracked then s
    else
      var t := s.tracked[id];
      ApplyAll(s, Confirms(t.entryHeight, s.best, t.bucket, A.BucketIndex(s.buckets, t.feeRate), t.feeRate))
        .(tracked := s.tracked - {id})
  }

  function ConfirmAll(s: State, ids: seq<Txid>): (r: State)
    requires Valid(s)
    ensures Valid(r) && r.buckets == s.buckets && r.best == s.best
    decreases |ids|
  {
    if ids == [] then s else ConfirmAll(ConfirmOf(s, ids[0]), ids[1..])
  }

  function TickOf(s: State, height: nat): (r: State)
    requires Valid(s) && height > s.best
    ensures Valid(r) && r.buckets == s.buckets && r.best == height
  {
    ApplyAll(s, Ticks(height)).(best := height)
  }

  function BlockOf(s: State, height: nat, confirmed: seq<Txid>): (r: State)
    requires Valid(s)
    ensures Valid(r) && r.buckets == s.buckets
  {
    if height <= s.best then s
    else
      var r := ConfirmAll(TickOf(s, height), confirmed);
      if s.firstRecorded == 0 && exists id :: id in confirmed && id in s.tracked
      then r.(firstRecorded := height) else r
  }
}
