/** The counters over whole runs: what every run keeps, and what a block keeps
    exactly when it skips no ageing transaction. */
module FeeLedger {
  import opened Arithmetic
  import opened FeeRing

  datatype Event =
    | Track(id: Txid, bucket: nat, feeRate: real, height: nat)
    | Drop(id: Txid)
    | Block(height: nat, confirmed: seq<Txid>)

  function Settle(g: Ledger, ids: seq<Txid>, buckets: nat): (r: Ledger)
    requires ValidLedger(g, buckets)
    ensures ValidLedger(r, buckets) && |r.counters.ring| == |g.counters.ring| && r.best == g.best
    ensures r.tracked == g.tracked - (set id | id in ids)
    decreases |ids|
  {
    if ids == [] then g
    else if ids[0] in g.tracked then
      var r := Settle(Leave(g, ids[0]), ids[1..], buckets);
      assert r.tracked == g.tracked - (set id | id in ids);
      r
    else Settle(g, ids[1..], buckets)
  }

  /** One event, with the estimator's own guards. */
  function Step(g: Ledger, e: Event, buckets: nat): (r: Ledger)
    requires ValidLedger(g, buckets) && (e.Track? ==> e.bucket < buckets)
    ensures ValidLedger(r, buckets) && |r.counters.ring| == |g.counters.ring|
  {
    match e
    case Track(id, bucket, feeRate, height) =>
      if height != g.best || id in g.tracked then g else Enter(g, id, Tracked(height, bucket, feeRate))
    case Drop(id) => if id in g.tracked then Leave(g, id) else g
    case Block(height, confirmed) =>
      if height <= g.best then g else Settle(Advance(g, height), confirmed, buckets)
  }

  predicate ValidEvents(events: seq<Event>, buckets: nat) {
    forall e | e in events :: e.Track? ==> e.bucket < buckets
  }

  /** The state after a run, the last event being the most recent. */
  function Run(g: Ledger, events: seq<Event>, buckets: nat): (r: Ledger)
    requires ValidLedger(g, buckets) && ValidEvents(events, buckets)
    ensures ValidLedger(r, buckets) && |r.counters.ring| == |g.counters.ring|
  {
    if events == [] then g
    else Step(Run(g, events[..|events| - 1], buckets), events[|events| - 1], buckets)
  }

  /** No transaction tracked and every counter zero. */
  function Fresh(size: nat, buckets: nat, best: nat): (g: Ledger)
    requires size > 0
    ensures ValidLedger(g, buckets) && |g.counters.ring| == size
  {
    Ledger(Counters(seq(size, _ => seq(buckets, _ => 0)), seq(buckets, _ => 0)), map[], best)
  }

  // ----- Conservation -----

  ghost function Column(ring: seq<seq<int>>, b: nat): int
    requires forall i :: 0 <= i < |ring| ==> b < |ring[i]|
  {
    if ring == [] then 0 else Column(ring[..|ring| - 1], b) + ring[|ring| - 1][b]
  }

  lemma {:induction false} ColumnUpdate(ring: seq<seq<int>>, i: nat, row: seq<int>, b: nat)
    requires i < |ring| && b < |row| && forall j :: 0 <= j < |ring| ==> b < |ring[j]|
    ensures Column(ring[i := row], b) == Column(ring, b) - ring[i][b] + row[b]
  {
    var top := |ring| - 1;
    if i == top {
      assert ring[i := row][..top] == ring[..top];
    } else {
      ColumnUpdate(ring[..top], i, row, b);
      assert ring[i := row][..top] == ring[..top][i := row];
    }
  }

  lemma {:induction false} ColumnBounds(ring: seq<seq<int>>, i: nat, b: nat)
    requires i < |ring| && forall j :: 0 <= j < |ring| ==> b < |ring[j]| && ring[j][b] >= 0
    ensures ring[i][b] <= Column(ring, b)
  {
    var rest := ring[..|ring| - 1];
    if i < |rest| {
      ColumnBounds(rest, i, b);
    } else {
      ColumnNonNegative(rest, b);
    }
  }

  lemma {:induction false} ColumnNonNegative(ring: seq<seq<int>>, b: nat)
    requires forall j :: 0 <= j < |ring| ==> b < |ring[j]| && ring[j][b] >= 0
    ensures 0 <= Column(ring, b)
  {
    if ring != [] {
      ColumnNonNegative(ring[..|ring| - 1], b);
    }
  }

  /** Ring and overflow row together hold one count per tracked transaction. */
  ghost predicate Conserved(g: Ledger, buckets: nat)
    requires ValidLedger(g, buckets)
  {
    forall b :: 0 <= b < buckets ==>
      Column(g.counters.ring, b) + g.counters.overflow[b] == Count(g.tracked, InBucket(b))
  }

  /** No slot undercounts the young transactions it stands for. */
  ghost predicate RingCovers(g: Ledger, buckets: nat)
    requires ValidLedger(g, buckets)
  {
    forall i, b :: 0 <= i < |g.counters.ring| && 0 <= b < buckets ==> SlotExcess(g, i, b) >= 0
  }

  /** What every run keeps, however heights jump; `total` bounds the transactions ever tracked. */
  ghost predicate Sound(g: Ledger, buckets: nat, total: nat)
  {
    && ValidLedger(g, buckets)
    && Conserved(g, buckets)
    && RingCovers(g, buckets)
    && |g.tracked| <= total
    && forall b :: 0 <= b < buckets ==> Column(g.counters.ring, b) <= total
  }

  lemma SoundBounds(g: Ledger, buckets: nat, total: nat)
    requires Sound(g, buckets, total) && total <= I32_MAX
    ensures Unsaturated(g.counters, buckets)
    ensures forall i, b :: 0 <= i < |g.counters.ring| && 0 <= b < buckets ==> 0 <= g.counters.ring[i][b] <= total
    ensures forall b :: 0 <= b < buckets ==> 0 - total <= g.counters.overflow[b] <= total
  {
    hide Count;
    var ring := g.counters.ring;
    forall i, b | 0 <= i < |ring| && 0 <= b < buckets ensures 0 <= ring[i][b] {
      assert SlotExcess(g, i, b) >= 0;
    }
    forall i, b | 0 <= i < |ring| && 0 <= b < buckets ensures ring[i][b] <= total {
      ColumnBounds(ring, i, b);
    }
    forall b | 0 <= b < buckets ensures 0 - total <= g.counters.overflow[b] <= total {
      ColumnNonNegative(ring, b);
      CountAll(g.tracked, InBucket(b));
    }
  }

  lemma SoundEnter(g: Ledger, id: Txid, t: Tracked, buckets: nat, total: nat)
    requires Sound(g, buckets, total) && total < I32_MAX
    requires id !in g.tracked && t.bucket < buckets && t.entryHeight == g.best
    ensures Sound(Enter(g, id, t), buckets, total + 1)
  {
    hide Count, SlotExcess, OldExcess;
    var g', n := Enter(g, id, t), |g.counters.ring|;
    SoundBounds(g, buckets, total);
    EnterKeepsExcess(g, id, t, buckets);
    forall b | 0 <= b < buckets
      ensures Column(g'.counters.ring, b) <= total + 1
      ensures Column(g'.counters.ring, b) + g'.counters.overflow[b] == Count(g'.tracked, InBucket(b))
    {
      CountInsert(g.tracked, id, t, InBucket(b));
      var i := t.entryHeight % n;
      ColumnUpdate(g.counters.ring, i, g'.counters.ring[i], b);
    }
  }

  lemma SoundLeave(g: Ledger, id: Txid, buckets: nat, total: nat)
    requires Sound(g, buckets, total) && total <= I32_MAX && id in g.tracked
    ensures Sound(Leave(g, id), buckets, total)
  {
    hide Count, SlotExcess, OldExcess;
    var t, g', n := g.tracked[id], Leave(g, id), |g.counters.ring|;
    SoundBounds(g, buckets, total);
    LeaveKeepsExcess(g, id, buckets);
    forall b | 0 <= b < buckets
      ensures Column(g'.counters.ring, b) <= total
      ensures Column(g'.counters.ring, b) + g'.counters.overflow[b] == Count(g'.tracked, InBucket(b))
    {
      CountRemove(g.tracked, id, InBucket(b));
      var i := t.entryHeight % n;
      ColumnUpdate(g.counters.ring, i, g'.counters.ring[i], b);
      if g'.counters.ring[i] == g.counters.ring[i] {
        assert g.counters.ring[i := g.counters.ring[i]] == g.counters.ring;
      }
    }
  }

  lemma SoundAdvance(g: Ledger, height: nat, buckets: nat, total: nat)
    requires Sound(g, buckets, total) && total <= I32_MAX && height > g.best
    ensures Sound(Advance(g, height), buckets, total)
  {
    hide Count, SlotExcess, OldExcess, Column;
    var g', n := Advance(g, height), |g.counters.ring|;
    var i := height % n;
    SoundBounds(g, buckets, total);
    forall j, b | 0 <= j < n && 0 <= b < buckets ensures SlotExcess(g', j, b) >= 0 {
      AdvanceSlots(g, height, j, b);
      assert SlotExcess(g, j, b) >= 0;
    }
    forall b | 0 <= b < buckets
      ensures Column(g'.counters.ring, b) <= total
      ensures Column(g'.counters.ring, b) + g'.counters.overflow[b] == Count(g'.tracked, InBucket(b))
    {
      ColumnUpdate(g.counters.ring, i, g'.counters.ring[i], b);
      ColumnBounds(g.counters.ring, i, b);
      CountAll(g.tracked, InBucket(b));
    }
  }

  lemma {:induction false} SoundSettle(g: Ledger, ids: seq<Txid>, buckets: nat, total: nat)
    requires Sound(g, buckets, total) && total <= I32_MAX
    ensures Sound(Settle(g, ids, buckets), buckets, total)
    decreases |ids|
  {
    hide Conserved, RingCovers, Column;
    if ids != [] {
      if ids[0] in g.tracked {
        SoundLeave(g, ids[0], buckets, total);
        SoundSettle(Leave(g, ids[0]), ids[1..], buckets, total);
      } else {
        SoundSettle(g, ids[1..], buckets, total);
      }
    }
  }

  function Tracks(events: seq<Event>): nat {
    if events == [] then 0
    else Tracks(events[..|events| - 1]) + (if events[|events| - 1].Track? then 1 else 0)
  }

  lemma FreshIsExact(size: nat, buckets: nat, best: nat)
    requires size > 0
    ensures Sound(Fresh(size, buckets, best), buckets, 0) && Agrees(Fresh(size, buckets, best), buckets)
  {
    var g := Fresh(size, buckets, best);
    forall b | 0 <= b < buckets ensures Column(g.counters.ring, b) == 0 {
      ColumnOfZeros(g.counters.ring, b);
    }
    assert forall p: Tracked -> bool :: Members(g.tracked, p) == {};
  }

  lemma {:induction false} ColumnOfZeros(ring: seq<seq<int>>, b: nat)
    requires forall j :: 0 <= j < |ring| ==> b < |ring[j]| && ring[j][b] == 0
    ensures Column(ring, b) == 0
  {
    if ring != [] {
      ColumnOfZeros(ring[..|ring| - 1], b);
    }
  }

  /** Over every run of fewer than 2^31 trackings, whatever heights the blocks
      have, no count is lost or invented and no ring counter is negative. */
  lemma {:induction false} RunIsSound(size: nat, buckets: nat, best: nat, events: seq<Event>)
    requires size > 0 && ValidEvents(events, buckets) && Tracks(events) <= I32_MAX
    ensures Sound(Run(Fresh(size, buckets, best), events, buckets), buckets, Tracks(events))
  {
    hide Sound, Leave, Advance, Settle, Fresh;
    if events == [] {
      FreshIsExact(size, buckets, best);
    } else {
      var rest, e := events[..|events| - 1], events[|events| - 1];
      RunIsSound(size, buckets, best, rest);
      var g := Run(Fresh(size, buckets, best), rest, buckets);
      StepIsSound(g, e, buckets, Tracks(rest));
    }
  }

  lemma StepIsSound(g: Ledger, e: Event, buckets: nat, total: nat)
    requires Sound(g, buckets, total) && (e.Track? ==> e.bucket < buckets)
    requires total + (if e.Track? then 1 else 0) <= I32_MAX
    ensures Sound(Step(g, e, buckets), buckets, total + (if e.Track? then 1 else 0))
  {
    hide Conserved, RingCovers, Leave, Advance;
    match e
    case Track(id, bucket, feeRate, height) =>
      if height == g.best && id !in g.tracked {
        SoundEnter(g, id, Tracked(height, bucket, feeRate), buckets, total);
      }
    case Drop(id) =>
      if id in g.tracked {
        SoundLeave(g, id, buckets, total);
      }
    case Block(height, confirmed) =>
      if height > g.best {
        SoundAdvance(g, height, buckets, total);
        SoundSettle(Advance(g, height), confirmed, buckets, total);
      }
  }

  // ----- Agreement -----

  /** Every counter is at least `0 - k` and fits 32 bits. */
  predicate Floor(c: Counters, buckets: nat, k: nat)
    requires Shaped(c, buckets)
  {
    (forall b :: 0 <= b < buckets ==> 0 - k <= c.overflow[b] <= I32_MAX)
    && forall i, b :: 0 <= i < |c.ring| && 0 <= b < buckets ==> 0 - k <= c.ring[i][b] <= I32_MAX
  }

  /** Confirming transactions moves no counter away from its count. */
  lemma {:induction false} SettleKeepsExcess(g: Ledger, ids: seq<Txid>, buckets: nat, k: nat)
    requires ValidLedger(g, buckets) && Floor(g.counters, buckets, k) && k + |g.tracked| <= I32_MAX
    ensures SameExcess(g, Settle(g, ids, buckets), buckets)
    decreases |ids|
  {
    hide SlotExcess, OldExcess;
    if ids != [] {
      var id := ids[0];
      if id in g.tracked {
        LeaveKeepsExcess(g, id, buckets);
        var g' := Leave(g, id);
        assert g.tracked.Keys == g'.tracked.Keys + {id};
        assert Floor(g'.counters, buckets, k + 1);
        SettleKeepsExcess(g', ids[1..], buckets, k + 1);
      } else {
        SettleKeepsExcess(g, ids[1..], buckets, k);
      }
    }
  }

  lemma SameExcessAgrees(g: Ledger, g': Ledger, buckets: nat)
    requires ValidLedger(g, buckets) && ValidLedger(g', buckets) && |g.counters.ring| == |g'.counters.ring|
    requires SameExcess(g, g', buckets)
    ensures Agrees(g, buckets) <==> Agrees(g', buckets)
  {
    hide SlotExcess, OldExcess;
    if Agrees(g', buckets) {
      forall b | 0 <= b < buckets ensures OldExcess(g, b) == 0 { assert OldExcess(g', b) == 0; }
      forall i, b | 0 <= i < |g.counters.ring| && 0 <= b < buckets ensures SlotExcess(g, i, b) == 0 {
        assert SlotExcess(g', i, b) == 0;
      }
    }
  }

  /** A block, confirmations included, keeps agreement exactly when no tracked
      transaction outgrows the ring in a slot the block does not clear. */
  lemma BlockAgreesIff(g: Ledger, height: nat, confirmed: seq<Txid>, buckets: nat)
    requires ValidLedger(g, buckets) && Agrees(g, buckets) && |g.tracked| <= I32_MAX
    ensures Agrees(Step(g, Block(height, confirmed), buckets), buckets)
      <==> height <= g.best || NoneSkipped(g.tracked, |g.counters.ring|, g.best, height)
  {
    hide Agrees, SameExcess, NoneSkipped, Cleared;
    if height > g.best {
      AdvanceAgreesIff(g, height, buckets);
      AdvanceFloor(g, height, buckets);
      SettleKeepsExcess(Advance(g, height), confirmed, buckets, 0);
      SameExcessAgrees(Advance(g, height), Settle(Advance(g, height), confirmed, buckets), buckets);
    }
  }

  lemma AgreesFloor(g: Ledger, buckets: nat)
    requires ValidLedger(g, buckets) && Agrees(g, buckets) && |g.tracked| <= I32_MAX
    ensures Floor(g.counters, buckets, 0)
    ensures forall i, b :: 0 <= i < |g.counters.ring| && 0 <= b < buckets ==> g.counters.ring[i][b] <= |g.tracked|
  {
    hide Agrees;
    forall b | 0 <= b < buckets ensures 0 <= g.counters.overflow[b] <= I32_MAX {
      AgreesBounds(g, buckets, b, 0);
    }
    forall i, b | 0 <= i < |g.counters.ring| && 0 <= b < buckets ensures 0 <= g.counters.ring[i][b] <= |g.tracked| {
      AgreesBounds(g, buckets, b, i);
    }
  }

  lemma AdvanceFloor(g: Ledger, height: nat, buckets: nat)
    requires ValidLedger(g, buckets) && Agrees(g, buckets) && |g.tracked| <= I32_MAX
    ensures Floor(Advance(g, height).counters, buckets, 0)
  {
    hide Agrees;
    AgreesFloor(g, buckets);
    var c, i := Advance(g, height).counters, height % |g.counters.ring|;
    forall b | 0 <= b < buckets ensures 0 <= c.overflow[b] <= I32_MAX {
      AgreesBounds(g, buckets, b, i);
    }
  }

  lemma EventAgrees(g: Ledger, e: Event, buckets: nat)
    requires ValidLedger(g, buckets) && Agrees(g, buckets) && !e.Block? && (e.Track? ==> e.bucket < buckets)
    requires |g.tracked| <= I32_MAX && |Step(g, e, buckets).tracked| <= I32_MAX
    ensures Agrees(Step(g, e, buckets), buckets)
  {
    hide Agrees, SameExcess;
    AgreesFloor(g, buckets);
    match e
    case Track(id, bucket, feeRate, height) =>
      if height == g.best && id !in g.tracked {
        var t := Tracked(height, bucket, feeRate);
        assert g.tracked[id := t].Keys == g.tracked.Keys + {id};
        EnterKeepsExcess(g, id, t, buckets);
        SameExcessAgrees(g, Enter(g, id, t), buckets);
      }
    case Drop(id) =>
      if id in g.tracked {
        LeaveKeepsExcess(g, id, buckets);
        SameExcessAgrees(g, Leave(g, id), buckets);
      }
  }

  /** With a height gap the overflow row can go below zero. */
  lemma GapGoesNegative(size: nat, best: nat)
    requires size >= 2
    ensures var events := [Track(7, 0, 1.0, best), Block(best + size + 1, []), Drop(7)];
      Run(Fresh(size, 1, best), events, 1).counters.overflow[0] == -1
  {
    var track, block, drop := Track(7, 0, 1.0, best), Block(best + size + 1, []), Drop(7);
    assert [track, block, drop][..2] == [track, block] && [track, block][..1] == [track] && [track][..0] == [];
    var g0 := Fresh(size, 1, best);
    var g1 := Step(g0, track, 1);
    var g2 := Step(g1, block, 1);
    assert Run(g0, [track], 1) == g1;
    assert Run(g0, [track, block], 1) == g2;
    NeighbourSlots(best, size);
    assert g2.counters.overflow[0] == 0;
  }

  lemma NeighbourSlots(best: nat, size: nat)
    requires size >= 2
    ensures (best + size + 1) % size != best % size
  {
    ModOfSum(best + 1, size);
    if (best + 1) % size == best % size {
      CongruentApart(best, best + 1, size);
    }
  }
}
