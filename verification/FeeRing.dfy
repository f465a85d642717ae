/** Unconfirmed-transaction counters of the fee estimator: a ring indexed by
    entry height, an overflow row, and the map of tracked transactions they
    summarise. */
module FeeRing {
  import opened Arithmetic

  type Txid = nat

  datatype Tracked = Tracked(entryHeight: nat, bucket: nat, feeRate: real)

  /** `ring[h % |ring|][b]` counts recent entries, `overflow[b]` the ones that left the ring. */
  datatype Counters = Counters(ring: seq<seq<int>>, overflow: seq<int>)

  predicate Shaped(c: Counters, buckets: nat) {
    |c.ring| > 0 && |c.overflow| == buckets
    && forall i :: 0 <= i < |c.ring| ==> |c.ring[i]| == buckets
  }

  // ----- Saturating 32-bit arithmetic -----

  const I32_MAX: int := 0x7fff_ffff
  const I32_MIN: int := -0x8000_0000

  /** The nearest 32-bit counter value. */
  function Clamp(x: int): (r: int)
    ensures I32_MIN <= r <= I32_MAX && (r < x ==> r == I32_MAX) && (r > x ==> r == I32_MIN)
  {
    if x > I32_MAX then I32_MAX else if x < I32_MIN then I32_MIN else x
  }

  function SaturatingSub(a: nat, b: nat): (r: nat)
    ensures r + b >= a && (r > 0 ==> r + b == a)
  {
    if a < b then 0 else a - b
  }

  // ----- The three updates -----

  function Bump(c: Counters, height: nat, b: nat, delta: int): (r: Counters)
    requires Shaped(c, |c.overflow|) && b < |c.overflow|
    ensures Shaped(r, |c.overflow|) && |r.ring| == |c.ring|
  {
    var i := height % |c.ring|;
    c.(ring := c.ring[i := c.ring[i][b := Clamp(c.ring[i][b] + delta)]])
  }

  /** A transaction enters at `height`. */
  function Entered(c: Counters, height: nat, b: nat): (r: Counters)
    requires Shaped(c, |c.overflow|) && b < |c.overflow|
    ensures Shaped(r, |c.overflow|) && |r.ring| == |c.ring|
  {
    Bump(c, height, b, 1)
  }

  /** A transaction leaves: from the overflow row once `maxConfirms` blocks old. */
  function Left(c: Counters, entryHeight: nat, bestHeight: nat, b: nat): (r: Counters)
    requires Shaped(c, |c.overflow|) && b < |c.overflow|
    ensures Shaped(r, |c.overflow|) && |r.ring| == |c.ring|
  {
    if SaturatingSub(bestHeight, entryHeight) >= |c.ring|
    then c.(overflow := c.overflow[b := Clamp(c.overflow[b] - 1)])
    else Bump(c, entryHeight, b, -1)
  }

  /** A block at `height` reuses its slot: what is still there moves to the overflow row. */
  function Cleared(c: Counters, height: nat): (r: Counters)
    requires Shaped(c, |c.overflow|)
    ensures Shaped(r, |c.overflow|) && |r.ring| == |c.ring|
  {
    var i := height % |c.ring|;
    Counters(c.ring[i := seq(|c.overflow|, _ => 0)],
             seq(|c.overflow|, b requires 0 <= b < |c.overflow| => Clamp(c.overflow[b] + c.ring[i][b])))
  }

  // ----- Counting tracked transactions -----

  ghost function Members(tracked: map<Txid, Tracked>, p: Tracked -> bool): set<Txid> {
    set id | id in tracked && p(tracked[id])
  }

  ghost function Count(tracked: map<Txid, Tracked>, p: Tracked -> bool): nat {
    |Members(tracked, p)|
  }

  ghost function InBucket(b: nat): Tracked -> bool {
    (t: Tracked) => t.bucket == b
  }

  /** Bucket `b`, entry height congruent to slot `i`, younger than the ring. */
  ghost function InSlot(b: nat, i: nat, size: nat, best: nat): Tracked -> bool
    requires size > 0
  {
    (t: Tracked) => t.bucket == b && t.entryHeight + size > best && t.entryHeight % size == i
  }

  ghost function Aged(b: nat, age: nat, best: nat): Tracked -> bool {
    (t: Tracked) => t.bucket == b && t.entryHeight + age <= best
  }

  lemma CountInsert(tracked: map<Txid, Tracked>, id: Txid, t: Tracked, p: Tracked -> bool)
    requires id !in tracked
    ensures Count(tracked[id := t], p) == Count(tracked, p) + (if p(t) then 1 else 0)
  {
    var more := Members(tracked[id := t], p);
    if p(t) {
      assert more == Members(tracked, p) + {id};
    } else {
      assert more == Members(tracked, p);
    }
  }

  lemma CountRemove(tracked: map<Txid, Tracked>, id: Txid, p: Tracked -> bool)
    requires id in tracked
    ensures Count(tracked, p) == Count(tracked - {id}, p) + (if p(tracked[id]) then 1 else 0)
  {
    var rest := tracked - {id};
    assert rest[id := tracked[id]] == tracked;
    CountInsert(rest, id, tracked[id], p);
  }

  lemma CountSplit(tracked: map<Txid, Tracked>, p: Tracked -> bool, q: Tracked -> bool, r: Tracked -> bool)
    requires forall id | id in tracked :: r(tracked[id]) <==> p(tracked[id]) || q(tracked[id])
    requires forall id | id in tracked :: !(p(tracked[id]) && q(tracked[id]))
    ensures Count(tracked, r) == Count(tracked, p) + Count(tracked, q)
  {
    assert Members(tracked, r) == Members(tracked, p) + Members(tracked, q);
    assert Members(tracked, p) !! Members(tracked, q);
  }

  lemma CountBelow(tracked: map<Txid, Tracked>, p: Tracked -> bool, q: Tracked -> bool)
    requires forall id | id in tracked :: p(tracked[id]) ==> q(tracked[id])
    ensures Count(tracked, p) <= Count(tracked, q)
    ensures Count(tracked, p) == Count(tracked, q) ==> forall id | id in tracked :: q(tracked[id]) ==> p(tracked[id])
  {
    var a, z := Members(tracked, p), Members(tracked, q);
    assert a <= z;
    var gap := z - a;
    assert z == a + gap && |z| == |a| + |gap|;
    if |a| == |z| {
      assert gap == {};
      forall id | id in tracked && q(tracked[id]) ensures p(tracked[id]) {
        assert id in z && id !in gap;
      }
    }
  }

  lemma CountAll(tracked: map<Txid, Tracked>, p: Tracked -> bool)
    ensures Count(tracked, p) <= |tracked|
  {
    assert Members(tracked, p) <= tracked.Keys;
    SubsetSize(Members(tracked, p), tracked.Keys);
  }

  lemma SubsetSize(a: set<Txid>, z: set<Txid>)
    requires a <= z
    ensures |a| <= |z|
  {
    assert z == a + (z - a);
  }

  // ----- How far the counters are from the counts -----

  predicate Bounded(tracked: map<Txid, Tracked>, best: nat, buckets: nat) {
    forall id | id in tracked :: tracked[id].entryHeight <= best && tracked[id].bucket < buckets
  }

  /** One state: counters, what they count, and the best height. */
  datatype Ledger = Ledger(counters: Counters, tracked: map<Txid, Tracked>, best: nat)

  predicate ValidLedger(g: Ledger, buckets: nat) {
    Shaped(g.counters, buckets) && Bounded(g.tracked, g.best, buckets)
  }

  ghost function SlotExcess(g: Ledger, i: nat, b: nat): int
    requires Shaped(g.counters, |g.counters.overflow|) && i < |g.counters.ring| && b < |g.counters.overflow|
  {
    g.counters.ring[i][b] - Count(g.tracked, InSlot(b, i, |g.counters.ring|, g.best))
  }

  ghost function OldExcess(g: Ledger, b: nat): int
    requires b < |g.counters.overflow|
  {
    g.counters.overflow[b] - Count(g.tracked, Aged(b, |g.counters.ring|, g.best))
  }

  /** Every counter can be decremented without saturating. */
  predicate Unsaturated(c: Counters, buckets: nat)
    requires Shaped(c, buckets)
  {
    (forall b :: 0 <= b < buckets ==> I32_MIN < c.overflow[b] <= I32_MAX)
    && forall i, b :: 0 <= i < |c.ring| && 0 <= b < buckets ==> I32_MIN < c.ring[i][b] <= I32_MAX
  }

  ghost predicate SameExcess(g: Ledger, g': Ledger, buckets: nat)
    requires ValidLedger(g, buckets) && ValidLedger(g', buckets) && |g.counters.ring| == |g'.counters.ring|
  {
    (forall b :: 0 <= b < buckets ==> OldExcess(g', b) == OldExcess(g, b))
    && forall i, b :: 0 <= i < |g.counters.ring| && 0 <= b < buckets ==> SlotExcess(g', i, b) == SlotExcess(g, i, b)
  }

  function Enter(g: Ledger, id: Txid, t: Tracked): Ledger
    requires Shaped(g.counters, |g.counters.overflow|) && t.bucket < |g.counters.overflow|
  {
    Ledger(Entered(g.counters, t.entryHeight, t.bucket), g.tracked[id := t], g.best)
  }

  function Leave(g: Ledger, id: Txid): Ledger
    requires Shaped(g.counters, |g.counters.overflow|)
    requires id in g.tracked && g.tracked[id].bucket < |g.counters.overflow|
  {
    var t := g.tracked[id];
    Ledger(Left(g.counters, t.entryHeight, g.best, t.bucket), g.tracked - {id}, g.best)
  }

  function Advance(g: Ledger, height: nat): Ledger
    requires Shaped(g.counters, |g.counters.overflow|)
  {
    Ledger(Cleared(g.counters, height), g.tracked, height)
  }

  lemma EnterKeepsExcess(g: Ledger, id: Txid, t: Tracked, buckets: nat)
    requires ValidLedger(g, buckets) && id !in g.tracked && t.bucket < buckets && t.entryHeight == g.best
    requires Unsaturated(g.counters, buckets)
    requires g.counters.ring[g.best % |g.counters.ring|][t.bucket] < I32_MAX
    ensures ValidLedger(Enter(g, id, t), buckets) && SameExcess(g, Enter(g, id, t), buckets)
  {
    var g', n := Enter(g, id, t), |g.counters.ring|;
    forall b | 0 <= b < buckets ensures OldExcess(g', b) == OldExcess(g, b) {
      CountInsert(g.tracked, id, t, Aged(b, n, g.best));
    }
    forall i, b | 0 <= i < n && 0 <= b < buckets ensures SlotExcess(g', i, b) == SlotExcess(g, i, b) {
      CountInsert(g.tracked, id, t, InSlot(b, i, n, g.best));
    }
  }

  lemma LeaveKeepsExcess(g: Ledger, id: Txid, buckets: nat)
    requires ValidLedger(g, buckets) && id in g.tracked && Unsaturated(g.counters, buckets)
    ensures ValidLedger(Leave(g, id), buckets) && SameExcess(g, Leave(g, id), buckets)
  {
    var t, g', n := g.tracked[id], Leave(g, id), |g.counters.ring|;
    forall b | 0 <= b < buckets ensures OldExcess(g', b) == OldExcess(g, b) {
      CountRemove(g.tracked, id, Aged(b, n, g.best));
    }
    forall i, b | 0 <= i < n && 0 <= b < buckets ensures SlotExcess(g', i, b) == SlotExcess(g, i, b) {
      CountRemove(g.tracked, id, InSlot(b, i, n, g.best));
    }
  }

  // ----- A new block -----

  /** Entries of slot `i` that reach ring age between `best` and `height`. */
  ghost function Aging(b: nat, i: nat, size: nat, best: nat, height: nat): Tracked -> bool
    requires size > 0
  {
    (t: Tracked) => InSlot(b, i, size, best)(t) && t.entryHeight + size <= height
  }

  /** Clearing a slot is exact; a slot left behind keeps the entries it should have given up. */
  lemma AdvanceSlots(g: Ledger, height: nat, i: nat, b: nat)
    requires ValidLedger(g, |g.counters.overflow|) && height > g.best
    requires i < |g.counters.ring| && b < |g.counters.overflow|
    ensures ValidLedger(Advance(g, height), |g.counters.overflow|)
    ensures SlotExcess(Advance(g, height), i, b) ==
      if i == height % |g.counters.ring| then 0
      else SlotExcess(g, i, b) + Count(g.tracked, Aging(b, i, |g.counters.ring|, g.best, height))
  {
    var n := |g.counters.ring|;
    if i == height % n {
      forall id | id in g.tracked ensures !InSlot(b, i, n, height)(g.tracked[id]) {
        if g.tracked[id].entryHeight % n == height % n {
          CongruentApart(g.tracked[id].entryHeight, height, n);
        }
      }
      assert Members(g.tracked, InSlot(b, i, n, height)) == {};
    } else {
      CountSplit(g.tracked, InSlot(b, i, n, height), Aging(b, i, n, g.best, height), InSlot(b, i, n, g.best));
    }
  }

  lemma AdvanceOld(g: Ledger, height: nat, b: nat)
    requires ValidLedger(g, |g.counters.overflow|) && height > g.best && b < |g.counters.overflow|
    requires var i := height % |g.counters.ring|;
      I32_MIN <= g.counters.overflow[b] + g.counters.ring[i][b] <= I32_MAX
    ensures var i, n := height % |g.counters.ring|, |g.counters.ring|;
      && OldExcess(Advance(g, height), b)
         == OldExcess(g, b) + g.counters.ring[i][b]
            - (Count(g.tracked, Aged(b, n, height)) - Count(g.tracked, Aged(b, n, g.best)))
      && Count(g.tracked, Aged(b, n, height)) >= Count(g.tracked, Aged(b, n, g.best))
  {
    CountBelow(g.tracked, Aged(b, |g.counters.ring|, g.best), Aged(b, |g.counters.ring|, height));
  }

  // ----- Exact agreement -----

  /** Every counter equals the number of tracked transactions it stands for. */
  ghost predicate Agrees(g: Ledger, buckets: nat)
    requires Shaped(g.counters, buckets)
  {
    (forall b :: 0 <= b < buckets ==> OldExcess(g, b) == 0)
    && forall i, b :: 0 <= i < |g.counters.ring| && 0 <= b < buckets ==> SlotExcess(g, i, b) == 0
  }

  /** Every tracked transaction that outgrows the ring at `height` is in the slot the block clears. */
  predicate NoneSkipped(tracked: map<Txid, Tracked>, size: nat, best: nat, height: nat)
    requires size > 0
  {
    forall id | id in tracked ::
      best < tracked[id].entryHeight + size <= height ==> tracked[id].entryHeight % size == height % size
  }

  lemma NextBlockSkipsNothing(tracked: map<Txid, Tracked>, size: nat, best: nat)
    requires size > 0
    ensures NoneSkipped(tracked, size, best, best + 1)
  {
    forall id | id in tracked && best < tracked[id].entryHeight + size <= best + 1
      ensures tracked[id].entryHeight % size == (best + 1) % size
    {
      var x := tracked[id].entryHeight;
      ModOfSum(x, size);
      assert best + 1 == x + size;
    }
  }

  /** Agreement bounds every counter by the number of tracked transactions. */
  lemma AgreesBounds(g: Ledger, buckets: nat, b: nat, i: nat)
    requires ValidLedger(g, buckets) && Agrees(g, buckets) && b < buckets && i < |g.counters.ring|
    ensures 0 <= g.counters.overflow[b] && 0 <= g.counters.ring[i][b]
    ensures g.counters.overflow[b] + g.counters.ring[i][b] <= |g.tracked|
  {
    var n := |g.counters.ring|;
    var both := (t: Tracked) => Aged(b, n, g.best)(t) || InSlot(b, i, n, g.best)(t);
    CountSplit(g.tracked, Aged(b, n, g.best), InSlot(b, i, n, g.best), both);
    CountAll(g.tracked, both);
    assert OldExcess(g, b) == 0 && SlotExcess(g, i, b) == 0;
  }

  /** A block keeps agreement exactly when it skips no ageing transaction. */
  lemma AdvanceAgreesIff(g: Ledger, height: nat, buckets: nat)
    requires ValidLedger(g, buckets) && Agrees(g, buckets) && height > g.best && |g.tracked| <= I32_MAX
    ensures ValidLedger(Advance(g, height), buckets)
    ensures Agrees(Advance(g, height), buckets)
      <==> NoneSkipped(g.tracked, |g.counters.ring|, g.best, height)
  {
    hide SlotExcess, OldExcess, Cleared;
    var g', n := Advance(g, height), |g.counters.ring|;
    if NoneSkipped(g.tracked, n, g.best, height) {
      forall b | 0 <= b < buckets ensures OldExcess(g', b) == 0 {
        AdvanceOldExactly(g, height, buckets, b);
      }
      forall i, b | 0 <= i < n && 0 <= b < buckets ensures SlotExcess(g', i, b) == 0 {
        AdvanceSlotExactly(g, height, buckets, b, i);
      }
    } else {
      var id :| id in g.tracked && g.best < g.tracked[id].entryHeight + n <= height
                && g.tracked[id].entryHeight % n != height % n;
      AdvanceLeavesBehind(g, height, buckets, id);
      assert SlotExcess(g', g.tracked[id].entryHeight % n, g.tracked[id].bucket) > 0;
    }
  }

  lemma AdvanceLeavesBehind(g: Ledger, height: nat, buckets: nat, id: Txid)
    requires ValidLedger(g, buckets) && Agrees(g, buckets) && height > g.best && id in g.tracked
    requires g.best < g.tracked[id].entryHeight + |g.counters.ring| <= height
    requires g.tracked[id].entryHeight % |g.counters.ring| != height % |g.counters.ring|
    ensures ValidLedger(Advance(g, height), buckets)
    ensures SlotExcess(Advance(g, height), g.tracked[id].entryHeight % |g.counters.ring|, g.tracked[id].bucket) > 0
  {
    var n := |g.counters.ring|;
    var b, i := g.tracked[id].bucket, g.tracked[id].entryHeight % n;
    assert SlotExcess(g, i, b) == 0;
    AdvanceSlots(g, height, i, b);
    assert id in Members(g.tracked, Aging(b, i, n, g.best, height));
  }

  lemma AdvanceSlotExactly(g: Ledger, height: nat, buckets: nat, b: nat, i: nat)
    requires ValidLedger(g, buckets) && Agrees(g, buckets) && height > g.best
    requires NoneSkipped(g.tracked, |g.counters.ring|, g.best, height) && b < buckets && i < |g.counters.ring|
    ensures ValidLedger(Advance(g, height), buckets)
    ensures SlotExcess(Advance(g, height), i, b) == 0
  {
    var n := |g.counters.ring|;
    assert SlotExcess(g, i, b) == 0;
    AdvanceSlots(g, height, i, b);
    if i != height % n {
      assert Members(g.tracked, Aging(b, i, n, g.best, height)) == {};
    }
  }

  lemma AdvanceOldExactly(g: Ledger, height: nat, buckets: nat, b: nat)
    requires ValidLedger(g, buckets) && Agrees(g, buckets) && height > g.best && |g.tracked| <= I32_MAX
    requires NoneSkipped(g.tracked, |g.counters.ring|, g.best, height) && b < buckets
    ensures ValidLedger(Advance(g, height), buckets)
    ensures OldExcess(Advance(g, height), b) == 0
  {
    hide Count;
    var n := |g.counters.ring|;
    var slot := height % n;
    AgreesBounds(g, buckets, b, slot);
    AdvanceOld(g, height, b);
    forall id | id in g.tracked
      ensures Aged(b, n, height)(g.tracked[id])
        <==> Aged(b, n, g.best)(g.tracked[id]) || InSlot(b, slot, n, g.best)(g.tracked[id])
    {
      if g.tracked[id].entryHeight % n == slot {
        CongruentApart(g.tracked[id].entryHeight, height, n);
      }
    }
    CountSplit(g.tracked, Aged(b, n, g.best), InSlot(b, slot, n, g.best), Aged(b, n, height));
    assert SlotExcess(g, slot, b) == 0 && OldExcess(g, b) == 0;
  }
}
