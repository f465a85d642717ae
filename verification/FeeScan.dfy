/** The estimator's scan over ring slots for transactions that have waited at
    least `target` blocks, against a plain count of the tracked map. */
module FeeScan {
  import opened Arithmetic
  import opened FeeRing
  import L = FeeLedger

  /** The slots of ages `age`, `age + 1`, ... up to the ring size, added up. */
  function Scan(c: Counters, best: nat, age: nat, b: nat): int
    requires Shaped(c, |c.overflow|) && b < |c.overflow| && age <= |c.ring|
    decreases |c.ring| - age
  {
    if age == |c.ring| then 0
    else c.ring[SaturatingSub(best, age) % |c.ring|][b] + Scan(c, best, age + 1, b)
  }

  ghost function EnteredAt(b: nat, height: nat): Tracked -> bool {
    (t: Tracked) => t.bucket == b && t.entryHeight == height
  }

  /** How often the scan reads slot zero because the height underflows. */
  function Underflows(size: nat, best: nat, age: nat): nat {
    var from := if age <= best then best + 1 else age;
    if from < size then size - from else 0
  }

  /** The slot of age `age` holds exactly the transactions of that age. */
  lemma SlotOfAge(g: Ledger, buckets: nat, age: nat, b: nat)
    requires ValidLedger(g, buckets) && Agrees(g, buckets)
    requires age < |g.counters.ring| && b < buckets && age <= g.best
    ensures g.counters.ring[(g.best - age) % |g.counters.ring|][b] == Count(g.tracked, EnteredAt(b, g.best - age))
  {
    var n, height := |g.counters.ring|, g.best - age;
    var i := height % n;
    assert SlotExcess(g, i, b) == 0;
    forall id | id in g.tracked
      ensures InSlot(b, i, n, g.best)(g.tracked[id]) <==> EnteredAt(b, height)(g.tracked[id])
    {
      var x := g.tracked[id].entryHeight;
      if x % n == i && x < height {
        CongruentApart(x, height, n);
      } else if x % n == i && height < x {
        CongruentApart(height, x, n);
      }
    }
    assert Members(g.tracked, InSlot(b, i, n, g.best)) == Members(g.tracked, EnteredAt(b, height));
  }

  /** Below the first full ring, slot zero holds the transactions of height zero. */
  lemma SlotZero(g: Ledger, buckets: nat, b: nat)
    requires ValidLedger(g, buckets) && Agrees(g, buckets) && b < buckets && g.best < |g.counters.ring|
    ensures g.counters.ring[0][b] == Count(g.tracked, EnteredAt(b, 0))
  {
    var n := |g.counters.ring|;
    assert SlotExcess(g, 0, b) == 0;
    hide Agrees, SlotExcess;
    forall id | id in g.tracked
      ensures InSlot(b, 0, n, g.best)(g.tracked[id]) <==> EnteredAt(b, 0)(g.tracked[id])
    {
      OnlyZeroIsCongruent(g.tracked[id].entryHeight, n);
    }
    assert Members(g.tracked, InSlot(b, 0, n, g.best)) == Members(g.tracked, EnteredAt(b, 0));
  }

  lemma OnlyZeroIsCongruent(x: nat, n: nat)
    requires n > 0
    ensures x < n ==> (x % n == 0 <==> x == 0)
  {
  }

  /** The scan counts every waiting transaction once, and those of height zero
      once more for each age beyond the chain's start. */
  lemma {:induction false} ScanCounts(g: Ledger, buckets: nat, age: nat, b: nat)
    requires ValidLedger(g, buckets) && Agrees(g, buckets) && age <= |g.counters.ring| && b < buckets
    ensures Scan(g.counters, g.best, age, b) + g.counters.overflow[b]
      == Count(g.tracked, Aged(b, age, g.best))
         + Times(Underflows(|g.counters.ring|, g.best, age), Count(g.tracked, EnteredAt(b, 0)))
    decreases |g.counters.ring| - age
  {
    hide Agrees, Count, Times, Aged, EnteredAt, SaturatingSub;
    var n := |g.counters.ring|;
    var zero := Count(g.tracked, EnteredAt(b, 0));
    if age == n {
      AgreesOld(g, buckets, b);
      assert Underflows(n, g.best, age) == 0;
      TimesSteps(0, zero);
    } else {
      ScanCounts(g, buckets, age + 1, b);
      if age <= g.best {
        ScanStep(g, buckets, age, b);
        assert Underflows(n, g.best, age) == Underflows(n, g.best, age + 1);
      } else {
        ScanPastStart(g, buckets, age, b);
        assert Underflows(n, g.best, age) == Underflows(n, g.best, age + 1) + 1;
        TimesSteps(Underflows(n, g.best, age + 1), zero);
      }
    }
  }

  lemma ScanStep(g: Ledger, buckets: nat, age: nat, b: nat)
    requires ValidLedger(g, buckets) && Agrees(g, buckets) && age < |g.counters.ring| && b < buckets && age <= g.best
    ensures g.counters.ring[SaturatingSub(g.best, age) % |g.counters.ring|][b]
      == Count(g.tracked, Aged(b, age, g.best)) - Count(g.tracked, Aged(b, age + 1, g.best))
  {
    hide Agrees, Count;
    SlotOfAge(g, buckets, age, b);
    CountSplit(g.tracked, Aged(b, age + 1, g.best), EnteredAt(b, g.best - age), Aged(b, age, g.best));
  }

  lemma ScanPastStart(g: Ledger, buckets: nat, age: nat, b: nat)
    requires ValidLedger(g, buckets) && Agrees(g, buckets) && g.best < age < |g.counters.ring| && b < buckets
    ensures g.counters.ring[SaturatingSub(g.best, age) % |g.counters.ring|][b] == Count(g.tracked, EnteredAt(b, 0))
    ensures Count(g.tracked, Aged(b, age, g.best)) == Count(g.tracked, Aged(b, age + 1, g.best))
  {
    hide Agrees, Count;
    SlotZero(g, buckets, b);
    NothingThatOld(g, b, age, buckets);
  }

  function Times(k: nat, x: nat): nat { k * x }

  lemma TimesSteps(k: nat, x: nat)
    ensures Times(k + 1, x) == Times(k, x) + x && Times(0, x) == 0
  {
  }

  lemma AgreesOld(g: Ledger, buckets: nat, b: nat)
    requires ValidLedger(g, buckets) && Agrees(g, buckets) && b < buckets
    ensures OldExcess(g, b) == 0
  {
  }

  lemma NothingThatOld(g: Ledger, b: nat, age: nat, buckets: nat)
    requires ValidLedger(g, buckets) && age > g.best
    ensures Count(g.tracked, Aged(b, age, g.best)) == Count(g.tracked, Aged(b, age + 1, g.best)) == 0
  {
    assert Members(g.tracked, Aged(b, age, g.best)) == {};
    assert Members(g.tracked, Aged(b, age + 1, g.best)) == {};
  }

  /** The scan is the plain count exactly when the chain has filled a ring, the
      target is the ring size, or nothing in the bucket entered at height zero. */
  lemma ScanIsCountIff(g: Ledger, buckets: nat, target: nat, b: nat)
    requires ValidLedger(g, buckets) && Agrees(g, buckets) && target <= |g.counters.ring| && b < buckets
    ensures Scan(g.counters, g.best, target, b) + g.counters.overflow[b] == Count(g.tracked, Aged(b, target, g.best))
      <==> g.best + 1 >= |g.counters.ring| || target == |g.counters.ring| || Count(g.tracked, EnteredAt(b, 0)) == 0
  {
    hide Agrees, Count, Scan;
    ScanCounts(g, buckets, target, b);
    var k, zero := Underflows(|g.counters.ring|, g.best, target), Count(g.tracked, EnteredAt(b, 0));
    assert k == 0 <==> g.best + 1 >= |g.counters.ring| || target == |g.counters.ring|;
    if k > 0 && zero > 0 {
      MulAtLeast(k, zero);
    }
  }

  /** A transaction that entered at height zero has not waited at all, and yet the
      scan for `target` blocks counts it once for every greater age. */
  lemma HeightZeroCountedAgain(size: nat, target: nat)
    requires 1 <= target <= size
    ensures var g := L.Run(L.Fresh(size, 1, 0), [L.Track(7, 0, 1.0, 0)], 1);
      && Scan(g.counters, g.best, target, 0) + g.counters.overflow[0] == size - target
      && Count(g.tracked, Aged(0, target, g.best)) == 0
  {
    hide Agrees, Scan, Count, Enter;
    var track, g0 := L.Track(7, 0, 1.0, 0), L.Fresh(size, 1, 0);
    var g := L.Step(g0, track, 1);
    assert [track][..0] == [] && L.Run(g0, [track], 1) == g;
    L.FreshIsExact(size, 1, 0);
    EnterIsTracked(g0, 7, Tracked(0, 0, 1.0));
    L.EventAgrees(g0, track, 1);
    ScanCounts(g, 1, target, 0);
    CountInsert(map[], 7, Tracked(0, 0, 1.0), EnteredAt(0, 0));
    CountInsert(map[], 7, Tracked(0, 0, 1.0), Aged(0, target, 0));
    NoneCounted(EnteredAt(0, 0));
    NoneCounted(Aged(0, target, 0));
  }

  lemma EnterIsTracked(g: Ledger, id: Txid, t: Tracked)
    requires Shaped(g.counters, |g.counters.overflow|) && t.bucket < |g.counters.overflow|
    ensures Enter(g, id, t).tracked == g.tracked[id := t] && Enter(g, id, t).best == g.best
  {
  }

  lemma NoneCounted(p: Tracked -> bool)
    ensures Count(map[], p) == 0
  {
    assert Members(map[], p) == {};
  }
}
