/** The fee estimator's bucket search, stated without accumulators: buckets are
    cut greedily from the top into stretches just long enough to hold enough
    transactions, and a group is as few stretches as meet the success threshold. */
module FeeSearch {
  import opened Bits

  /** What one bucket contributes: confirmed in time, confirmed at all, left unconfirmed, still waiting. */
  datatype Cell = Cell(within: real, total: real, left: real, waiting: real)

  datatype Rules = Rules(enough: real, threshold: real)

  /** The buckets from `lo` up to `hi`, exclusive. */
  datatype Span = Span(lo: nat, hi: nat)

  const NOTHING := Cell(0.0, 0.0, 0.0, 0.0)

  function Plus(a: Cell, b: Cell): Cell {
    Cell(a.within + b.within, a.total + b.total, a.left + b.left, a.waiting + b.waiting)
  }

  function Sum(cells: seq<Cell>, lo: nat, hi: nat): Cell
    requires lo <= hi <= |cells|
    decreases hi - lo
  {
    if lo == hi then NOTHING else Plus(cells[lo], Sum(cells, lo + 1, hi))
  }

  /** The share confirmed in time. */
  function Rate(c: Cell): real {
    var all := c.total + c.left + c.waiting;
    if all > 0.0 then c.within / all else 0.0
  }

  predicate Passes(c: Cell, rules: Rules) { Rate(c) >= rules.threshold }

  /** The threshold is met when the transactions confirmed in time are at least that
      share of those confirmed, failed and still waiting. */
  lemma PassesIff(c: Cell, rules: Rules)
    ensures var all := c.total + c.left + c.waiting;
      Passes(c, rules) <==> if all > 0.0 then c.within >= rules.threshold * all else rules.threshold <= 0.0
  {
    var all := c.total + c.left + c.waiting;
    if all > 0.0 {
      QuotientAtLeast(c.within, all, rules.threshold);
    }
  }

  lemma QuotientAtLeast(x: real, y: real, k: real)
    requires y > 0.0
    ensures x / y >= k <==> x >= k * y
  {
    var q := x / y;
    assert q * y == x;
    if q >= k {
      assert (q - k) * y >= 0.0;
    } else {
      assert (k - q) * y > 0.0;
    }
  }

  // ----- The greedy grouping -----

  /** The first place at or below `from` from which the buckets up to `mark` hold enough transactions. */
  function NextCheck(cells: seq<Cell>, rules: Rules, from: nat, mark: nat): (r: Option<nat>)
    requires from <= mark <= |cells|
    ensures r.Some? ==> r.value < from && Sum(cells, r.value, mark).total >= rules.enough
    ensures forall p :: (if r.Some? then r.value + 1 else 0) <= p < from ==> Sum(cells, p, mark).total < rules.enough
    decreases from
  {
    if from == 0 then None
    else if Sum(cells, from - 1, mark).total >= rules.enough then Some(from - 1)
    else NextCheck(cells, rules, from - 1, mark)
  }

  /** The bottom of the group whose top is `hi` and whose last check was at `mark`. */
  function GroupBottom(cells: seq<Cell>, rules: Rules, mark: nat, hi: nat): (r: Option<nat>)
    requires mark <= hi <= |cells|
    ensures r.Some? ==> r.value < mark && Passes(Sum(cells, r.value, hi), rules)
    decreases mark
  {
    match NextCheck(cells, rules, mark, mark)
    case None => None
    case Some(p) => if Passes(Sum(cells, p, hi), rules) then Some(p) else GroupBottom(cells, rules, p, hi)
  }

  function OrElse(a: Option<Span>, b: Option<Span>): Option<Span> { if a.Some? then a else b }

  /** The lowest group below `hi`. */
  function LastGroup(cells: seq<Cell>, rules: Rules, hi: nat): (r: Option<Span>)
    requires hi <= |cells|
    ensures r.Some? ==> r.value.lo < r.value.hi <= hi
    decreases hi
  {
    match GroupBottom(cells, rules, hi, hi)
    case None => None
    case Some(p) => OrElse(LastGroup(cells, rules, p), Some(Span(p, hi)))
  }

  /** Below the last group, at `q`: the stretch up to the first failed check, or all that is left. */
  function FailSpan(cells: seq<Cell>, rules: Rules, q: nat): (r: Option<Span>)
    requires q <= |cells|
    ensures r.Some? ==> r.value.lo < r.value.hi == q
    ensures r.None? <==> q == 0
  {
    if q == 0 then None
    else match NextCheck(cells, rules, q, q)
      case None => Some(Span(0, q))
      case Some(p) => Some(Span(p, q))
  }

  /** What is still to come when the group with top `hi` has been checked down to `mark`. */
  function Pending(cells: seq<Cell>, rules: Rules, mark: nat, hi: nat): Option<Span>
    requires mark <= hi <= |cells|
  {
    match GroupBottom(cells, rules, mark, hi)
    case None => None
    case Some(p) => OrElse(LastGroup(cells, rules, p), Some(Span(p, hi)))
  }

  // ----- Scanning downwards -----

  /** The buckets from `k` up have been scanned: `best` is the last complete
      group, `hi` the top of the current one, `mark` its last check. */
  ghost predicate Scanned(cells: seq<Cell>, rules: Rules, k: nat, mark: nat, hi: nat, best: Option<Span>) {
    && k <= mark <= hi <= |cells|
    && hi == (if best.Some? then best.value.lo else |cells|)
    && (best.Some? ==> best.value.lo < best.value.hi <= |cells|)
    && LastGroup(cells, rules, |cells|) == OrElse(Pending(cells, rules, mark, hi), best)
    && NextCheck(cells, rules, mark, mark) == NextCheck(cells, rules, k, mark)
  }

  lemma ScanTooFew(cells: seq<Cell>, rules: Rules, k: nat, mark: nat, hi: nat, best: Option<Span>)
    requires Scanned(cells, rules, k, mark, hi, best) && k > 0
    requires Sum(cells, k - 1, mark).total < rules.enough
    ensures Scanned(cells, rules, k - 1, mark, hi, best)
  {
  }

  lemma ScanFails(cells: seq<Cell>, rules: Rules, k: nat, mark: nat, hi: nat, best: Option<Span>)
    requires Scanned(cells, rules, k, mark, hi, best) && k > 0
    requires Sum(cells, k - 1, mark).total >= rules.enough && !Passes(Sum(cells, k - 1, hi), rules)
    ensures Scanned(cells, rules, k - 1, k - 1, hi, best)
    ensures NextCheck(cells, rules, mark, mark) == Some(k - 1)
  {
  }

  lemma ScanPasses(cells: seq<Cell>, rules: Rules, k: nat, mark: nat, hi: nat, best: Option<Span>)
    requires Scanned(cells, rules, k, mark, hi, best) && k > 0
    requires Sum(cells, k - 1, mark).total >= rules.enough && Passes(Sum(cells, k - 1, hi), rules)
    ensures Scanned(cells, rules, k - 1, k - 1, k - 1, Some(Span(k - 1, hi)))
  {
  }

  lemma ScanEnds(cells: seq<Cell>, rules: Rules, mark: nat, hi: nat, best: Option<Span>)
    requires Scanned(cells, rules, 0, mark, hi, best)
    ensures LastGroup(cells, rules, |cells|) == best && NextCheck(cells, rules, mark, mark) == None
  {
  }

  // ----- What the grouping achieves -----

  /** The group boundaries from `hi` down. */
  ghost function Cuts(cells: seq<Cell>, rules: Rules, hi: nat): (r: seq<nat>)
    requires hi <= |cells|
    ensures |r| > 0 && r[0] == hi
    decreases hi
  {
    match GroupBottom(cells, rules, hi, hi)
    case None => [hi]
    case Some(p) => [hi] + Cuts(cells, rules, p)
  }

  ghost predicate NonNegative(cells: seq<Cell>) {
    forall i :: 0 <= i < |cells| ==> cells[i].total >= 0.0
  }

  /** A complete group: enough transactions, and enough of them in time. */
  ghost predicate Group(cells: seq<Cell>, rules: Rules, lo: nat, hi: nat) {
    lo < hi <= |cells| && Sum(cells, lo, hi).total >= rules.enough && Passes(Sum(cells, lo, hi), rules)
  }

  lemma {:induction false} SumConcat(cells: seq<Cell>, lo: nat, mid: nat, hi: nat)
    requires lo <= mid <= hi <= |cells|
    ensures Sum(cells, lo, hi) == Plus(Sum(cells, lo, mid), Sum(cells, mid, hi))
    decreases mid - lo
  {
    if lo < mid {
      SumConcat(cells, lo + 1, mid, hi);
    }
  }

  lemma {:induction false} SumNonNegative(cells: seq<Cell>, lo: nat, hi: nat)
    requires lo <= hi <= |cells| && NonNegative(cells)
    ensures Sum(cells, lo, hi).total >= 0.0
    decreases hi - lo
  {
    if lo < hi {
      SumNonNegative(cells, lo + 1, hi);
    }
  }

  /** Where the search checks the threshold, from `mark` down: every check is as
      soon below the one before as there are enough transactions between them. */
  ghost function Checks(cells: seq<Cell>, rules: Rules, mark: nat): (r: seq<nat>)
    requires mark <= |cells|
    ensures forall i :: 0 <= i < |r| ==> r[i] < mark
    decreases mark
  {
    match NextCheck(cells, rules, mark, mark)
    case None => []
    case Some(p) => [p] + Checks(cells, rules, p)
  }

  /** Enough transactions from `lo` up to `hi`, and from no higher place. */
  ghost predicate JustEnough(cells: seq<Cell>, rules: Rules, lo: nat, hi: nat) {
    lo < hi <= |cells| && Sum(cells, lo, hi).total >= rules.enough
    && forall p :: lo < p < hi ==> Sum(cells, p, hi).total < rules.enough
  }

  /** Consecutive checks are just far enough apart, and below the last one there are never enough. */
  lemma {:induction false} ChecksAreTight(cells: seq<Cell>, rules: Rules, mark: nat)
    requires mark <= |cells|
    ensures var r := [mark] + Checks(cells, rules, mark); var last := r[|r| - 1];
      && (forall i :: 0 <= i < |r| - 1 ==> JustEnough(cells, rules, r[i + 1], r[i]))
      && last <= mark && forall p :: 0 <= p < last ==> Sum(cells, p, last).total < rules.enough
    decreases mark
  {
    var next := NextCheck(cells, rules, mark, mark);
    if next.Some? {
      ChecksAreTight(cells, rules, next.value);
      var r, rest := [mark] + Checks(cells, rules, mark), [next.value] + Checks(cells, rules, next.value);
      assert r[1..] == rest;
      assert JustEnough(cells, rules, next.value, mark);
      forall i | 0 <= i < |r| - 1 ensures JustEnough(cells, rules, r[i + 1], r[i]) {
        if i > 0 {
          assert JustEnough(cells, rules, rest[i], rest[i - 1]);
        }
      }
    }
  }

  /** No check above `lo` meets the threshold for the group with top `hi`. */
  ghost predicate FailsAbove(cells: seq<Cell>, rules: Rules, mark: nat, hi: nat, lo: int)
    requires mark <= hi <= |cells|
  {
    forall p: nat :: p in Checks(cells, rules, mark) && p > lo ==> !Passes(Sum(cells, p, hi), rules)
  }

  /** A group ends at the first check that meets the threshold; without a group none does. */
  lemma {:induction false} GroupBottomIsFirst(cells: seq<Cell>, rules: Rules, mark: nat, hi: nat)
    requires mark <= hi <= |cells|
    ensures var r := GroupBottom(cells, rules, mark, hi);
      && (r.Some? ==> r.value in Checks(cells, rules, mark) && FailsAbove(cells, rules, mark, hi, r.value))
      && (r.None? <==> FailsAbove(cells, rules, mark, hi, -1))
    decreases mark
  {
    hide Passes;
    var next := NextCheck(cells, rules, mark, mark);
    if next.Some? {
      var p := next.value;
      assert Checks(cells, rules, mark) == [p] + Checks(cells, rules, p);
      assert p in Checks(cells, rules, mark);
      if !Passes(Sum(cells, p, hi), rules) {
        GroupBottomIsFirst(cells, rules, p, hi);
        assert forall q :: q in Checks(cells, rules, mark) <==> q == p || q in Checks(cells, rules, p);
      }
    }
  }

  lemma {:induction false} GroupBottomIsGroup(cells: seq<Cell>, rules: Rules, mark: nat, hi: nat)
    requires mark <= hi <= |cells| && NonNegative(cells)
    ensures var r := GroupBottom(cells, rules, mark, hi); r.Some? ==> Group(cells, rules, r.value, hi)
    decreases mark
  {
    var next := NextCheck(cells, rules, mark, mark);
    if next.Some? {
      SumConcat(cells, next.value, mark, hi);
      SumNonNegative(cells, mark, hi);
      if !Passes(Sum(cells, next.value, hi), rules) {
        GroupBottomIsGroup(cells, rules, next.value, hi);
      }
    }
  }

  /** Of the checks from `hi` down, `lo` is the first that meets the threshold. */
  ghost predicate FirstToPass(cells: seq<Cell>, rules: Rules, lo: nat, hi: nat) {
    hi <= |cells| && lo in Checks(cells, rules, hi) && FailsAbove(cells, rules, hi, hi, lo)
  }

  /** The groups tile the buckets from the top down to the last group's bottom,
      every one is complete and met the threshold at no check before, and below the
      last cut no check meets it. */
  lemma {:induction false} CutsTile(cells: seq<Cell>, rules: Rules, hi: nat)
    requires hi <= |cells| && NonNegative(cells)
    ensures var c := Cuts(cells, rules, hi); var last := |c| - 1;
      && (forall i :: 0 <= i < last ==> Group(cells, rules, c[i + 1], c[i]))
      && (forall i :: 0 <= i < last ==> FirstToPass(cells, rules, c[i + 1], c[i]))
      && c[last] <= hi
      && FailsAbove(cells, rules, c[last], c[last], -1)
      && GroupBottom(cells, rules, c[last], c[last]).None?
      && LastGroup(cells, rules, hi) == (if last == 0 then None else Some(Span(c[last], c[last - 1])))
    decreases hi
  {
    hide Passes, FailsAbove, Group, Checks, NextCheck;
    var bottom := GroupBottom(cells, rules, hi, hi);
    GroupBottomIsFirst(cells, rules, hi, hi);
    if bottom.Some? {
      var p := bottom.value;
      GroupBottomIsGroup(cells, rules, hi, hi);
      CutsTile(cells, rules, p);
      var c, d := Cuts(cells, rules, hi), Cuts(cells, rules, p);
      assert c[1..] == d;
      forall i | 0 <= i < |c| - 1
        ensures Group(cells, rules, c[i + 1], c[i]) && FirstToPass(cells, rules, c[i + 1], c[i])
      {
        if i > 0 {
          assert Group(cells, rules, d[i], d[i - 1]) && FirstToPass(cells, rules, d[i], d[i - 1]);
        }
      }
    }
  }

  lemma SumLast(cells: seq<Cell>, lo: nat, k: nat)
    requires lo <= k < |cells|
    ensures Sum(cells, lo, k + 1) == Plus(Sum(cells, lo, k), cells[k])
  {
    SumConcat(cells, lo, k, k + 1);
  }

  /** The group that is returned is complete. */
  lemma LastGroupIsGroup(cells: seq<Cell>, rules: Rules, hi: nat)
    requires hi <= |cells| && NonNegative(cells)
    ensures var g := LastGroup(cells, rules, hi); g.Some? ==> Group(cells, rules, g.value.lo, g.value.hi)
  {
    CutsTile(cells, rules, hi);
    var c := Cuts(cells, rules, hi);
    if |c| > 1 {
      assert Group(cells, rules, c[|c| - 2 + 1], c[|c| - 2]);
    }
  }

  // ----- The weighted median -----

  /** The first bucket at which half of the span's transactions are reached. */
  ghost predicate IsMedian(cells: seq<Cell>, span: Span, m: nat)
    requires span.lo < span.hi <= |cells|
  {
    var half := Sum(cells, span.lo, span.hi).total / 2.0;
    span.lo <= m < span.hi
    && Sum(cells, span.lo, m + 1).total >= half
    && forall j :: span.lo < j <= m ==> Sum(cells, span.lo, j).total < half
  }

  /** At most half of the transactions are below the median bucket and at most half above it. */
  lemma MedianBalances(cells: seq<Cell>, span: Span, m: nat)
    requires span.lo < span.hi <= |cells| && IsMedian(cells, span, m) && Sum(cells, span.lo, span.hi).total >= 0.0
    ensures var total := Sum(cells, span.lo, span.hi).total;
      2.0 * Sum(cells, span.lo, m).total <= total && 2.0 * Sum(cells, m + 1, span.hi).total <= total
  {
    SumConcat(cells, span.lo, m + 1, span.hi);
  }
}
