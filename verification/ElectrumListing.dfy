/** Lists of unspent outputs: their order, their sums and the size limit of a rendered list. */
module ElectrumListing {
  /** A transaction identifier, as the number its displayed form shows. */
  type Txid = nat

  datatype OutPoint = OutPoint(txid: Txid, vout: nat)

  /** Where in the chain a transaction is. */
  datatype Place = Place(height: nat, index: nat)

  datatype Located = Located(outpoint: OutPoint, place: Place, value: nat)

  // ----- Order -----

  /** By height, position in the block, transaction and output. */
  predicate Before(a: Located, b: Located) {
    if a.place.height != b.place.height then a.place.height < b.place.height
    else if a.place.index != b.place.index then a.place.index < b.place.index
    else if a.outpoint.txid != b.outpoint.txid then a.outpoint.txid < b.outpoint.txid
    else a.outpoint.vout < b.outpoint.vout
  }

  ghost predicate Sorted(items: seq<Located>) {
    forall i, j :: 0 <= i < j < |items| ==> Before(items[i], items[j])
  }

  ghost function OutPoints(items: seq<Located>): set<OutPoint> {
    set i | 0 <= i < |items| :: items[i].outpoint
  }

  ghost predicate Distinct(items: seq<Located>) {
    forall i, j :: 0 <= i < j < |items| ==> items[i].outpoint != items[j].outpoint
  }

  /** Sorted lists go up in height, then in block position, and a transaction's outputs in order. */
  lemma SortedIs(items: seq<Located>, i: nat, j: nat)
    requires Sorted(items) && i < j < |items|
    ensures items[i].place.height <= items[j].place.height
    ensures items[i].place.height == items[j].place.height ==> items[i].place.index <= items[j].place.index
    ensures items[i].place == items[j].place ==> items[i].outpoint.txid <= items[j].outpoint.txid
    ensures items[i].place == items[j].place && items[i].outpoint.txid == items[j].outpoint.txid ==>
      items[i].outpoint.vout < items[j].outpoint.vout
  {
    assert Before(items[i], items[j]);
  }

  lemma Trichotomy(a: Located, b: Located)
    requires a.outpoint != b.outpoint
    ensures Before(a, b) <==> !Before(b, a)
  {
  }

  lemma BeforeTransitive(a: Located, b: Located, c: Located)
    requires Before(a, b) && Before(b, c)
    ensures Before(a, c)
  {
  }

  /** One more output, at its place in the order. */
  method InsertSorted(items: seq<Located>, x: Located) returns (r: seq<Located>, ghost k: nat)
    requires Sorted(items) && Distinct(items) && x.outpoint !in OutPoints(items)
    ensures Sorted(r) && Distinct(r)
    ensures k <= |items| && r == items[..k] + [x] + items[k..]
  {
    hide Before;
    var i := 0;
    while i < |items| && Before(items[i], x)
      invariant i <= |items| && forall j :: 0 <= j < i ==> Before(items[j], x)
    {
      i := i + 1;
    }
    assert forall j :: 0 <= j < |items| ==> items[j].outpoint in OutPoints(items);
    forall j | i <= j < |items| ensures Before(x, items[j]) {
      Trichotomy(items[i], x);
      if j > i {
        BeforeTransitive(x, items[i], items[j]);
      }
    }
    return items[..i] + [x] + items[i..], i;
  }

  /** What a list with an output put in holds. */
  lemma Inserted(items: seq<Located>, x: Located, k: nat)
    requires k <= |items|
    ensures var r := items[..k] + [x] + items[k..];
      OutPoints(r) == OutPoints(items) + {x.outpoint} && forall e :: e in r <==> e == x || e in items
  {
    var r := items[..k] + [x] + items[k..];
    assert r[k] == x && forall i :: 0 <= i < |items| ==> items[i] == r[if i < k then i else i + 1];
  }

  // ----- Size -----

  /** What is told of an output; mempool outputs have height zero. */
  datatype Listed = Listed(outpoint: OutPoint, height: nat, value: nat)

  /** Brackets, entries and commas. */
  function PayloadSize(items: seq<Listed>, size: Listed -> nat): nat {
    if items == [] then 2
    else
      var rest := items[..|items| - 1];
      PayloadSize(rest, size) + size(items[|items| - 1]) + if rest == [] then 0 else 1
  }

  ghost function SizeSum(items: seq<Listed>, size: Listed -> nat): nat {
    if items == [] then 0 else size(items[0]) + SizeSum(items[1..], size)
  }

  lemma {:induction false} SizeSumLast(items: seq<Listed>, x: Listed, size: Listed -> nat)
    ensures SizeSum(items + [x], size) == SizeSum(items, size) + size(x)
  {
    if items == [] {
      assert items + [x] == [x];
    } else {
      SizeSumLast(items[1..], x, size);
      assert (items + [x])[1..] == items[1..] + [x];
    }
  }

  /** Two brackets, the entries, and a comma between neighbours. */
  lemma {:induction false} PayloadIs(items: seq<Listed>, size: Listed -> nat)
    requires items != []
    ensures PayloadSize(items, size) == 2 + SizeSum(items, size) + (|items| - 1)
  {
    var rest, last := items[..|items| - 1], items[|items| - 1];
    assert items == rest + [last];
    SizeSumLast(rest, last, size);
    if rest != [] {
      PayloadIs(rest, size);
    }
  }

  lemma {:induction false} PayloadGrows(items: seq<Listed>, k: nat, size: Listed -> nat)
    requires k <= |items|
    ensures PayloadSize(items[..k], size) <= PayloadSize(items, size)
    decreases |items|
  {
    if k == |items| {
      assert items[..k] == items;
    } else {
      PayloadGrows(items[..|items| - 1], k, size);
      assert items[..|items| - 1][..k] == items[..k];
    }
  }

  /** Whether the list fits; an empty one always does. */
  method FitsPayload(items: seq<Listed>, size: Listed -> nat, limit: nat) returns (ok: bool)
    ensures ok <==> items == [] || PayloadSize(items, size) <= limit
  {
    var payload, i := 2, 0;
    while i < |items|
      invariant i <= |items| && payload == PayloadSize(items[..i], size) && (i > 0 ==> payload <= limit)
    {
      assert items[..i + 1][..i] == items[..i];
      var next := payload + size(items[i]) + if i > 0 then 1 else 0;
      if next > limit {
        PayloadGrows(items, i + 1, size);
        return false;
      }
      payload := next;
      i := i + 1;
    }
    assert items[..i] == items;
    return true;
  }
}
