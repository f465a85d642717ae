/** The batched subscription path against the serial one: which requests each
    processes and which subscriptions it leaves behind. */
module ElectrumPaths {
  import opened Bits
  import opened ElectrumSession
  import opened ElectrumOutput

  /** A batch stops at one place only. */
  lemma StopsAtUnique(replies: seq<Reply>, r: Renderer, k: nat, k': nat)
    requires StopsAt(replies, r, k) && StopsAt(replies, r, k')
    ensures k == k'
  {
    hide Halts;
  }

  /** Once over the limit, always over it. */
  lemma OverStays(replies: seq<Reply>, j: nat, k: nat, r: Renderer)
    requires j <= k <= |replies| && Over(replies[..j], r)
    ensures Over(replies[..k], r)
  {
    hide Separated;
    assert replies[..k][..j] == replies[..j];
    LinesPrefix(replies[..k], j, r.render);
    var few, all := Lines(replies[..j], r.render), Lines(replies[..k], r.render);
    PrefixShorter(all, |few|);
    assert all[..|few|] == few;
  }

  /** For a batch of subscriptions the serial path processes what the batched one
      does exactly when all replies but the last fit the limit. */
  lemma SameRequestsIff(node: Node, batch: seq<Json>, c: Connection, r: Renderer, k: nat)
    requires Batchable(node, batch, c) && StopsAt(Serial(node, batch, c).replies, r, k)
    ensures k == |batch| <==> forall j :: 0 <= j < |batch| ==> !Over(Serial(node, batch, c).replies[..j], r)
    ensures k == |batch| <==> batch == [] || !Over(Serial(node, batch, c).replies[..|batch| - 1], r)
  {
    hide Serial, Over, AsSubscription;
    var all := Serial(node, batch, c).replies;
    FastIsNeverFatal(node, batch, c);
    NothingIsNotOver(all, r);
    if k == |batch| {
      forall j | 0 <= j < |batch| ensures !Over(all[..j], r) {
        assert !Halts(all, r, j);
      }
    } else {
      assert Over(all[..k], r);
      OverStays(all, k, |batch| - 1, r);
    }
  }

  lemma NothingIsNotOver(replies: seq<Reply>, r: Renderer)
    ensures !Over(replies[..0], r)
  {
  }

  // ----- The subscriptions left behind -----

  /** A subscription whose status is available is stored with that status. */
  ghost predicate Stored(node: Node, request: Json, subs: Subscriptions) {
    var asked := AsSubscription(node, request);
    asked.Some? ==>
      var hash := asked.value.1; var status := node.status(hash); var key := "scripthash:" + hash;
      status.Ok? ==> key in subs && subs[key] == Scripthash(hash, status.value)
  }

  lemma SameKeySameHash(a: string, b: string)
    requires "scripthash:" + a == "scripthash:" + b
    ensures a == b
  {
    assert ("scripthash:" + a)[11..] == a && ("scripthash:" + b)[11..] == b;
  }

  /** A subscription stores itself, keeps what is stored, and changes nothing exactly when it was stored. */
  lemma OneSubscription(node: Node, request: Json, c: Connection)
    requires c.session.seen && c.session.negotiated && AsSubscription(node, request).Some?
    ensures var after := Process(node, request, c).after;
      && after == c.(subs := after.subs)
      && Stored(node, request, after.subs)
      && (after == c <==> Stored(node, request, c.subs))
      && forall other: Json :: Stored(node, other, c.subs) ==> Stored(node, other, after.subs)
  {
    hide Process, AsSubscription;
    ProcessSubscription(node, request, c);
    var hash := AsSubscription(node, request).value.1;
    var after := Process(node, request, c).after;
    forall other: Json | Stored(node, other, c.subs) ensures Stored(node, other, after.subs) {
      var asked := AsSubscription(node, other);
      if asked.Some? && "scripthash:" + asked.value.1 == "scripthash:" + hash {
        SameKeySameHash(asked.value.1, hash);
      }
    }
  }

  /** All requests of a batch are stored by its end, and what was stored stays. */
  lemma {:induction false} AllStored(node: Node, batch: seq<Json>, c: Connection, k: nat)
    requires Batchable(node, batch, c) && k <= |batch|
    ensures var end := Serial(node, batch, c).after;
      && end == c.(subs := end.subs)
      && (forall i :: 0 <= i < |batch| ==> Stored(node, batch[i], end.subs))
      && ((forall i :: k <= i < |batch| ==> Stored(node, batch[i], Serial(node, batch[..k], c).after.subs))
          ==> end == Serial(node, batch[..k], c).after)
  {
    hide Process, AsSubscription, Stored;
    if k == |batch| {
      assert batch[..k] == batch;
    }
    if batch != [] {
      var rest, last := batch[..|batch| - 1], batch[|batch| - 1];
      AllStored(node, rest, c, if k == |batch| then k - 1 else k);
      OneSubscription(node, last, Serial(node, rest, c).after);
      forall i | 0 <= i < |batch| ensures Stored(node, batch[i], Serial(node, batch, c).after.subs) {
        if i < |rest| {
          assert batch[i] == rest[i];
        }
      }
      if k < |batch| {
        assert rest[..k] == batch[..k];
      }
    }
  }

  /** The serial path leaves the connection of the batched one exactly when every
      request behind the place it stops at was stored before. */
  lemma SameConnectionIff(node: Node, batch: seq<Json>, c: Connection, r: Renderer, k: nat)
    requires Batchable(node, batch, c) && StopsAt(Serial(node, batch, c).replies, r, k)
    ensures var stopped := Serial(node, batch[..k], c).after;
      stopped == Serial(node, batch, c).after
      <==> forall i :: k <= i < |batch| ==> Stored(node, batch[i], stopped.subs)
  {
    hide Serial, AsSubscription, Stored, Halts;
    AllStored(node, batch, c, k);
  }

  // ----- A batch on which the paths part -----

  function Subscribe(id: int, hash: string): Json {
    Obj(map["id" := Num(id), "method" := Str(SUBSCRIBE_METHOD), "params" := Arr([Str(hash)])])
  }

  function Repeated(digit: char): string { seq(64, _ => digit) }

  lemma SubscribeIsSubscription(node: Node, id: int, digit: char)
    requires '0' <= digit <= '9'
    ensures AsSubscription(node, Subscribe(id, Repeated(digit))) == Some((Some(Num(id)), Repeated(digit)))
  {
    var hash := Repeated(digit);
    var request := Subscribe(id, hash);
    assert AsCall(request) == Some(Call(SUBSCRIBE_METHOD, Some(Num(id)), Arr([Str(hash)])));
    NamesDiffer();
    assert Normalize(node, SUBSCRIBE_METHOD, Arr([Str(hash)])) == Ok(Arr([Str(hash)]));
    assert LowerHex(hash) == hash;
  }

  /** A node on which no script has a history. */
  function QuietNode(): Node {
    Node(_ => Ok(Null), _ => None, _ => "1.4", _ => None, _ => None, (_, _, _, subs) => (Ok(Null), subs))
  }

  const NEGOTIATED := Connection(Session(MIN_VERSION, true, true), map[], false, false)

  /** Every response has the greatest size a response may have by itself. */
  function LargeResponses(): Renderer {
    Renderer(_ => seq(MAX_RESPONSE_SIZE - 1, _ => 0x20), [OPEN, CLOSE], [OPEN, CLOSE])
  }

  lemma FirstIsOver(replies: seq<Reply>)
    requires replies != [] && replies[0].Answer?
    ensures Over(replies[..1], LargeResponses())
  {
    var r := LargeResponses();
    LinesStep(replies, 0, r.render);
    assert Lines(replies[..0], r.render) == [];
    assert Lines(replies[..1], r.render) == [r.render(replies[0].response)];
  }

  /** Two subscriptions with large responses: the serial path stops after the
      first, so the second is stored by the batched path only. */
  lemma PathsPart()
    ensures var node, first, second := QuietNode(), Repeated('1'), Repeated('2');
      var batch := [Subscribe(1, first), Subscribe(2, second)];
      var all := Serial(node, batch, NEGOTIATED);
      && Batchable(node, batch, NEGOTIATED)
      && StopsAt(all.replies, LargeResponses(), 1)
      && "scripthash:" + second in all.after.subs
      && "scripthash:" + second !in Serial(node, batch[..1], NEGOTIATED).after.subs
  {
    hide Process, AsSubscription, Over, Repeated, LargeResponses, Subscribe;
    var node, first, second, c := QuietNode(), Repeated('1'), Repeated('2'), NEGOTIATED;
    var batch := [Subscribe(1, first), Subscribe(2, second)];
    SubscribeIsSubscription(node, 1, '1');
    SubscribeIsSubscription(node, 2, '2');
    assert batch[..0] == [] && batch[..2] == batch;
    SerialStep(node, batch, c, 0);
    SerialStep(node, batch, c, 1);
    var c1 := Process(node, batch[0], c).after;
    ProcessSubscription(node, batch[0], c);
    ProcessSubscription(node, batch[1], c1);
    FirstIsOver(Serial(node, batch, c).replies);
    DigitsDiffer();
    if "scripthash:" + second == "scripthash:" + first {
      SameKeySameHash(second, first);
    }
  }

  lemma DigitsDiffer()
    ensures Repeated('1') != Repeated('2')
  {
    assert Repeated('1')[0] != Repeated('2')[0];
  }
}
