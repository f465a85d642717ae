/** Size-bounded output of Electrum batches. Rendering a response to bytes is a parameter. */
module ElectrumOutput {
  import opened Bits
  import opened ElectrumSession

  type Bytes = seq<byte>

  const MAX_RESPONSE_SIZE: nat := 2 * 4_000_000 + 64 * 1024
  const MAX_BATCH_REQUESTS: nat := 1024

  const OPEN: byte := 0x5b
  const CLOSE: byte := 0x5d
  const COMMA: byte := 0x2c

  // ----- Joining responses -----

  /** The responses separated by commas. */
  function Separated(responses: seq<Bytes>): Bytes {
    if responses == [] then []
    else if |responses| == 1 then responses[0]
    else Separated(responses[..|responses| - 1]) + [COMMA] + responses[|responses| - 1]
  }

  function Joined(responses: seq<Bytes>): Bytes { [OPEN] + Separated(responses) + [CLOSE] }

  /** The array and its newline fit the limit. */
  predicate FitsLimit(responses: seq<Bytes>) { |Joined(responses)| + 1 <= MAX_RESPONSE_SIZE }

  lemma {:induction false} PrefixShorter(responses: seq<Bytes>, k: nat)
    requires k <= |responses|
    ensures |Separated(responses[..k])| <= |Separated(responses)|
    decreases |responses|
  {
    if k == |responses| {
      assert responses[..k] == responses;
    } else {
      var rest := responses[..|responses| - 1];
      PrefixShorter(rest, k);
      assert rest[..k] == responses[..k];
    }
  }

  /** Where the `i`-th response starts: behind the bracket, the responses before it and a comma each. */
  ghost function Offset(responses: seq<Bytes>, i: nat): nat
    requires i <= |responses|
  {
    if i == 0 then 1 else Offset(responses, i - 1) + |responses[i - 1]| + 1
  }

  lemma {:induction false} OffsetPrefix(responses: seq<Bytes>, k: nat, i: nat)
    requires i <= k <= |responses|
    ensures Offset(responses[..k], i) == Offset(responses, i)
  {
    if i > 0 {
      OffsetPrefix(responses, k, i - 1);
    }
  }

  lemma {:induction false} OffsetIsLength(responses: seq<Bytes>)
    requires responses != []
    ensures |Separated(responses)| + 2 == Offset(responses, |responses|)
  {
    var n := |responses| - 1;
    if n > 0 {
      OffsetIsLength(responses[..n]);
      OffsetPrefix(responses, n, n);
    }
  }

  /** `w` stands in `s` at `pos`. */
  ghost predicate PartAt(s: Bytes, pos: nat, w: Bytes) {
    pos + |w| <= |s| && s[pos..pos + |w|] == w
  }

  lemma PartAtLonger(a: Bytes, b: Bytes, pos: nat, w: Bytes)
    requires PartAt(a, pos, w)
    ensures PartAt(a + b, pos, w)
  {
    assert (a + b)[pos..pos + |w|] == a[pos..pos + |w|];
  }

  lemma PartAtEnd(a: Bytes, w: Bytes)
    ensures PartAt(a + w, |a|, w)
  {
  }

  /** A response with the byte in front of it, before the closing bracket. */
  lemma {:induction false} ResponseAt(responses: seq<Bytes>, i: nat)
    requires i < |responses|
    ensures Offset(responses, i) > 0
    ensures PartAt([OPEN] + Separated(responses), Offset(responses, i) - 1,
                   [if i == 0 then OPEN else COMMA] + responses[i])
    decreases |responses|
  {
    hide PartAt;
    var n := |responses| - 1;
    var rest, last := responses[..n], responses[n];
    var part := [if i == 0 then OPEN else COMMA] + responses[i];
    if n == 0 {
      WholeAt([OPEN] + last);
    } else if i < n {
      ResponseAt(rest, i);
      OffsetPrefix(responses, n, i);
      PartAtLonger([OPEN] + Separated(rest), [COMMA] + last, Offset(responses, i) - 1, part);
      assert [OPEN] + Separated(rest) + ([COMMA] + last) == [OPEN] + Separated(responses);
    } else {
      OffsetIsLength(rest);
      OffsetPrefix(responses, n, n);
      PartAtEnd([OPEN] + Separated(rest), part);
      assert [OPEN] + Separated(rest) + part == [OPEN] + Separated(responses);
    }
  }

  lemma WholeAt(w: Bytes)
    ensures PartAt(w, 0, w)
  {
  }

  /** A batch's line, byte by byte: a bracket, the responses in order with a comma between
      neighbours, and a bracket. */
  lemma JoinedParts(responses: seq<Bytes>, i: nat)
    requires i < |responses|
    ensures var line := Joined(responses);
      && |line| == Offset(responses, |responses|) && line[|line| - 1] == 0x5d
      && Offset(responses, i) > 0
      && PartAt(line, Offset(responses, i) - 1, [if i == 0 then 0x5b else 0x2c] + responses[i])
  {
    hide Separated, PartAt;
    OffsetIsLength(responses);
    ResponseAt(responses, i);
    PartAtLonger([OPEN] + Separated(responses), [CLOSE], Offset(responses, i) - 1,
                 [if i == 0 then OPEN else COMMA] + responses[i]);
  }

  /** Adds a response when the closing bracket and the newline still fit behind it. */
  method AppendBatchResponse(encoded: Bytes, count: nat, response: Bytes) returns (ok: bool, more: Bytes, next: nat)
    ensures ok <==> |encoded| + (if count != 0 then 1 else 0) + |response| + 2 <= MAX_RESPONSE_SIZE
    ensures ok ==> more == encoded + (if count != 0 then [COMMA] else []) + response && next == count + 1
    ensures !ok ==> more == encoded && next == count
  {
    more, next := encoded, count;
    var separator := if count != 0 then 1 else 0;
    if |encoded| + separator + |response| + 2 > MAX_RESPONSE_SIZE {
      return false, more, next;
    }
    if count != 0 {
      more := more + [COMMA];
    }
    more := more + response;
    next := count + 1;
    ok := true;
  }

  lemma AppendSeparated(responses: seq<Bytes>, response: Bytes)
    ensures Separated(responses + [response])
      == Separated(responses) + (if responses != [] then [COMMA] else []) + response
  {
    var all := responses + [response];
    assert all[..|all| - 1] == responses;
  }

  /** The ordered join when it fits the limit, and the given error array otherwise. */
  method EncodeBatch(responses: seq<Bytes>, oversized: Bytes) returns (output: Bytes)
    ensures output == if FitsLimit(responses) then Joined(responses) else oversized
  {
    hide Separated;
    EmptySeparated();
    var encoded, count := [OPEN], 0;
    var i := 0;
    assert responses[..0] == [];
    while i < |responses|
      invariant i == count <= |responses| && encoded == [OPEN] + Separated(responses[..i])
      invariant i > 0 ==> |encoded| + 2 <= MAX_RESPONSE_SIZE
    {
      assert responses[..i + 1] == responses[..i] + [responses[i]];
      AppendSeparated(responses[..i], responses[i]);
      var ok;
      ok, encoded, count := AppendBatchResponse(encoded, count, responses[i]);
      if !ok {
        PrefixShorter(responses, i + 1);
        return oversized;
      }
      i := i + 1;
    }
    assert responses[..i] == responses;
    return encoded + [CLOSE];
  }

  lemma EmptySeparated()
    ensures Separated([]) == []
  {
  }

  // ----- One batch line -----

  /** How responses are rendered, already cut to an error when one alone is too large. */
  datatype Renderer = Renderer(render: Json -> Bytes, oversizedArray: Bytes, invalidArray: Bytes)

  function Lines(replies: seq<Reply>, render: Json -> Bytes): seq<Bytes> {
    if replies == [] then []
    else
      var last := replies[|replies| - 1];
      Lines(replies[..|replies| - 1], render) + if last.Answer? then [render(last.response)] else []
  }

  lemma LinesStep(replies: seq<Reply>, i: nat, render: Json -> Bytes)
    requires i < |replies|
    ensures Lines(replies[..i + 1], render)
      == if replies[i].Answer? then Lines(replies[..i], render) + [render(replies[i].response)]
         else Lines(replies[..i], render)
  {
    assert replies[..i + 1][..i] == replies[..i];
  }

  lemma {:induction false} LinesPrefix(replies: seq<Reply>, k: nat, render: Json -> Bytes)
    requires k <= |replies|
    ensures Lines(replies[..k], render) <= Lines(replies, render)
    decreases |replies|
  {
    if k == |replies| {
      assert replies[..k] == replies;
    } else {
      var rest := replies[..|replies| - 1];
      LinesPrefix(rest, k, render);
      assert rest[..k] == replies[..k];
    }
  }

  /** The line a batch's replies amount to. */
  function Expected(replies: seq<Reply>, r: Renderer): Option<Bytes> {
    var lines := Lines(replies, r.render);
    if lines == [] then None
    else if FitsLimit(lines) then Some(Joined(lines)) else Some(r.oversizedArray)
  }

  lemma TooLargeStays(replies: seq<Reply>, k: nat, r: Renderer)
    requires k <= |replies| && |Lines(replies[..k], r.render)| > 0 && !FitsLimit(Lines(replies[..k], r.render))
    ensures Expected(replies, r) == Some(r.oversizedArray)
  {
    hide Separated;
    LinesPrefix(replies, k, r.render);
    var few, all := Lines(replies[..k], r.render), Lines(replies, r.render);
    PrefixShorter(all, |few|);
    assert all[..|few|] == few;
  }

  lemma {:induction false} SerialPrefix(node: Node, batch: seq<Json>, c: Connection, k: nat)
    requires k <= |batch|
    ensures Serial(node, batch[..k], c).replies == Serial(node, batch, c).replies[..k]
    decreases |batch|
  {
    hide Process;
    if k == |batch| {
      assert batch[..k] == batch;
    } else {
      var rest := batch[..|batch| - 1];
      SerialPrefix(node, rest, c, k);
      assert rest[..k] == batch[..k];
    }
  }

  /** The outcome of a batch: whether the connection was closed, what was written,
      the connection after it, and how many requests were processed. */
  datatype Handled = Handled(closed: bool, output: Option<Bytes>, after: Connection, processed: nat)

  ghost predicate Batchable(node: Node, batch: seq<Json>, c: Connection) {
    c.session.seen && c.session.negotiated && forall i :: 0 <= i < |batch| ==> AsSubscription(node, batch[i]).Some?
  }

  // ----- Where a batch stops -----

  /** There is something to write, and it exceeds the limit. */
  predicate Over(replies: seq<Reply>, r: Renderer) {
    var lines := Lines(replies, r.render);
    lines != [] && !FitsLimit(lines)
  }

  /** The `k`-th reply closes the connection or exceeds the limit. */
  predicate Halts(replies: seq<Reply>, r: Renderer, k: nat)
    requires k <= |replies|
  {
    k > 0 && (replies[k - 1].Fatal? || Over(replies[..k], r))
  }

  /** `k` requests are processed: up to the first one that halts the batch, or all. */
  ghost predicate StopsAt(replies: seq<Reply>, r: Renderer, k: nat) {
    && k <= |replies|
    && (forall j :: 0 <= j < k ==> !Halts(replies, r, j))
    && (k < |replies| ==> Halts(replies, r, k))
  }

  /** Batches of subscriptions take the batched path and all others the serial one;
      the written line is the same function of the serial replies on both. The
      serial path stops at the first request that closes the connection or exceeds
      the output limit, the batched one processes everything. */
  method HandleBatch(node: Node, batch: seq<Json>, c: Connection, r: Renderer) returns (h: Handled)
    ensures batch == [] || |batch| > MAX_BATCH_REQUESTS ==> h == Handled(false, Some(r.invalidArray), c, 0)
    ensures 0 < |batch| <= MAX_BATCH_REQUESTS ==>
      && h.processed <= |batch|
      && h.after == Serial(node, batch[..h.processed], c).after
      && (h.closed <==> exists i :: 0 <= i < h.processed && Serial(node, batch, c).replies[i].Fatal?)
      && (!h.closed ==> h.output == Expected(Serial(node, batch, c).replies, r))
      && (!h.closed && h.processed < |batch| ==> h.output == Some(r.oversizedArray))
      && (h.closed <==> h.processed > 0 && Serial(node, batch, c).replies[h.processed - 1].Fatal?)
      && (if Batchable(node, batch, c) then h.processed == |batch|
          else StopsAt(Serial(node, batch, c).replies, r, h.processed))
  {
    hide Process, AsSubscription, Separated;
    if batch == [] || |batch| > MAX_BATCH_REQUESTS {
      return Handled(false, Some(r.invalidArray), c, 0);
    }
    var fast := SubscriptionBatch(node, batch, c);
    if fast.Some? {
      assert batch[..|batch|] == batch;
      var output := WriteReplies(fast.value.replies, r);
      FastIsNeverFatal(node, batch, c);
      return Handled(false, output, fast.value.after, |batch|);
    }
    h := HandleSerially(node, batch, c, r);
  }

  /** Renders replies in order until the limit is exceeded. */
  method WriteReplies(replies: seq<Reply>, r: Renderer) returns (output: Option<Bytes>)
    ensures output == Expected(replies, r)
  {
    hide Written, Lines, Expected, FitsLimit;
    var encoded, count := [OPEN], 0;
    var i := 0;
    NothingWritten(replies, r);
    while i < |replies|
      invariant i <= |replies|
      invariant Written(encoded, count, Lines(replies[..i], r.render))
    {
      LinesStep(replies, i, r.render);
      if replies[i].Answer? {
        var ok;
        WriteStep(encoded, count, Lines(replies[..i], r.render), r.render(replies[i].response));
        ok, encoded, count := AppendBatchResponse(encoded, count, r.render(replies[i].response));
        if !ok {
          TooLargeStays(replies, i + 1, r);
          return Some(r.oversizedArray);
        }
      }
      i := i + 1;
    }
    assert replies[..i] == replies;
    WrittenIsExpected(encoded, count, replies, r);
    return if count == 0 then None else Some(encoded + [CLOSE]);
  }

  lemma NothingWritten(replies: seq<Reply>, r: Renderer)
    ensures Written([OPEN], 0, Lines(replies[..0], r.render))
  {
  }

  /** The buffer holds the lines written so far, and they fit the limit. */
  ghost predicate Written(encoded: Bytes, count: nat, lines: seq<Bytes>) {
    count == |lines| && encoded == [OPEN] + Separated(lines) && (lines != [] ==> FitsLimit(lines))
  }

  lemma WriteStep(encoded: Bytes, count: nat, lines: seq<Bytes>, line: Bytes)
    requires Written(encoded, count, lines)
    ensures FitsLimit(lines + [line]) ==>
      Written(encoded + (if count != 0 then [COMMA] else []) + line, count + 1, lines + [line])
    ensures |encoded| + (if count != 0 then 1 else 0) + |line| + 2 <= MAX_RESPONSE_SIZE <==> FitsLimit(lines + [line])
  {
    hide Separated;
    AppendSeparated(lines, line);
  }

  lemma WrittenIsExpected(encoded: Bytes, count: nat, replies: seq<Reply>, r: Renderer)
    requires Written(encoded, count, Lines(replies, r.render))
    ensures Expected(replies, r) == if count == 0 then None else Some(encoded + [CLOSE])
  {
  }

  lemma SerialStep(node: Node, batch: seq<Json>, c: Connection, i: nat)
    requires i < |batch|
    ensures var p := Process(node, batch[i], Serial(node, batch[..i], c).after);
      Serial(node, batch[..i + 1], c).after == p.after && Serial(node, batch, c).replies[i] == p.reply
  {
    hide Process;
    SerialPrefix(node, batch, c, i + 1);
    assert batch[..i + 1][..i] == batch[..i];
    assert Serial(node, batch[..i + 1], c).replies[i] == Serial(node, batch, c).replies[i];
  }

  lemma FastIsNeverFatal(node: Node, batch: seq<Json>, c: Connection)
    requires c.session.seen && c.session.negotiated
    requires forall i :: 0 <= i < |batch| ==> AsSubscription(node, batch[i]).Some?
    ensures var s := Serial(node, batch, c);
      s.after.session == c.session && forall i :: 0 <= i < |batch| ==> !s.replies[i].Fatal?
  {
    hide Process, AsSubscription;
    if batch != [] {
      var rest := batch[..|batch| - 1];
      FastIsNeverFatal(node, rest, c);
      ProcessSubscription(node, batch[|batch| - 1], Serial(node, rest, c).after);
    }
  }

  /** What has been written does not exceed the limit. */
  lemma WrittenIsNotOver(encoded: Bytes, count: nat, replies: seq<Reply>, k: nat, r: Renderer)
    requires k <= |replies| && Written(encoded, count, Lines(replies[..k], r.render))
    ensures !Over(replies[..k], r)
  {
  }

  /** One request after the other, until one closes the connection or exceeds the limit. */
  method HandleSerially(node: Node, batch: seq<Json>, c: Connection, r: Renderer) returns (h: Handled)
    ensures h.processed <= |batch| && h.after == Serial(node, batch[..h.processed], c).after
    ensures h.closed <==> exists i :: 0 <= i < h.processed && Serial(node, batch, c).replies[i].Fatal?
    ensures !h.closed ==> h.output == Expected(Serial(node, batch, c).replies, r)
    ensures !h.closed && h.processed < |batch| ==> h.output == Some(r.oversizedArray)
    ensures StopsAt(Serial(node, batch, c).replies, r, h.processed)
    ensures h.closed <==> h.processed > 0 && Serial(node, batch, c).replies[h.processed - 1].Fatal?
  {
    hide Process, Serial, Written, Lines, Expected, FitsLimit;
    ghost var all := Serial(node, batch, c).replies;
    var encoded, count, conn := [OPEN], 0, c;
    var i := 0;
    SerialStart(node, batch, c, r);
    while i < |batch|
      invariant i <= |batch| && conn == Serial(node, batch[..i], c).after
      invariant Written(encoded, count, Lines(all[..i], r.render))
      invariant forall j :: 0 <= j < i ==> !all[j].Fatal?
      invariant forall j :: 0 <= j <= i ==> !Halts(all, r, j)
    {
      var p := Process(node, batch[i], conn);
      SerialStep(node, batch, c, i);
      LinesStep(all, i, r.render);
      conn := p.after;
      if p.reply.Fatal? {
        return Handled(true, None, conn, i + 1);
      }
      if p.reply.Answer? {
        var ok;
        WriteStep(encoded, count, Lines(all[..i], r.render), r.render(p.reply.response));
        ok, encoded, count := AppendBatchResponse(encoded, count, r.render(p.reply.response));
        if !ok {
          TooLargeStays(all, i + 1, r);
          return Handled(false, Some(r.oversizedArray), conn, i + 1);
        }
      }
      i := i + 1;
      WrittenIsNotOver(encoded, count, all, i, r);
    }
    assert all[..i] == all;
    WrittenIsExpected(encoded, count, all, r);
    return Handled(false, if count == 0 then None else Some(encoded + [CLOSE]), conn, i);
  }

  lemma SerialStart(node: Node, batch: seq<Json>, c: Connection, r: Renderer)
    ensures Serial(node, batch[..0], c).after == c
    ensures Written([OPEN], 0, Lines(Serial(node, batch, c).replies[..0], r.render))
  {
  }
}
