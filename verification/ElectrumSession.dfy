/** Electrum request processing: version negotiation, the session state machine,
    and the batched script-hash subscription path against the serial one. */
module ElectrumSession {
  import opened Bits

  // ----- JSON and errors -----

  datatype Json =
    | Null
    | Bool(b: bool)
    | Num(n: int)
    | Str(s: string)
    | Arr(items: seq<Json>)
    | Obj(fields: map<string, Json>)

  datatype Failure = InvalidParams | HistoryTooLarge | ResponseTooLarge | Message(text: string)

  datatype Outcome<+T> = Ok(value: T) | Err(error: Failure)

  function Response(id: Json, key: string, body: Json): Json {
    Obj(map["jsonrpc" := Str("2.0"), "id" := id, key := body])
  }

  function ErrorBody(code: int, message: string): Json {
    Obj(map["code" := Num(code), "message" := Str(message)])
  }

  const INVALID_REQUEST: Json := Response(Null, "error", ErrorBody(-32600, "invalid request"))

  function ErrorResponse(id: Json, method_: string, e: Failure): Json {
    match e
    case InvalidParams => Response(id, "error", ErrorBody(-32602, "invalid params"))
    case HistoryTooLarge => Response(id, "error", ErrorBody(10001, "history too large"))
    case ResponseTooLarge => Response(id, "error", ErrorBody(1, "response too large"))
    case Message(text) =>
      if text == "unsupported Electrum method " + method_
      then Response(id, "error", ErrorBody(-32601, "method not found"))
      else Response(id, "error", ErrorBody(1, text))
  }

  // ----- Versions -----

  datatype Version = Version(major: nat, minor: nat, patch: nat)

  predicate AtMost(a: Version, b: Version) {
    a.major < b.major || (a.major == b.major && (a.minor < b.minor || (a.minor == b.minor && a.patch <= b.patch)))
  }

  const MIN_VERSION := Version(1, 4, 0)
  const MAX_VERSION := Version(1, 7, 0)

  predicate Supported(v: Version) { AtMost(MIN_VERSION, v) && AtMost(v, MAX_VERSION) }

  // ----- The connection -----

  datatype Session = Session(version: Version, negotiated: bool, seen: bool)

  datatype Subscription = Scripthash(hash: string, status: Json) | Other(data: Json)

  type Subscriptions = map<string, Subscription>

  datatype Connection = Connection(session: Session, subs: Subscriptions, headers: bool, numblocks: bool)

  const SERVER_NAME: string := "bitcoind-rs 0.1.0"
  const VERSION_METHOD: string := "server.version"
  const SUBSCRIBE_METHOD: string := "blockchain.scripthash.subscribe"

  /** What the node provides: script status, version texts, parameter names and
      all other methods, fixed while a batch is processed. */
  datatype Node = Node(
    status: string -> Outcome<Json>,
    parseVersion: string -> Option<Version>,
    showVersion: Version -> string,
    names: string -> Option<seq<string>>,
    minimum: string -> Option<Version>,
    dispatch: (string, Json, Version, Subscriptions) -> (Outcome<Json>, Subscriptions))

  function ParameterNames(node: Node, name: string): Option<seq<string>> {
    if name == VERSION_METHOD then Some(["client_name", "protocol_version"])
    else if name == SUBSCRIBE_METHOD then Some(["scripthash"])
    else node.names(name)
  }

  function MinimumVersion(node: Node, name: string): Option<Version> {
    if name == VERSION_METHOD || name == SUBSCRIBE_METHOD then None else node.minimum(name)
  }

  function DropTrailingNulls(items: seq<Json>): seq<Json> {
    if items != [] && items[|items| - 1].Null? then DropTrailingNulls(items[..|items| - 1]) else items
  }

  /** Positional parameters, from an array or from an object by name. */
  function Normalize(node: Node, name: string, params: Json): Outcome<Json> {
    var names := ParameterNames(node, name);
    match params
    case Arr(items) =>
      if names.Some? && |items| > |names.value|
      then if name == VERSION_METHOD then Ok(Arr(items[..2])) else Err(InvalidParams)
      else Ok(params)
    case Obj(fields) =>
      if names.None? then Err(Message("unsupported Electrum method " + name))
      else if name != VERSION_METHOD && exists key :: key in fields && key !in names.value then Err(InvalidParams)
      else Ok(Arr(DropTrailingNulls(seq(|names.value|, i requires 0 <= i < |names.value| =>
        if names.value[i] in fields then fields[names.value[i]] else Null))))
    case _ => Err(InvalidParams)
  }

  function Param(params: Json, i: nat): Option<Json> {
    if params.Arr? && i < |params.items| then Some(params.items[i]) else None
  }

  function Field(fields: map<string, Json>, name: string): Option<Json> {
    if name in fields then Some(fields[name]) else None
  }

  /** Absent and null parameters are the same. */
  predicate SameParam(a: Option<Json>, b: Option<Json>) {
    a == b || ((a == None || a == Some(Null)) && (b == None || b == Some(Null)))
  }

  lemma {:induction false} DroppedParam(items: seq<Json>, i: nat)
    ensures SameParam(Param(Arr(DropTrailingNulls(items)), i), Param(Arr(items), i))
  {
    if items != [] && items[|items| - 1].Null? {
      DroppedParam(items[..|items| - 1], i);
    }
  }

  /** `server.version` by name: the fields it knows, and any others besides. */
  lemma VersionByName(node: Node, fields: map<string, Json>)
    ensures var r := Normalize(node, VERSION_METHOD, Obj(fields));
      && r.Ok?
      && SameParam(Param(r.value, 0), Field(fields, "client_name"))
      && SameParam(Param(r.value, 1), Field(fields, "protocol_version"))
  {
    hide DropTrailingNulls;
    var names := ["client_name", "protocol_version"];
    var items := seq(2, i requires 0 <= i < 2 => if names[i] in fields then fields[names[i]] else Null);
    DroppedParam(items, 0);
    DroppedParam(items, 1);
  }

  /** `server.version` by position: two parameters, and any others besides. */
  lemma VersionByPosition(node: Node, items: seq<Json>)
    ensures var r := Normalize(node, VERSION_METHOD, Arr(items));
      r.Ok? && Param(r.value, 0) == Param(Arr(items), 0) && Param(r.value, 1) == Param(Arr(items), 1)
  {
  }

  // ----- Negotiation -----

  /** The range a client asks for; 1.4 when it names none. */
  function ClientRange(node: Node, params: Json): Option<(Version, Version)> {
    var asked := Param(params, 1);
    var requested := if asked.None? || asked.value.Null? then Str("1.4") else asked.value;
    match requested
    case Str(text) =>
      var v := node.parseVersion(text);
      if v.Some? then Some((v.value, v.value)) else None
    case Arr(items) =>
      if |items| == 2 && items[0].Str? && items[1].Str? then
        var low, high := node.parseVersion(items[0].s), node.parseVersion(items[1].s);
        if low.Some? && high.Some? then Some((low.value, high.value)) else None
      else if |items| == 1 && items[0].Str? then
        var v := node.parseVersion(items[0].s);
        if v.Some? then Some((v.value, v.value)) else None
      else None
    case _ => None
  }

  function Greater(a: Version, b: Version): Version { if AtMost(a, b) then b else a }

  function Lesser(a: Version, b: Version): Version { if AtMost(a, b) then a else b }

  function Negotiate(node: Node, params: Json, s: Session): (Outcome<Json>, Session) {
    if s.negotiated then (Err(Message("server.version may only be called once")), s)
    else if Param(params, 0).Some? && !Param(params, 0).value.Null? && !Param(params, 0).value.Str?
    then (Err(InvalidParams), s)
    else
      var range := ClientRange(node, params);
      if range.None? then (Err(InvalidParams), s)
      else
        var (low, high) := range.value;
        if !AtMost(low, high) then (Err(Message("client protocol minimum exceeds maximum")), s)
        else
          var lower, selected := Greater(MIN_VERSION, low), Lesser(MAX_VERSION, high);
          if !AtMost(lower, selected) then (Err(Message("no mutually supported protocol version")), s)
          else (Ok(Arr([Str(SERVER_NAME), Str(node.showVersion(selected))])),
                s.(version := selected, negotiated := true))
  }

  /** The client's range and the server's have a version in common. */
  ghost predicate Common(v: Version, low: Version, high: Version) {
    Supported(v) && AtMost(low, v) && AtMost(v, high)
  }

  /** Negotiation on a new session succeeds exactly when the ranges meet, and
      then picks the greatest common version. */
  lemma NegotiatesGreatest(node: Node, params: Json, s: Session)
    requires !s.negotiated
    ensures var (r, s') := Negotiate(node, params, s); var range := ClientRange(node, params);
      && (r.Ok? <==> (Param(params, 0).None? || Param(params, 0).value.Null? || Param(params, 0).value.Str?)
                     && range.Some? && exists v :: Common(v, range.value.0, range.value.1))
      && (r.Ok? ==> s'.negotiated && s'.seen == s.seen && Common(s'.version, range.value.0, range.value.1)
                    && forall v :: Common(v, range.value.0, range.value.1) ==> AtMost(v, s'.version))
      && (r.Err? ==> s' == s)
  {
    var range := ClientRange(node, params);
    if range.Some? {
      var (low, high) := range.value;
      var selected := Lesser(MAX_VERSION, high);
      if AtMost(low, high) && AtMost(Greater(MIN_VERSION, low), selected) {
        assert Common(selected, low, high);
      }
    }
  }

  /** What a client may give for the version, and the range it asks for by it. */
  ghost predicate AsksFor(node: Node, version: Option<Json>, low: Version, high: Version) {
    || ((version == None || version == Some(Null)) && node.parseVersion("1.4") == Some(low) && low == high)
    || (exists a :: version == Some(Str(a)) && node.parseVersion(a) == Some(low) && low == high)
    || (exists a :: version == Some(Arr([Str(a)])) && node.parseVersion(a) == Some(low) && low == high)
    || (exists a, b :: version == Some(Arr([Str(a), Str(b)]))
                       && node.parseVersion(a) == Some(low) && node.parseVersion(b) == Some(high))
  }

  /** The range is the one the version asks for, and none without one. */
  lemma ClientRangeIff(node: Node, params: Json, low: Version, high: Version)
    ensures ClientRange(node, params) == Some((low, high)) <==> AsksFor(node, Param(params, 1), low, high)
  {
    var asked := Param(params, 1);
    if asked.Some? && asked.value.Arr? {
      var items := asked.value.items;
      if |items| == 1 {
        assert items == [items[0]];
      } else if |items| == 2 {
        assert items == [items[0], items[1]];
      }
    }
  }

  /** The law on the parameters: a new session negotiates exactly when the name is absent, null or
      a string and the version asks for a range with a supported version in it; it then has the
      greatest of these. */
  lemma NegotiationLaw(node: Node, params: Json, s: Session)
    requires !s.negotiated
    ensures var (r, s') := Negotiate(node, params, s); var name := Param(params, 0);
      && (r.Ok? <==>
            && (name == None || name == Some(Null) || name.value.Str?)
            && exists low, high, v :: AsksFor(node, Param(params, 1), low, high) && Common(v, low, high))
      && (r.Ok? ==>
            && s' == s.(version := s'.version, negotiated := true)
            && r.value == Arr([Str(SERVER_NAME), Str(node.showVersion(s'.version))])
            && exists low, high :: AsksFor(node, Param(params, 1), low, high) && IsGreatest(s'.version, low, high))
      && (r.Err? ==> s' == s)
  {
    hide ClientRange, AsksFor, AtMost, Common;
    NegotiatesGreatest(node, params, s);
    var range := ClientRange(node, params);
    forall low, high
      ensures ClientRange(node, params) == Some((low, high)) <==> AsksFor(node, Param(params, 1), low, high)
    {
      ClientRangeIff(node, params, low, high);
    }
    if range.Some? {
      assert AsksFor(node, Param(params, 1), range.value.0, range.value.1);
    }
    NegotiatedAnswer(node, params, s);
  }

  ghost predicate IsGreatest(v: Version, low: Version, high: Version) {
    Common(v, low, high) && forall w :: Common(w, low, high) ==> AtMost(w, v)
  }

  lemma NegotiatedAnswer(node: Node, params: Json, s: Session)
    ensures var (r, s') := Negotiate(node, params, s);
      r.Ok? ==> s' == s.(version := s'.version, negotiated := true)
                && r.value == Arr([Str(SERVER_NAME), Str(node.showVersion(s'.version))])
  {
  }

  // ----- Requests -----

  datatype Call = Call(name: string, id: Option<Json>, params: Json)

  function AsCall(request: Json): Option<Call> {
    if request.Obj? && "method" in request.fields && request.fields["method"].Str? then
      Some(Call(request.fields["method"].s,
                if "id" in request.fields then Some(request.fields["id"]) else None,
                if "params" in request.fields then request.fields["params"] else Arr([])))
    else None
  }

  predicate HexDigit(c: char) { '0' <= c <= '9' || 'a' <= c <= 'f' || 'A' <= c <= 'F' }

  function LowerHex(s: string): string {
    seq(|s|, i requires 0 <= i < |s| => if 'A' <= s[i] <= 'F' then s[i] - 'A' + 'a' else s[i])
  }

  function ScriptHashParam(params: Json, i: nat): Outcome<string> {
    var p := Param(params, i);
    if p.Some? && p.value.Str? && |p.value.s| == 64 && forall c | c in p.value.s :: HexDigit(c)
    then Ok(LowerHex(p.value.s)) else Err(InvalidParams)
  }

  function Subscribed(subs: Subscriptions, hash: string, status: Json): Subscriptions {
    subs["scripthash:" + hash := Scripthash(hash, status)]
  }

  /** Dispatch of one call; only negotiation changes the session. */
  function Dispatch(node: Node, call: Call, c: Connection): (Outcome<Json>, Connection) {
    var normalized := Normalize(node, call.name, call.params);
    if normalized.Err? then (Err(normalized.error), c)
    else
      var params, required := normalized.value, MinimumVersion(node, call.name);
      if required.Some? && !AtMost(required.value, c.session.version)
      then
        var version := node.showVersion(required.value);
        (Err(Message(call.name + " requires Electrum protocol " + version + " or newer")), c)
      else if call.name == VERSION_METHOD then
        var (r, s) := Negotiate(node, params, c.session);
        (r, c.(session := s))
      else if call.name == SUBSCRIBE_METHOD then
        var hash := ScriptHashParam(params, 0);
        if hash.Err? then (Err(hash.error), c)
        else
          var status := node.status(hash.value);
          if status.Err? then (status, c)
          else (status, c.(subs := Subscribed(c.subs, hash.value, status.value)))
      else
        var (r, subs) := node.dispatch(call.name, params, c.session.version, c.subs);
        (r, c.(subs := subs))
  }

  /** The answer to a request: fatal to the connection, none, or a response. */
  datatype Reply = Fatal | Silent | Answer(response: Json)

  /** A processed request: the reply, the connection after it, and the method that was dispatched. */
  datatype Processed = Processed(reply: Reply, after: Connection, dispatched: Option<string>)

  function Process(node: Node, request: Json, c: Connection): Processed {
    var asked := AsCall(request);
    if asked.None? then Processed(Answer(INVALID_REQUEST), c, None)
    else
      var call := asked.value;
      var id := if call.id.Some? then call.id.value else Null;
      if !c.session.seen && call.name != VERSION_METHOD then Processed(Fatal, c, None)
      else
        var c1 := c.(session := c.session.(seen := true));
        if !c1.session.negotiated && call.name != VERSION_METHOD then Processed(Fatal, c1, None)
        else
          var (result, c2) := Dispatch(node, call, c1);
          if call.name == VERSION_METHOD && !c2.session.negotiated && result.Err?
          then Processed(Fatal, c2, Some(call.name))
          else
            var c3 := c2.(headers := c2.headers || (call.name == "blockchain.headers.subscribe" && result.Ok?),
                          numblocks := c2.numblocks || (call.name == "blockchain.numblocks.subscribe" && result.Ok?));
            Processed(
              if call.id.None? then Silent
              else Answer(if result.Ok? then Response(id, "result", result.value)
                          else ErrorResponse(id, call.name, result.error)),
              c3, Some(call.name))
  }

  /** A method newer than the session's version is refused and changes nothing. */
  lemma NewMethodsRefused(node: Node, call: Call, c: Connection)
    requires call.name != VERSION_METHOD && call.name != SUBSCRIBE_METHOD
    requires node.minimum(call.name).Some? && !AtMost(node.minimum(call.name).value, c.session.version)
    ensures var (r, c') := Dispatch(node, call, c); r.Err? && c' == c
  {
    hide Normalize;
  }

  /** A connection is notified of headers, or of block numbers, from the first successful call of that method on. */
  lemma NotifiedOnSuccess(node: Node, request: Json, c: Connection)
    requires c.session.seen && c.session.negotiated && AsCall(request).Some?
    ensures var call := AsCall(request).value; var (r, c') := Dispatch(node, call, c);
      var after := Process(node, request, c).after;
      && (after.headers <==> c'.headers || (call.name == "blockchain.headers.subscribe" && r.Ok?))
      && (after.numblocks <==> c'.numblocks || (call.name == "blockchain.numblocks.subscribe" && r.Ok?))
      && c'.headers == c.headers && c'.numblocks == c.numblocks && after.subs == c'.subs
  {
    hide Normalize, Negotiate, ScriptHashParam, AtMost;
    assert c.(session := c.session.(seen := true)) == c;
    DispatchKeepsFlags(node, AsCall(request).value, c);
    hide Dispatch;
  }

  lemma DispatchKeepsFlags(node: Node, call: Call, c: Connection)
    ensures var (r, c') := Dispatch(node, call, c);
      c'.headers == c.headers && c'.numblocks == c.numblocks && (c.session.negotiated ==> c'.session == c.session)
  {
    hide Normalize, ScriptHashParam, AtMost;
  }

  /** Every answer echoes the request's identifier and has either a result or an error; a request
      is silent only if it is a call without identifier (section 4.1 of JSON-RPC 2.0). */
  lemma AnswersAreResponses(node: Node, request: Json, c: Connection)
    ensures var p := Process(node, request, c);
      && (p.reply.Silent? ==> AsCall(request).Some? && "id" !in request.fields)
      && (p.reply.Answer? ==>
            IsResponse(p.reply.response,
                       if AsCall(request).Some? && "id" in request.fields then request.fields["id"] else Null))
      && (p.reply.Answer? && AsCall(request).Some? ==> "id" in request.fields)
      && (AsCall(request).None? ==> p.after == c && p.reply == Answer(INVALID_REQUEST))
  {
    hide Dispatch, Response, ErrorResponse, IsResponse;
    InvalidIsResponse();
    var call := AsCall(request);
    if call.Some? {
      var id := if call.value.id.Some? then call.value.id.value else Null;
      var (r, c2) := Dispatch(node, call.value, c.(session := c.session.(seen := true)));
      if r.Ok? {
        ResultIsResponse(id, r.value);
      } else {
        FailureIsResponse(id, call.value.name, r.error);
      }
    }
  }

  /** A version 2.0 response to `id`: a result, or an error with code and message. */
  predicate IsResponse(response: Json, id: Json) {
    && response.Obj? && Field(response.fields, "id") == Some(id)
    && Field(response.fields, "jsonrpc") == Some(Str("2.0"))
    && (response.fields.Keys == {"id", "jsonrpc", "result"}
        || (response.fields.Keys == {"id", "jsonrpc", "error"} && response.fields["error"].Obj?
            && response.fields["error"].fields.Keys == {"code", "message"}))
  }

  lemma ResultIsResponse(id: Json, body: Json)
    ensures IsResponse(Response(id, "result", body), id)
  {
  }

  lemma ErrorIsResponse(id: Json, code: int, message: string)
    ensures IsResponse(Response(id, "error", ErrorBody(code, message)), id)
  {
  }

  function CodeOf(response: Json): (code: int) {
    if response.Obj? && "error" in response.fields && response.fields["error"].Obj?
       && "code" in response.fields["error"].fields && response.fields["error"].fields["code"].Num?
    then response.fields["error"].fields["code"].n else 0
  }

  /** The codes of section 5.1 of JSON-RPC 2.0 for bad requests, unknown methods and bad parameters, and
      the server's own for the rest. */
  lemma ErrorCodes(id: Json, name: string, e: Failure)
    ensures CodeOf(INVALID_REQUEST) == -32600
    ensures CodeOf(ErrorResponse(id, name, e)) ==
      if e.InvalidParams? then -32602
      else if e == Message("unsupported Electrum method " + name) then -32601
      else if e.HistoryTooLarge? then 10001
      else 1
  {
  }

  lemma InvalidIsResponse()
    ensures IsResponse(INVALID_REQUEST, Null)
  {
  }

  lemma FailureIsResponse(id: Json, name: string, e: Failure)
    ensures IsResponse(ErrorResponse(id, name, e), id)
  {
    hide Response, IsResponse;
    forall code: int, message: string ensures IsResponse(Response(id, "error", ErrorBody(code, message)), id) {
      ErrorIsResponse(id, code, message);
    }
  }

  // ----- Sessions over request sequences -----

  const NEW_SESSION := Session(MIN_VERSION, false, false)

  /** What holds between the requests of a connection that is still open. */
  predicate Live(s: Session) {
    (s.seen <==> s.negotiated) && Supported(s.version)
  }

  /** The connection after a request sequence, unless a request was fatal. */
  function Serve(node: Node, c: Connection, requests: seq<Json>): Option<Connection> {
    if requests == [] then Some(c)
    else
      var before := Serve(node, c, requests[..|requests| - 1]);
      if before.None? then None
      else
        var p := Process(node, requests[|requests| - 1], before.value);
        if p.reply.Fatal? then None else Some(p.after)
  }

  lemma ProcessKeepsLive(node: Node, request: Json, c: Connection)
    requires Live(c.session)
    ensures var p := Process(node, request, c);
      && (!p.reply.Fatal? ==> Live(p.after.session))
      && (c.session.negotiated ==> p.after.session == c.session && !p.reply.Fatal?)
      && (!c.session.negotiated ==> p.dispatched == None || p.dispatched == Some(VERSION_METHOD))
      && (!c.session.negotiated && p.after.session.negotiated ==> p.dispatched == Some(VERSION_METHOD))
  {
    hide Dispatch, ErrorResponse, AtMost;
    var call := AsCall(request);
    if call.Some? {
      var c1 := c.(session := c.session.(seen := true));
      DispatchSession(node, call.value, c1);
      var (r, c2) := Dispatch(node, call.value, c1);
      assert c.session.negotiated ==> c1.session == c.session;
    }
  }

  lemma DispatchSession(node: Node, call: Call, c: Connection)
    requires Supported(c.session.version)
    ensures var (r, c') := Dispatch(node, call, c);
      && (call.name != VERSION_METHOD || c.session.negotiated || r.Err? ==> c'.session == c.session)
      && (call.name == VERSION_METHOD && r.Ok? ==>
            !c.session.negotiated && c'.session.negotiated && Supported(c'.session.version)
            && c'.session.seen == c.session.seen)
  {
    hide Normalize, Negotiate, ScriptHashParam, AtMost;
    var params := Normalize(node, call.name, call.params);
    if params.Ok? {
      NegotiationOutcome(node, params.value, c.session);
    }
  }

  lemma NegotiationOutcome(node: Node, params: Json, s: Session)
    requires Supported(s.version)
    ensures var (r, s') := Negotiate(node, params, s);
      && (s.negotiated ==> r.Err? && s' == s)
      && (r.Ok? ==> s'.negotiated && Supported(s'.version) && s'.seen == s.seen)
      && (r.Err? ==> s' == s)
  {
    if !s.negotiated {
      NegotiatesGreatest(node, params, s);
    }
  }

  /** Over every request sequence on an open connection the session stays live. */
  lemma {:induction false} ServeKeepsLive(node: Node, c: Connection, requests: seq<Json>)
    requires Live(c.session)
    ensures var r := Serve(node, c, requests);
      && (r.Some? ==> Live(r.value.session))
      && (c.session.negotiated ==> r.Some? && r.value.session == c.session)
  {
    hide Process, Live;
    if requests != [] {
      var rest := requests[..|requests| - 1];
      ServeKeepsLive(node, c, rest);
      if Serve(node, c, rest).Some? {
        ProcessKeepsLive(node, requests[|requests| - 1], Serve(node, c, rest).value);
      }
    }
  }

  lemma {:induction false} ServeSplit(node: Node, c: Connection, a: seq<Json>, b: seq<Json>)
    ensures Serve(node, c, a + b)
      == if Serve(node, c, a).None? then None else Serve(node, Serve(node, c, a).value, b)
    decreases |b|
  {
    hide Process;
    if b == [] {
      assert a + b == a;
    } else {
      ServeSplit(node, c, a, b[..|b| - 1]);
      assert (a + b)[..|a + b| - 1] == a + b[..|b| - 1];
    }
  }

  /** A `server.version` request for which `v` is the greatest common version. */
  ghost predicate NegotiatedBy(node: Node, request: Json, v: Version) {
    var call := AsCall(request);
    call.Some? && call.value.name == VERSION_METHOD
    && var params := Normalize(node, VERSION_METHOD, call.value.params);
       params.Ok? && exists low, high :: AsksFor(node, Param(params.value, 1), low, high) && IsGreatest(v, low, high)
  }

  lemma ProcessNegotiates(node: Node, request: Json, c: Connection)
    requires !c.session.negotiated && Process(node, request, c).after.session.negotiated
    ensures NegotiatedBy(node, request, Process(node, request, c).after.session.version)
  {
    hide Normalize, Negotiate, AsksFor, ScriptHashParam, AtMost, IsGreatest, ErrorResponse;
    var call := AsCall(request).value;
    var params := Normalize(node, call.name, call.params);
    var s := c.session.(seen := true);
    if params.Ok? {
      NegotiationLaw(node, params.value, s);
    }
  }

  /** The request of the sequence that negotiated, and on what. */
  ghost predicate NegotiatedAt(node: Node, c: Connection, requests: seq<Json>, i: nat, v: Version) {
    i < |requests| && NegotiatedBy(node, requests[i], v)
    && var before := Serve(node, c, requests[..i]); before.Some? && !before.value.session.negotiated
  }

  lemma {:induction false} ServeNegotiates(node: Node, c: Connection, requests: seq<Json>)
    requires Live(c.session) && !c.session.negotiated
    requires var r := Serve(node, c, requests); r.Some? && r.value.session.negotiated
    ensures exists i: nat :: NegotiatedAt(node, c, requests, i, Serve(node, c, requests).value.session.version)
  {
    hide Process, NegotiatedBy, Live;
    var rest, last := requests[..|requests| - 1], requests[|requests| - 1];
    var before := Serve(node, c, rest).value;
    var v := Serve(node, c, requests).value.session.version;
    ServeKeepsLive(node, c, rest);
    if before.session.negotiated {
      ProcessKeepsLive(node, last, before);
      ServeNegotiates(node, c, rest);
      var i: nat :| NegotiatedAt(node, c, rest, i, v);
      assert rest[..i] == requests[..i];
      assert NegotiatedAt(node, c, requests, i, v);
    } else {
      ProcessNegotiates(node, last, before);
      assert NegotiatedAt(node, c, requests, |requests| - 1, v);
    }
  }

  /** On a new connection nothing but `server.version` is dispatched until a version
      is negotiated, the greatest common one of the request that negotiates it;
      afterwards the session never changes and no request is fatal. */
  lemma SessionProtocol(node: Node, subs: Subscriptions, before: seq<Json>, request: Json, later: seq<Json>)
    ensures var start := Connection(NEW_SESSION, subs, false, false);
      var now := Serve(node, start, before);
      now.Some? ==>
        && (!now.value.session.negotiated ==>
              var d := Process(node, request, now.value).dispatched; d == None || d == Some(VERSION_METHOD))
        && (now.value.session.negotiated ==>
              var end := Serve(node, start, before + later);
              && end.Some? && end.value.session == now.value.session
              && exists i: nat :: NegotiatedAt(node, start, before, i, now.value.session.version))
  {
    hide Process, Serve, NegotiatedAt;
    var start := Connection(NEW_SESSION, subs, false, false);
    ServeKeepsLive(node, start, before);
    ServeSplit(node, start, before, later);
    var now := Serve(node, start, before);
    if now.Some? {
      ProcessKeepsLive(node, request, now.value);
      ServeKeepsLive(node, now.value, later);
      if now.value.session.negotiated {
        ServeNegotiates(node, start, before);
      }
    }
  }

  // ----- Batches -----

  datatype Answers = Answers(replies: seq<Reply>, after: Connection)

  /** A batch, one request after the other. */
  function Serial(node: Node, batch: seq<Json>, c: Connection): (r: Answers)
    ensures |r.replies| == |batch|
  {
    if batch == [] then Answers([], c)
    else
      var before := Serial(node, batch[..|batch| - 1], c);
      var p := Process(node, batch[|batch| - 1], before.after);
      Answers(before.replies + [p.reply], p.after)
  }

  /** A well-formed script-hash subscription: its identifier and lower-case hash. */
  function AsSubscription(node: Node, request: Json): Option<(Option<Json>, string)> {
    var call := AsCall(request);
    if call.None? || call.value.name != SUBSCRIBE_METHOD then None
    else
      var params := Normalize(node, SUBSCRIBE_METHOD, call.value.params);
      if params.Err? then None
      else
        var hash := ScriptHashParam(params.value, 0);
        if hash.Err? then None else Some((call.value.id, hash.value))
  }

  function HexValue(c: char): (v: nat)
    requires HexDigit(c)
    ensures v < 16
  {
    if c <= '9' then (c - '0') as nat else if c <= 'F' then (c - 'A') as nat + 10 else (c - 'a') as nat + 10
  }

  /** The same digits in lower case. */
  lemma LowerHexIs(h: string, i: nat)
    requires i < |h| && HexDigit(h[i])
    ensures |LowerHex(h)| == |h| && ('0' <= LowerHex(h)[i] <= '9' || 'a' <= LowerHex(h)[i] <= 'f')
    ensures HexValue(LowerHex(h)[i]) == HexValue(h[i])
  {
  }

  /** A call with the one parameter `h`, by position or by name. */
  ghost predicate SubscribesTo(request: Json, id: Option<Json>, h: string) {
    && request.Obj? && Field(request.fields, "method") == Some(Str(SUBSCRIBE_METHOD))
    && id == Field(request.fields, "id")
    && (Field(request.fields, "params") == Some(Arr([Str(h)]))
        || Field(request.fields, "params") == Some(Obj(map["scripthash" := Str(h)])))
  }

  /** Exactly the calls with 64 hexadecimal digits are subscriptions, to these in lower case. */
  lemma SubscriptionIff(node: Node, request: Json, id: Option<Json>, hash: string)
    ensures AsSubscription(node, request) == Some((id, hash)) <==>
      exists h :: SubscribesTo(request, id, h) && |h| == 64 && (forall c | c in h :: HexDigit(c)) && hash == LowerHex(h)
  {
    hide SubscribesTo, AsSubscription, LowerHex, HexDigit;
    if AsSubscription(node, request) == Some((id, hash)) {
      var h := SubscriptionHasForm(node, request, id, hash);
    }
    if h :| SubscribesTo(request, id, h) && |h| == 64 && (forall c | c in h :: HexDigit(c)) && hash == LowerHex(h) {
      FormIsSubscription(node, request, id, h);
    }
  }

  lemma SubscriptionHasForm(node: Node, request: Json, id: Option<Json>, hash: string) returns (h: string)
    requires AsSubscription(node, request) == Some((id, hash))
    ensures SubscribesTo(request, id, h) && |h| == 64 && (forall c | c in h :: HexDigit(c)) && hash == LowerHex(h)
  {
    hide LowerHex, HexDigit, Normalize;
    var params := Normalize(node, SUBSCRIBE_METHOD, AsCall(request).value.params);
    h := Param(params.value, 0).value.s;
    OneParameter(node, AsCall(request).value.params, h);
  }

  lemma FormIsSubscription(node: Node, request: Json, id: Option<Json>, h: string)
    requires SubscribesTo(request, id, h) && |h| == 64 && forall c | c in h :: HexDigit(c)
    ensures AsSubscription(node, request) == Some((id, LowerHex(h)))
  {
    hide LowerHex, HexDigit, Normalize;
    OneParameter(node, request.fields["params"], h);
  }

  lemma OneParameter(node: Node, params: Json, h: string)
    ensures var r := Normalize(node, SUBSCRIBE_METHOD, params);
      r.Ok? && Param(r.value, 0) == Some(Str(h))
      <==> params == Arr([Str(h)]) || params == Obj(map["scripthash" := Str(h)])
  {
    NamesDiffer();
    if params.Arr? && |params.items| == 1 {
      assert params.items == [params.items[0]];
    }
    if params.Obj? {
      var items := seq(1, i requires 0 <= i < 1 =>
        if ["scripthash"][i] in params.fields then params.fields[["scripthash"][i]] else Null);
      assert items == [items[0]];
      DroppedParam(items, 0);
      if (forall key :: key in params.fields ==> key == "scripthash") && "scripthash" in params.fields {
        assert params.fields == map["scripthash" := params.fields["scripthash"]];
      }
    }
  }

  /** What one subscription does on a negotiated session. */
  lemma ProcessSubscription(node: Node, request: Json, c: Connection)
    requires c.session.seen && c.session.negotiated && AsSubscription(node, request).Some?
    ensures var (id, hash) := AsSubscription(node, request).value;
      var p := Process(node, request, c);
      var status := node.status(hash);
      && p.after == (if status.Ok? then c.(subs := Subscribed(c.subs, hash, status.value)) else c)
      && p.reply == (if id.None? then Silent
                     else Answer(if status.Ok? then Response(id.value, "result", status.value)
                                 else ErrorResponse(id.value, SUBSCRIBE_METHOD, status.error)))
  {
    hide Normalize, ScriptHashParam;
    assert SUBSCRIBE_METHOD != VERSION_METHOD && SUBSCRIBE_METHOD != "blockchain.headers.subscribe"
           && SUBSCRIBE_METHOD != "blockchain.numblocks.subscribe" by { NamesDiffer(); }
  }

  lemma NamesDiffer()
    ensures SUBSCRIBE_METHOD != VERSION_METHOD
    ensures SUBSCRIBE_METHOD != "blockchain.headers.subscribe"
    ensures SUBSCRIBE_METHOD != "blockchain.numblocks.subscribe"
  {
    assert |SUBSCRIBE_METHOD| == 31 && |VERSION_METHOD| == 14;
    assert |"blockchain.headers.subscribe"| == 28 && |"blockchain.numblocks.subscribe"| == 30;
  }

  /** The batched path: all statuses are read first, then the subscriptions and
      replies follow in order. It applies to batches of well-formed script-hash
      subscriptions only, and then does what the serial path does. */
  method SubscriptionBatch(node: Node, batch: seq<Json>, c: Connection) returns (r: Option<Answers>)
    ensures r.Some? <==> (&& c.session.seen && c.session.negotiated
                          && forall i :: 0 <= i < |batch| ==> AsSubscription(node, batch[i]).Some?)
    ensures r.Some? ==> r.value == Serial(node, batch, c)
  {
    hide Process, AsSubscription;
    if !c.session.seen || !c.session.negotiated {
      return None;
    }
    var calls: seq<(Option<Json>, string)> := [];
    var i := 0;
    while i < |batch|
      invariant i <= |batch| && |calls| == i
      invariant forall j :: 0 <= j < i ==> AsSubscription(node, batch[j]) == Some(calls[j])
    {
      var call := AsSubscription(node, batch[i]);
      if call.None? {
        return None;
      }
      calls := calls + [call.value];
      i := i + 1;
    }
    var statuses := seq(|calls|, j requires 0 <= j < |calls| => node.status(calls[j].1));
    var subs := c.subs;
    var replies: seq<Reply> := [];
    i := 0;
    while i < |batch|
      invariant i <= |batch| && Answers(replies, c.(subs := subs)) == Serial(node, batch[..i], c)
    {
      var (id, hash) := calls[i];
      var status := statuses[i];
      ProcessSubscription(node, batch[i], c.(subs := subs));
      assert batch[..i + 1][..i] == batch[..i];
      if status.Ok? {
        subs := Subscribed(subs, hash, status.value);
        replies := replies + [if id.None? then Silent else Answer(Response(id.value, "result", status.value))];
      } else {
        replies := replies
          + [if id.None? then Silent else Answer(ErrorResponse(id.value, SUBSCRIBE_METHOD, status.error))];
      }
      i := i + 1;
    }
    assert batch[..i] == batch;
    return Some(Answers(replies, c.(subs := subs)));
  }
}
