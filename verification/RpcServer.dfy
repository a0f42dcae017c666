/** The CES RPC server: one handshake, then requests whose handlers finish in any
    order, over a newline-framed stream. */
module RpcServer {
  import opened InsertionMap
  import opened Runs
  import opened Framing
  import opened Text

  const PROTOCOL_VERSION := "0.1.0"
  const UPDATE_MANAGED_CREDENTIAL := "update_managed_credential"

  datatype Kind = Request | Response

  datatype Payload = CredentialUpdate(assistantApiKey: string, assistantId: Option<string>) | Opaque(json: string)

  datatype Handshake = Handshake(protocolVersion: string, sessionId: string,
                                 assistantApiKey: Option<string>, assistantId: Option<string>)

  /** A line that parsed as a transport message. */
  datatype Message =
    | HandshakeRequest(handshake: Handshake)
    | Rpc(kind: Kind, id: string, methodName: string, payload: Payload)
    | OtherMessage

  datatype ErrorCode = HandshakeRequired | MethodNotFound | InvalidRequest | HandlerError

  datatype Body = Result(json: string) | Failure(code: ErrorCode)

  /** `request` numbers the RPC envelopes in the order they were handled; it is not sent. */
  datatype Outgoing =
    | HandshakeAck(sessionId: string, accepted: bool)
    | Reply(request: nat, id: string, methodName: string, body: Body)

  /** What is outside the server: the JSON and schema layer, the handler registry,
      and which calls throw before their first suspension. */
  datatype Config = Config(
    decode: string -> Option<Message>,
    registered: string -> bool,
    schemaAccepts: (string, Payload) -> bool,
    throwsAtOnce: nat -> bool)

  /** The mutable refs that handlers read when they are called. */
  datatype Refs = Refs(sessionId: string, apiKey: string, assistantId: string)

  /** A handler call: the request it serves and what the refs held when it started. */
  datatype Call = Call(request: nat, methodName: string, payload: Payload, seen: Refs)

  /** An RPC envelope that was handled; `answerable` unless it was an ignored response. */
  datatype Envelope = Envelope(id: string, methodName: string, answerable: bool)

  datatype State = State(
    handshake: Option<Handshake>,
    closed: bool,
    refs: Refs,
    output: seq<Outgoing>,
    pending: set<nat>,
    envelopes: seq<Envelope>,
    calls: seq<Call>) {

    predicate HandshakeComplete() {
      handshake.Some?
    }
  }

  // ----- the handlers, as functions of the state -----

  function OrEmpty(s: Option<string>): string {
    if s.Some? then s.value else ""
  }

  /** `applyManagedCredentialRefs`: both refs are overwritten, absent values clear them. */
  function ApplyRefs(refs: Refs, apiKey: Option<string>, assistantId: Option<string>): Refs {
    refs.(apiKey := OrEmpty(apiKey), assistantId := OrEmpty(assistantId))
  }

  function Send(s: State, m: Outgoing): State {
    if s.closed then s else s.(output := s.output + [m])
  }

  function HandshakeSpec(s: State, h: Handshake): State {
    if s.HandshakeComplete() then Send(s, HandshakeAck(h.sessionId, false))
    else if h.protocolVersion != PROTOCOL_VERSION then Send(s, HandshakeAck(h.sessionId, false))
    else
      Send(s.(handshake := Some(h),
              refs := ApplyRefs(s.refs.(sessionId := h.sessionId), h.assistantApiKey, h.assistantId)),
           HandshakeAck(h.sessionId, true))
  }

  predicate Accepts(cfg: Config, methodName: string, payload: Payload) {
    if methodName == UPDATE_MANAGED_CREDENTIAL then payload.CredentialUpdate?
    else cfg.schemaAccepts(methodName, payload)
  }

  /** Start the handler of request `n`: the credential update overwrites the refs at once. */
  function StartCall(s: State, n: nat, methodName: string, payload: Payload): State {
    s.(calls := s.calls + [Call(n, methodName, payload, s.refs)],
       refs := if methodName == UPDATE_MANAGED_CREDENTIAL && payload.CredentialUpdate?
               then ApplyRefs(s.refs, Some(payload.assistantApiKey), payload.assistantId) else s.refs)
  }

  function EnvelopeSpec(cfg: Config, s0: State, kind: Kind, id: string, methodName: string, payload: Payload): State {
    var n := |s0.envelopes|;
    var s := s0.(envelopes := s0.envelopes + [Envelope(id, methodName, !s0.HandshakeComplete() || kind.Request?)]);
    if !s.HandshakeComplete() then Send(s, Reply(n, id, methodName, Failure(HandshakeRequired)))
    else if !kind.Request? then s
    else if !cfg.registered(methodName) then Send(s, Reply(n, id, methodName, Failure(MethodNotFound)))
    else if !Accepts(cfg, methodName, payload) then Send(s, Reply(n, id, methodName, Failure(InvalidRequest)))
    else if methodName != UPDATE_MANAGED_CREDENTIAL && cfg.throwsAtOnce(n) then
      Send(StartCall(s, n, methodName, payload), Reply(n, id, methodName, Failure(HandlerError)))
    else StartCall(s, n, methodName, payload).(pending := s.pending + {n})
  }

  function HandleLine(cfg: Config, s: State, line: string): State {
    match cfg.decode(line)
    case None => s
    case Some(HandshakeRequest(h)) => HandshakeSpec(s, h)
    case Some(Rpc(kind, id, methodName, payload)) => EnvelopeSpec(cfg, s, kind, id, methodName, payload)
    case Some(OtherMessage) => s
  }

  function HandleLines(cfg: Config, s: State, lines: seq<string>): State
    decreases lines
  {
    if lines == [] then s else HandleLines(cfg, HandleLine(cfg, s, lines[0]), lines[1..])
  }

  /** The continuation of handler call `n`. */
  function SettleCall(s: State, n: nat, body: Body): State {
    if n !in s.pending || n >= |s.envelopes| then s
    else Send(s.(pending := s.pending - {n}), Reply(n, s.envelopes[n].id, s.envelopes[n].methodName, body))
  }

  /** A server: its surroundings, the unprocessed tail of its input, and its state. */
  datatype Server = Server(cfg: Config, buffer: string, state: State)

  function Receive(v: Server, chunk: string): Server {
    if v.state.closed then v
    else
      var (lines, rest) := Split(v.buffer + chunk);
      v.(buffer := rest, state := HandleLines(v.cfg, v.state, lines))
  }

  datatype Event = Data(chunk: string) | Settles(request: nat, body: Body) | Close

  function Step(v: Server, e: Event): Server {
    match e
    case Data(chunk) => Receive(v, chunk)
    case Settles(n, body) => v.(state := SettleCall(v.state, n, body))
    case Close => v.(state := v.state.(closed := true))
  }

  function Fresh(cfg: Config, refs: Refs): Server {
    Server(cfg, "", State(None, false, refs, [], {}, [], []))
  }

  /** What a server has to itself; the refs it works on belong to the process. */
  datatype Own = Own(
    buffer: string,
    handshake: Option<Handshake>,
    closed: bool,
    output: seq<Outgoing>,
    pending: set<nat>,
    envelopes: seq<Envelope>,
    calls: seq<Call>)

  function Detach(v: Server): Own {
    var s := v.state;
    Own(v.buffer, s.handshake, s.closed, s.output, s.pending, s.envelopes, s.calls)
  }

  function Attach(cfg: Config, own: Own, refs: Refs): Server {
    Server(cfg, own.buffer,
           State(own.handshake, own.closed, refs, own.output, own.pending, own.envelopes, own.calls))
  }

  function OverRefs(v: Server, refs: Refs): Server {
    v.(state := v.state.(refs := refs))
  }

  /** A closed server neither reads nor writes the refs, and says and calls nothing. */
  lemma ClosedIgnoresRefs(v: Server, refs: Refs, e: Event)
    requires v.state.closed
    ensures Step(OverRefs(v, refs), e) == OverRefs(Step(v, e), refs)
    ensures Step(v, e).state.refs == v.state.refs
    ensures Step(v, e).state == v.state.(pending := Step(v, e).state.pending) && Step(v, e).buffer == v.buffer
  {
    hide Split, HandleLines;
  }

  // ----- what every line and every event keeps -----

  /** How often envelope `n` has been replied to. */
  function Replies(output: seq<Outgoing>, n: nat): nat {
    if output == [] then 0
    else
      var last := output[|output| - 1];
      Replies(output[..|output| - 1], n) + if last.Reply? && last.request == n then 1 else 0
  }

  /** The session ids of the accepting handshake acknowledgements, in order. */
  function AcceptedSessions(output: seq<Outgoing>): seq<string> {
    if output == [] then []
    else
      var last := output[|output| - 1];
      AcceptedSessions(output[..|output| - 1]) + if last.HandshakeAck? && last.accepted then [last.sessionId] else []
  }

  /** What the refs must hold after handshake `h` and the given later calls:
      the values of the last update among them, or else those of the handshake. */
  function Written(h: Handshake, calls: seq<Call>): (r: Refs)
    ensures r.sessionId == h.sessionId
  {
    if calls == [] then Refs(h.sessionId, OrEmpty(h.assistantApiKey), OrEmpty(h.assistantId))
    else
      var last := calls[|calls| - 1];
      if last.methodName == UPDATE_MANAGED_CREDENTIAL && last.payload.CredentialUpdate? then
        Refs(h.sessionId, last.payload.assistantApiKey, OrEmpty(last.payload.assistantId))
      else Written(h, calls[..|calls| - 1])
  }

  ghost predicate Addressed(s: State, m: Outgoing) {
    m.Reply? ==>
      m.request < |s.envelopes| && m.id == s.envelopes[m.request].id
        && m.methodName == s.envelopes[m.request].methodName
  }

  ghost predicate RepliesFit(s: State, n: nat)
    requires n < |s.envelopes|
  {
    && Replies(s.output, n) <= 1
    && (n in s.pending ==> s.envelopes[n].answerable && Replies(s.output, n) == 0)
    && (!s.envelopes[n].answerable ==> Replies(s.output, n) == 0)
    && (!s.closed && s.envelopes[n].answerable && n !in s.pending ==> Replies(s.output, n) == 1)
  }

  ghost predicate Valid(s: State) {
    && (forall n :: n in s.pending ==> n < |s.envelopes|)
    && (forall n :: 0 <= n < |s.envelopes| ==> RepliesFit(s, n))
    && (forall n :: n >= |s.envelopes| ==> Replies(s.output, n) == 0)
    && (forall i :: 0 <= i < |s.output| ==> Addressed(s, s.output[i]))
    && AcceptedSessions(s.output) == (if s.handshake.Some? then [s.handshake.value.sessionId] else [])
    && (s.handshake.None? ==> s.calls == [])
    && (s.handshake.Some? ==>
          && s.refs == Written(s.handshake.value, s.calls)
          && forall i :: 0 <= i < |s.calls| ==> s.calls[i].seen == Written(s.handshake.value, s.calls[..i]))
  }

  lemma OutputAppend(output: seq<Outgoing>, m: Outgoing, n: nat)
    ensures Replies(output + [m], n) == Replies(output, n) + if m.Reply? && m.request == n then 1 else 0
    ensures AcceptedSessions(output + [m]) ==
            AcceptedSessions(output) + if m.HandshakeAck? && m.accepted then [m.sessionId] else []
  {
    assert (output + [m])[..|output|] == output;
  }

  lemma CallsAppend(h: Handshake, calls: seq<Call>, c: Call)
    ensures Written(h, calls + [c]) ==
            if c.methodName == UPDATE_MANAGED_CREDENTIAL && c.payload.CredentialUpdate?
            then Refs(h.sessionId, c.payload.assistantApiKey, OrEmpty(c.payload.assistantId)) else Written(h, calls)
  {
    assert (calls + [c])[..|calls|] == calls;
  }

  /** Something other than a reply is sent, and the handshake is set if it was an acceptance. */
  lemma AckKeepsReplies(s: State, s': State, m: Outgoing)
    requires Valid(s) && m.HandshakeAck?
    requires s'.output == s.output + [m] && s'.envelopes == s.envelopes && s'.pending == s.pending
             && s'.closed == s.closed
    ensures forall n: nat :: Replies(s'.output, n) == Replies(s.output, n)
    ensures forall n :: 0 <= n < |s'.envelopes| ==> RepliesFit(s', n)
    ensures forall i :: 0 <= i < |s'.output| ==> Addressed(s', s'.output[i])
  {
    hide Replies, AcceptedSessions, Written;
    forall n: nat ensures Replies(s'.output, n) == Replies(s.output, n) {
      OutputAppend(s.output, m, n);
    }
    forall n | 0 <= n < |s'.envelopes| ensures RepliesFit(s', n) {
      assert RepliesFit(s, n);
    }
    forall i | 0 <= i < |s'.output| ensures Addressed(s', s'.output[i]) {
      assert i < |s.output| ==> Addressed(s, s.output[i]);
    }
  }

  lemma RefusalKeepsValid(s: State, sessionId: string)
    requires Valid(s) && !s.closed
    ensures Valid(s.(output := s.output + [HandshakeAck(sessionId, false)]))
  {
    var m := HandshakeAck(sessionId, false);
    AckKeepsReplies(s, s.(output := s.output + [m]), m);
    OutputAppend(s.output, m, 0);
    hide Replies, AcceptedSessions, RepliesFit, Addressed, Written;
  }

  lemma AcceptanceKeepsValid(s: State, h: Handshake, refs: Refs)
    requires Valid(s) && !s.closed && s.handshake.None? && refs == Written(h, [])
    ensures Valid(s.(handshake := Some(h), refs := refs, output := s.output + [HandshakeAck(h.sessionId, true)]))
  {
    var m := HandshakeAck(h.sessionId, true);
    AckKeepsReplies(s, s.(handshake := Some(h), refs := refs, output := s.output + [m]), m);
    OutputAppend(s.output, m, 0);
    hide Replies, AcceptedSessions, RepliesFit, Addressed, Written;
  }

  lemma HandshakeKeepsValid(s: State, h: Handshake)
    requires Valid(s) && !s.closed
    ensures Valid(HandshakeSpec(s, h)) && HandshakeSpec(s, h).closed == s.closed
    ensures s.handshake.Some? ==> HandshakeSpec(s, h).handshake == s.handshake
  {
    hide Valid;
    var refs := ApplyRefs(s.refs.(sessionId := h.sessionId), h.assistantApiKey, h.assistantId);
    RefusalKeepsValid(s, h.sessionId);
    if s.handshake.None? {
      AcceptanceKeepsValid(s, h, refs);
    }
  }

  /** Replying to the newest envelope `n`, which has had no reply yet. */
  lemma ReplyKeepsValid(s: State, n: nat, body: Body)
    requires !s.closed && n < |s.envelopes| && s.envelopes[n].answerable && n !in s.pending && Replies(s.output, n) == 0
    requires Valid(s.(pending := s.pending + {n}))
    ensures Valid(Send(s, Reply(n, s.envelopes[n].id, s.envelopes[n].methodName, body)))
  {
    var m := Reply(n, s.envelopes[n].id, s.envelopes[n].methodName, body);
    var waiting := s.(pending := s.pending + {n});
    var s' := Send(s, m);
    forall k: nat ensures Replies(s'.output, k) == Replies(s.output, k) + if k == n then 1 else 0 {
      OutputAppend(s.output, m, k);
    }
    OutputAppend(s.output, m, 0);
    forall k | 0 <= k < |s'.envelopes| ensures RepliesFit(s', k) {
      assert RepliesFit(waiting, k);
    }
    forall i | 0 <= i < |s'.output| ensures Addressed(s', s'.output[i]) {
      assert i < |s.output| ==> Addressed(waiting, waiting.output[i]);
    }
  }

  /** A new envelope that is ignored, or that awaits its reply. */
  lemma NewEnvelopeKeepsValid(s: State, e: Envelope)
    requires Valid(s)
    ensures var n := |s.envelopes|;
            Valid(s.(envelopes := s.envelopes + [e], pending := if e.answerable then s.pending + {n} else s.pending))
    ensures |s.envelopes| !in s.pending && Replies(s.output, |s.envelopes|) == 0
  {
    var n := |s.envelopes|;
    var s' := s.(envelopes := s.envelopes + [e], pending := if e.answerable then s.pending + {n} else s.pending);
    forall k | 0 <= k < |s'.envelopes| ensures RepliesFit(s', k) {
      assert k < n ==> RepliesFit(s, k);
    }
    forall i | 0 <= i < |s'.output| ensures Addressed(s', s'.output[i]) {
      assert Addressed(s, s.output[i]);
    }
  }

  lemma StartCallKeepsValid(s: State, n: nat, methodName: string, payload: Payload)
    requires Valid(s) && s.handshake.Some?
    ensures Valid(StartCall(s, n, methodName, payload))
  {
    var s' := StartCall(s, n, methodName, payload);
    var h := s.handshake.value;
    CallsAppend(h, s.calls, s'.calls[|s.calls|]);
    forall i | 0 <= i < |s'.calls| ensures s'.calls[i].seen == Written(h, s'.calls[..i]) {
      assert s'.calls[..i] == s.calls[..i];
      assert s.calls[..|s.calls|] == s.calls;
    }
    forall k | 0 <= k < |s'.envelopes| ensures RepliesFit(s', k) {
      assert RepliesFit(s, k);
    }
    forall i | 0 <= i < |s'.output| ensures Addressed(s', s'.output[i]) {
      assert Addressed(s, s.output[i]);
    }
  }

  lemma EnvelopeKeepsValid(cfg: Config, s: State, kind: Kind, id: string, methodName: string, payload: Payload)
    requires Valid(s) && !s.closed
    ensures var s' := EnvelopeSpec(cfg, s, kind, id, methodName, payload);
            Valid(s') && s'.closed == s.closed && s'.handshake == s.handshake
  {
    var n := |s.envelopes|;
    var e := Envelope(id, methodName, !s.HandshakeComplete() || kind.Request?);
    var s1 := s.(envelopes := s.envelopes + [e]);
    var waiting := s1.(pending := s.pending + {n});
    NewEnvelopeKeepsValid(s, e);
    hide Valid;
    if e.answerable {
      if !s.HandshakeComplete() {
        ReplyKeepsValid(s1, n, Failure(HandshakeRequired));
      } else if !cfg.registered(methodName) {
        ReplyKeepsValid(s1, n, Failure(MethodNotFound));
      } else if !Accepts(cfg, methodName, payload) {
        ReplyKeepsValid(s1, n, Failure(InvalidRequest));
      } else {
        StartCallKeepsValid(waiting, n, methodName, payload);
        var called := StartCall(s1, n, methodName, payload);
        assert called.(pending := s.pending + {n}) == StartCall(waiting, n, methodName, payload);
        ReplyKeepsValid(called, n, Failure(HandlerError));
      }
    }
  }

  lemma LineKeepsValid(cfg: Config, s: State, line: string)
    requires Valid(s) && !s.closed
    ensures var s' := HandleLine(cfg, s, line);
            Valid(s') && !s'.closed && (s.handshake.Some? ==> s'.handshake == s.handshake)
  {
    hide Valid, HandshakeSpec, EnvelopeSpec;
    match cfg.decode(line)
    case None =>
    case Some(HandshakeRequest(h)) => HandshakeKeepsValid(s, h);
    case Some(Rpc(kind, id, methodName, payload)) => EnvelopeKeepsValid(cfg, s, kind, id, methodName, payload);
    case Some(OtherMessage) =>
  }

  lemma {:induction false} LinesKeepValid(cfg: Config, s: State, lines: seq<string>)
    requires Valid(s) && !s.closed
    ensures var s' := HandleLines(cfg, s, lines);
            Valid(s') && !s'.closed && (s.handshake.Some? ==> s'.handshake == s.handshake)
    decreases lines
  {
    hide Valid, HandleLine;
    if lines != [] {
      LineKeepsValid(cfg, s, lines[0]);
      LinesKeepValid(cfg, HandleLine(cfg, s, lines[0]), lines[1..]);
    }
  }

  lemma SettleKeepsValid(s: State, n: nat, body: Body)
    requires Valid(s)
    ensures Valid(SettleCall(s, n, body))
    ensures SettleCall(s, n, body).handshake == s.handshake && SettleCall(s, n, body).closed == s.closed
    ensures s.closed ==> SettleCall(s, n, body).output == s.output
  {
    if n in s.pending {
      var s1 := s.(pending := s.pending - {n});
      assert s1.(pending := s1.pending + {n}) == s;
      assert RepliesFit(s, n);
      if s.closed {
        forall k | 0 <= k < |s1.envelopes| ensures RepliesFit(s1, k) {
          assert RepliesFit(s, k);
        }
        forall i | 0 <= i < |s1.output| ensures Addressed(s1, s1.output[i]) {
          assert Addressed(s, s.output[i]);
        }
      } else {
        ReplyKeepsValid(s1, n, body);
      }
    }
  }

  lemma CloseKeepsValid(s: State)
    requires Valid(s)
    ensures Valid(s.(closed := true))
  {
    var s' := s.(closed := true);
    forall k | 0 <= k < |s'.envelopes| ensures RepliesFit(s', k) {
      assert RepliesFit(s, k);
    }
    forall i | 0 <= i < |s'.output| ensures Addressed(s', s'.output[i]) {
      assert Addressed(s, s.output[i]);
    }
  }

  lemma FreshIsValid(cfg: Config, refs: Refs)
    ensures Valid(Fresh(cfg, refs).state)
  {
  }

  lemma StepKeepsValid(v: Server, e: Event)
    requires Valid(v.state) && '\n' !in v.buffer
    ensures var v' := Step(v, e);
            && Valid(v'.state) && '\n' !in v'.buffer && v'.cfg == v.cfg
            && (v.state.handshake.Some? ==> v'.state.handshake == v.state.handshake)
            && (v.state.closed ==>
                  v'.state.closed && v'.state.output == v.state.output && v'.state.calls == v.state.calls)
  {
    hide Valid, HandleLines, Split, SettleCall;
    match e {
      case Data(chunk) =>
        if !v.state.closed {
          LinesKeepValid(v.cfg, v.state, Split(v.buffer + chunk).0);
        }
      case Settles(n, body) =>
        SettleKeepsValid(v.state, n, body);
        SettleStartsNothing(v.state, n, body);
      case Close => CloseKeepsValid(v.state);
    }
  }

  lemma SettleStartsNothing(s: State, n: nat, body: Body)
    ensures SettleCall(s, n, body).calls == s.calls
  {
  }

  // ----- whole runs -----

  function Before(cfg: Config, refs: Refs, es: seq<Event>, i: nat): Server
    requires i <= |es|
  {
    Run(Step, Fresh(cfg, refs), es[..i])
  }

  lemma {:induction false} Reachable(cfg: Config, refs: Refs, es: seq<Event>)
    ensures var v := Run(Step, Fresh(cfg, refs), es);
            Valid(v.state) && '\n' !in v.buffer && v.cfg == cfg
  {
    hide Valid, Step;
    if es == [] {
      FreshIsValid(cfg, refs);
    } else {
      Reachable(cfg, refs, es[..|es| - 1]);
      StepKeepsValid(Run(Step, Fresh(cfg, refs), es[..|es| - 1]), es[|es| - 1]);
    }
  }

  /** At most one handshake is ever accepted, and the session it names never changes. */
  lemma {:induction false} SessionNeverChanges(cfg: Config, refs: Refs, es: seq<Event>, i: nat)
    requires i <= |es| && Before(cfg, refs, es, i).state.handshake.Some?
    ensures var s := Run(Step, Fresh(cfg, refs), es).state;
            && s.handshake == Before(cfg, refs, es, i).state.handshake
            && AcceptedSessions(s.output) == [s.handshake.value.sessionId]
  {
    hide Step;
    Reachable(cfg, refs, es);
    if i < |es| {
      var prefix := es[..|es| - 1];
      assert prefix[..i] == es[..i];
      SessionNeverChanges(cfg, refs, prefix, i);
      Reachable(cfg, refs, prefix);
      StepKeepsValid(Run(Step, Fresh(cfg, refs), prefix), es[|es| - 1]);
    } else {
      assert es[..i] == es;
    }
  }

  /** Before close, each handled request has exactly one reply unless its handler is
      still running (or it was a response, which is ignored), never more than one
      afterwards, and every reply carries its own request's id and method. */
  lemma OneReplyPerRequest(cfg: Config, refs: Refs, es: seq<Event>, n: nat)
    requires n < |Run(Step, Fresh(cfg, refs), es).state.envelopes|
    ensures var s := Run(Step, Fresh(cfg, refs), es).state;
            && Replies(s.output, n) <= 1
            && (!s.closed ==> (Replies(s.output, n) == 1 <==> s.envelopes[n].answerable && n !in s.pending))
            && forall i :: 0 <= i < |s.output| && s.output[i].Reply? && s.output[i].request == n ==>
                 s.output[i].id == s.envelopes[n].id && s.output[i].methodName == s.envelopes[n].methodName
  {
    hide Step;
    Reachable(cfg, refs, es);
    var s := Run(Step, Fresh(cfg, refs), es).state;
    assert RepliesFit(s, n);
    forall i | 0 <= i < |s.output| && s.output[i].Reply? && s.output[i].request == n
      ensures s.output[i].id == s.envelopes[n].id && s.output[i].methodName == s.envelopes[n].methodName
    {
      assert Addressed(s, s.output[i]);
    }
  }

  lemma LinesGrow(cfg: Config, s: State, lines: seq<string>)
    ensures s.output <= HandleLines(cfg, s, lines).output
    decreases lines
  {
    if lines != [] {
      assert s.output <= HandleLine(cfg, s, lines[0]).output;
      hide HandleLine;
      LinesGrow(cfg, HandleLine(cfg, s, lines[0]), lines[1..]);
    }
  }

  lemma StepGrows(v: Server, e: Event)
    ensures v.state.output <= Step(v, e).state.output
  {
    hide HandleLines, Split;
    if e.Data? {
      LinesGrow(v.cfg, v.state, Split(v.buffer + e.chunk).0);
    }
  }

  lemma {:induction false} RepliesGrow(a: seq<Outgoing>, b: seq<Outgoing>, n: nat)
    requires a <= b
    ensures Replies(a, n) <= Replies(b, n)
  {
    if |a| < |b| {
      assert a <= b[..|b| - 1];
      RepliesGrow(a, b[..|b| - 1], n);
    } else {
      assert a == b;
    }
  }

  /** What has been written stays written. */
  lemma {:induction false} OutputStays(cfg: Config, refs: Refs, es: seq<Event>, i: nat)
    requires i <= |es|
    ensures Before(cfg, refs, es, i).state.output <= Run(Step, Fresh(cfg, refs), es).state.output
  {
    hide Step;
    if i < |es| {
      var prefix := es[..|es| - 1];
      assert prefix[..i] == es[..i];
      OutputStays(cfg, refs, prefix, i);
      StepGrows(Run(Step, Fresh(cfg, refs), prefix), es[|es| - 1]);
    } else {
      assert es[..i] == es;
    }
  }

  /** A handler that settles before close, in whatever order, draws its one reply,
      with its request's id and method and its own result or error. */
  lemma SettledBeforeCloseIsAnswered(cfg: Config, refs: Refs, es: seq<Event>, i: nat, n: nat)
    requires i < |es| && es[i].Settles? && es[i].request == n
    requires n in Before(cfg, refs, es, i).state.pending && !Before(cfg, refs, es, i).state.closed
    ensures var output := Run(Step, Fresh(cfg, refs), es).state.output;
            var envelopes := Before(cfg, refs, es, i).state.envelopes;
            && Replies(output, n) == 1
            && n < |envelopes| && Reply(n, envelopes[n].id, envelopes[n].methodName, es[i].body) in output
  {
    var v := Before(cfg, refs, es, i);
    RunStep(Step, Fresh(cfg, refs), es, i);
    Reachable(cfg, refs, es[..i]);
    assert RepliesFit(v.state, n);
    var after := Before(cfg, refs, es, i + 1).state;
    assert after == SettleCall(v.state, n, es[i].body);
    var reply := Reply(n, v.state.envelopes[n].id, v.state.envelopes[n].methodName, es[i].body);
    OutputAppend(v.state.output, reply, n);
    assert after.output[|v.state.output|] == reply;
    hide *;
    OutputStays(cfg, refs, es, i + 1);
    var output := Run(Step, Fresh(cfg, refs), es).state.output;
    assert output[|v.state.output|] == reply;
    RepliesGrow(after.output, output, n);
    RepliesAtMostOne(cfg, refs, es, n);
  }

  lemma RepliesAtMostOne(cfg: Config, refs: Refs, es: seq<Event>, n: nat)
    ensures Replies(Run(Step, Fresh(cfg, refs), es).state.output, n) <= 1
  {
    hide Step;
    Reachable(cfg, refs, es);
    var s := Run(Step, Fresh(cfg, refs), es).state;
    assert n < |s.envelopes| ==> RepliesFit(s, n);
  }

  /** Nothing is written after close, and no handler is called. */
  lemma {:induction false} SilentAfterClose(cfg: Config, refs: Refs, es: seq<Event>, i: nat)
    requires i <= |es| && Before(cfg, refs, es, i).state.closed
    ensures var s := Run(Step, Fresh(cfg, refs), es).state;
            s.closed && s.output == Before(cfg, refs, es, i).state.output
              && s.calls == Before(cfg, refs, es, i).state.calls
  {
    hide Step;
    if i < |es| {
      var prefix := es[..|es| - 1];
      assert prefix[..i] == es[..i];
      SilentAfterClose(cfg, refs, prefix, i);
      Reachable(cfg, refs, prefix);
      StepKeepsValid(Run(Step, Fresh(cfg, refs), prefix), es[|es| - 1]);
    } else {
      assert es[..i] == es;
    }
  }

  /** No handler runs before the handshake; every one that runs sees what the
      handshake, or the last credential update handled since, wrote to the refs. */
  lemma CallsSeeOwnSession(cfg: Config, refs: Refs, es: seq<Event>, i: nat)
    requires i < |Run(Step, Fresh(cfg, refs), es).state.calls|
    ensures var s := Run(Step, Fresh(cfg, refs), es).state;
            s.handshake.Some? && s.calls[i].seen == Written(s.handshake.value, s.calls[..i])
  {
    hide Step;
    Reachable(cfg, refs, es);
  }

  /** Calls serve distinct envelopes in their order, and only with a registered method
      and a payload that its schema accepts. */
  ghost predicate CallsFit(cfg: Config, s: State) {
    && (forall i :: 0 <= i < |s.calls| ==>
          var c := s.calls[i];
          && c.request < |s.envelopes| && s.envelopes[c.request].methodName == c.methodName
          && cfg.registered(c.methodName) && Accepts(cfg, c.methodName, c.payload))
    && (forall i, j :: 0 <= i < j < |s.calls| ==> s.calls[i].request < s.calls[j].request)
  }

  lemma EnvelopeKeepsCallsFit(cfg: Config, s: State, kind: Kind, id: string, methodName: string, payload: Payload)
    requires CallsFit(cfg, s)
    ensures CallsFit(cfg, EnvelopeSpec(cfg, s, kind, id, methodName, payload))
  {
    hide Accepts;
    var s' := EnvelopeSpec(cfg, s, kind, id, methodName, payload);
    assert |s'.calls| <= |s.calls| + 1 && s.calls <= s'.calls && s.envelopes <= s'.envelopes;
  }

  lemma LineKeepsCallsFit(cfg: Config, s: State, line: string)
    requires CallsFit(cfg, s)
    ensures CallsFit(cfg, HandleLine(cfg, s, line))
  {
    hide EnvelopeSpec;
    match cfg.decode(line)
    case Some(Rpc(kind, id, methodName, payload)) => EnvelopeKeepsCallsFit(cfg, s, kind, id, methodName, payload);
    case _ =>
  }

  lemma {:induction false} LinesKeepCallsFit(cfg: Config, s: State, lines: seq<string>)
    requires CallsFit(cfg, s)
    ensures CallsFit(cfg, HandleLines(cfg, s, lines))
    decreases lines
  {
    hide CallsFit, HandleLine;
    if lines != [] {
      LineKeepsCallsFit(cfg, s, lines[0]);
      LinesKeepCallsFit(cfg, HandleLine(cfg, s, lines[0]), lines[1..]);
    }
  }

  lemma ConfigFixed(v: Server, e: Event)
    ensures Step(v, e).cfg == v.cfg
  {
  }

  lemma StepKeepsCallsFit(v: Server, e: Event)
    requires CallsFit(v.cfg, v.state)
    ensures CallsFit(v.cfg, Step(v, e).state)
  {
    hide HandleLines, Split, Accepts;
    if e.Data? {
      LinesKeepCallsFit(v.cfg, v.state, Split(v.buffer + e.chunk).0);
    }
  }

  /** In every run a request starts at most one handler, calls start in the order of
      the requests, and nothing unregistered or ill-formed is ever called. */
  lemma {:induction false} CallsAreLegitimate(cfg: Config, refs: Refs, es: seq<Event>)
    ensures var v := Run(Step, Fresh(cfg, refs), es); v.cfg == cfg && CallsFit(cfg, v.state)
  {
    hide Step;
    if es != [] {
      hide CallsFit;
      CallsAreLegitimate(cfg, refs, es[..|es| - 1]);
      var v := Run(Step, Fresh(cfg, refs), es[..|es| - 1]);
      ConfigFixed(v, es[|es| - 1]);
      StepKeepsCallsFit(v, es[|es| - 1]);
    }
  }

  ghost predicate Called(s: State, n: nat) {
    exists i :: 0 <= i < |s.calls| && s.calls[i].request == n
  }

  /** A reply says why: results and handler errors come from a handler call of the same
      request, refusals from the registry or the schema, and then no handler ran. */
  ghost predicate Justified(cfg: Config, s: State, m: Outgoing) {
    m.Reply? ==>
      && m.request < |s.envelopes|
      && match m.body
         case Result(_) => Called(s, m.request)
         case Failure(HandlerError) => Called(s, m.request)
         case Failure(MethodNotFound) => !cfg.registered(m.methodName) && !Called(s, m.request)
         case Failure(InvalidRequest) => cfg.registered(m.methodName) && !Called(s, m.request)
         case Failure(HandshakeRequired) => !Called(s, m.request)
  }

  ghost predicate AllJustified(cfg: Config, s: State) {
    && (forall n :: n in s.pending ==> Called(s, n))
    && (forall i :: 0 <= i < |s.calls| ==> s.calls[i].request < |s.envelopes|)
    && (forall i :: 0 <= i < |s.output| ==> Justified(cfg, s, s.output[i]))
  }

  /** Envelopes and calls only grow, and a new call serves a new envelope. */
  ghost predicate Extends(s: State, s': State) {
    && s.envelopes <= s'.envelopes && s.calls <= s'.calls
    && forall i :: |s.calls| <= i < |s'.calls| ==> s'.calls[i].request >= |s.envelopes|
  }

  lemma StillJustified(cfg: Config, s: State, s': State)
    requires AllJustified(cfg, s) && Extends(s, s')
    ensures forall n: nat :: n < |s.envelopes| ==> (Called(s', n) <==> Called(s, n))
    ensures forall m :: Justified(cfg, s, m) ==> Justified(cfg, s', m)
  {
    forall n: nat | n < |s.envelopes| ensures Called(s', n) <==> Called(s, n) {
      if Called(s, n) {
        var i :| 0 <= i < |s.calls| && s.calls[i].request == n;
        assert s'.calls[i] == s.calls[i];
      }
      if Called(s', n) {
        var i :| 0 <= i < |s'.calls| && s'.calls[i].request == n;
        assert i < |s.calls| && s.calls[i] == s'.calls[i];
      }
    }
  }

  lemma SendKeepsJustified(cfg: Config, s: State, m: Outgoing)
    requires AllJustified(cfg, s) && Justified(cfg, s, m)
    ensures AllJustified(cfg, Send(s, m))
  {
    hide Called;
    var s' := Send(s, m);
    forall n | Called(s, n) ensures Called(s', n) {
      SameCalls(s, s', n);
    }
    forall i | 0 <= i < |s'.output| ensures Justified(cfg, s', s'.output[i]) {
      if s'.output[i].Reply? {
        SameCalls(s, s', s'.output[i].request);
      }
      assert i < |s.output| ==> Justified(cfg, s, s.output[i]);
    }
  }

  lemma SameCalls(s: State, s': State, n: nat)
    requires s'.calls == s.calls
    ensures Called(s', n) <==> Called(s, n)
  {
  }

  lemma NewEnvelopeKeepsJustified(cfg: Config, s: State, e: Envelope)
    requires AllJustified(cfg, s)
    ensures AllJustified(cfg, s.(envelopes := s.envelopes + [e]))
    ensures !Called(s.(envelopes := s.envelopes + [e]), |s.envelopes|)
  {
    var s' := s.(envelopes := s.envelopes + [e]);
    StillJustified(cfg, s, s');
    hide Justified;
  }

  lemma StartCallKeepsJustified(cfg: Config, s0: State, s: State, methodName: string, payload: Payload)
    requires AllJustified(cfg, s0) && s == s0.(envelopes := s.envelopes) && s0.envelopes <= s.envelopes
             && |s.envelopes| == |s0.envelopes| + 1
    ensures var n := |s0.envelopes|;
            var s' := StartCall(s, n, methodName, payload);
            Called(s', n) && AllJustified(cfg, s') && AllJustified(cfg, s'.(pending := s.pending + {n}))
  {
    var n := |s0.envelopes|;
    var s' := StartCall(s, n, methodName, payload);
    var s'' := s'.(pending := s.pending + {n});
    assert s'.calls[|s0.calls|].request == n && s''.calls[|s0.calls|].request == n;
    StillJustified(cfg, s0, s');
    StillJustified(cfg, s0, s'');
    hide Justified;
  }

  lemma EnvelopeKeepsJustified(cfg: Config, s: State, kind: Kind, id: string, methodName: string, payload: Payload)
    requires AllJustified(cfg, s)
    ensures AllJustified(cfg, EnvelopeSpec(cfg, s, kind, id, methodName, payload))
  {
    var n := |s.envelopes|;
    var e := Envelope(id, methodName, !s.HandshakeComplete() || kind.Request?);
    var s1 := s.(envelopes := s.envelopes + [e]);
    NewEnvelopeKeepsJustified(cfg, s, e);
    StartCallKeepsJustified(cfg, s, s1, methodName, payload);
    hide AllJustified, Called, Send, StartCall;
    if !s.HandshakeComplete() {
      SendKeepsJustified(cfg, s1, Reply(n, id, methodName, Failure(HandshakeRequired)));
    } else if kind.Request? {
      if !cfg.registered(methodName) {
        SendKeepsJustified(cfg, s1, Reply(n, id, methodName, Failure(MethodNotFound)));
      } else if !Accepts(cfg, methodName, payload) {
        SendKeepsJustified(cfg, s1, Reply(n, id, methodName, Failure(InvalidRequest)));
      } else if methodName != UPDATE_MANAGED_CREDENTIAL && cfg.throwsAtOnce(n) {
        CallKeepsEnvelopes(s1, n, methodName, payload);
        SendKeepsJustified(cfg, StartCall(s1, n, methodName, payload), Reply(n, id, methodName, Failure(HandlerError)));
      }
    }
  }

  lemma CallKeepsEnvelopes(s: State, n: nat, methodName: string, payload: Payload)
    ensures StartCall(s, n, methodName, payload).envelopes == s.envelopes
  {
  }

  lemma HandshakeKeepsJustified(cfg: Config, s: State, h: Handshake)
    requires AllJustified(cfg, s)
    ensures AllJustified(cfg, HandshakeSpec(s, h))
  {
    var accepted := s.(handshake := Some(h),
                       refs := ApplyRefs(s.refs.(sessionId := h.sessionId), h.assistantApiKey, h.assistantId));
    StillJustified(cfg, s, accepted);
    hide Justified;
    HandshakeAckJustified(cfg, s, h.sessionId, false);
    HandshakeAckJustified(cfg, accepted, h.sessionId, true);
    SendKeepsJustified(cfg, s, HandshakeAck(h.sessionId, false));
    SendKeepsJustified(cfg, accepted, HandshakeAck(h.sessionId, true));
  }

  lemma HandshakeAckJustified(cfg: Config, s: State, sessionId: string, accepted: bool)
    ensures Justified(cfg, s, HandshakeAck(sessionId, accepted))
  {
  }

  lemma {:induction false} LinesKeepJustified(cfg: Config, s: State, lines: seq<string>)
    requires AllJustified(cfg, s)
    ensures AllJustified(cfg, HandleLines(cfg, s, lines))
    decreases lines
  {
    hide AllJustified, HandshakeSpec, EnvelopeSpec;
    if lines != [] {
      match cfg.decode(lines[0]) {
        case None =>
        case Some(HandshakeRequest(h)) => HandshakeKeepsJustified(cfg, s, h);
        case Some(Rpc(kind, id, methodName, payload)) => EnvelopeKeepsJustified(cfg, s, kind, id, methodName, payload);
        case Some(OtherMessage) =>
      }
      LinesKeepJustified(cfg, HandleLine(cfg, s, lines[0]), lines[1..]);
    }
  }

  /** What `await handler(...)` can come to. */
  predicate IsHandlerOutcome(body: Body) {
    body.Result? || body.code.HandlerError?
  }

  lemma SettleKeepsJustified(cfg: Config, s: State, n: nat, body: Body)
    requires AllJustified(cfg, s) && IsHandlerOutcome(body)
    ensures AllJustified(cfg, SettleCall(s, n, body))
  {
    if n in s.pending && n < |s.envelopes| {
      var s1 := s.(pending := s.pending - {n});
      StillJustified(cfg, s, s1);
      assert Called(s1, n);
      assert AllJustified(cfg, s1);
      SendKeepsJustified(cfg, s1, Reply(n, s.envelopes[n].id, s.envelopes[n].methodName, body));
    }
  }

  /** In every run, each reply is justified: results and handler errors answer requests
      whose handler was called, the other errors requests for which none was. */
  lemma {:induction false} RepliesAreJustified(cfg: Config, refs: Refs, es: seq<Event>)
    requires forall i :: 0 <= i < |es| && es[i].Settles? ==> IsHandlerOutcome(es[i].body)
    ensures var v := Run(Step, Fresh(cfg, refs), es); v.cfg == cfg && AllJustified(cfg, v.state)
  {
    hide HandleLines, Split, SettleCall;
    if es != [] {
      hide AllJustified;
      RepliesAreJustified(cfg, refs, es[..|es| - 1]);
      var v := Run(Step, Fresh(cfg, refs), es[..|es| - 1]);
      match es[|es| - 1] {
        case Data(chunk) => LinesKeepJustified(cfg, v.state, Split(v.buffer + chunk).0);
        case Settles(n, body) => SettleKeepsJustified(cfg, v.state, n, body);
        case Close => CloseKeepsJustified(cfg, v.state);
      }
    }
  }

  lemma CloseKeepsJustified(cfg: Config, s: State)
    requires AllJustified(cfg, s)
    ensures AllJustified(cfg, s.(closed := true))
  {
    StillJustified(cfg, s, s.(closed := true));
    hide Justified;
  }

  lemma {:induction false} LinesAppend(cfg: Config, s: State, a: seq<string>, b: seq<string>)
    ensures HandleLines(cfg, s, a + b) == HandleLines(cfg, HandleLines(cfg, s, a), b)
    decreases a
  {
    hide HandleLine;
    if a == [] {
      assert a + b == b;
    } else {
      LinesAppend(cfg, HandleLine(cfg, s, a[0]), a[1..], b);
      assert (a + b)[1..] == a[1..] + b;
    }
  }

  /** Input cut into any chunks leaves the server as the whole input at once does. */
  lemma {:induction false} ReceiveIsChunkIndependent(v: Server, chunks: seq<string>)
    requires Valid(v.state) && !v.state.closed && '\n' !in v.buffer
    ensures ReceiveAll(v, chunks) == Receive(v, Concat(chunks))
    decreases chunks
  {
    if chunks == [] {
      NothingReceived(v);
    } else {
      ReceiveTwice(v, chunks[0], Concat(chunks[1..]));
      StepKeepsValid(v, Data(chunks[0]));
      StaysOpen(v, chunks[0]);
      hide Receive, Valid;
      ReceiveIsChunkIndependent(Receive(v, chunks[0]), chunks[1..]);
    }
  }

  function ReceiveAll(v: Server, chunks: seq<string>): Server
    decreases chunks
  {
    if chunks == [] then v else ReceiveAll(Receive(v, chunks[0]), chunks[1..])
  }

  lemma NothingReceived(v: Server)
    requires '\n' !in v.buffer
    ensures Receive(v, Concat([])) == v
  {
    hide IndexOf, Trim;
    NoChunks("");
    assert v.buffer + "" == v.buffer;
    SplitUnbroken(v.buffer);
  }

  lemma StaysOpen(v: Server, chunk: string)
    requires Valid(v.state) && !v.state.closed
    ensures !Receive(v, chunk).state.closed
  {
    hide Split, HandleLines;
    LinesKeepValid(v.cfg, v.state, Split(v.buffer + chunk).0);
  }

  lemma ReceiveOpen(v: Server, chunk: string)
    requires !v.state.closed
    ensures var (lines, rest) := Split(v.buffer + chunk);
            Receive(v, chunk) == v.(buffer := rest, state := HandleLines(v.cfg, v.state, lines))
  {
    hide Split, HandleLines;
  }

  lemma ReceiveTwice(v: Server, a: string, b: string)
    requires Valid(v.state) && !v.state.closed
    ensures Receive(Receive(v, a), b) == Receive(v, a + b)
  {
    hide *;
    StaysOpen(v, a);
    ReceiveOpen(v, a);
    ReceiveOpen(Receive(v, a), b);
    ReceiveOpen(v, a + b);
    SplitAppend(v.buffer + a, b);
    assert v.buffer + (a + b) == (v.buffer + a) + b;
    LinesAppend(v.cfg, v.state, Split(v.buffer + a).0, Split(Split(v.buffer + a).1 + b).0);
  }

  // ----- what a line brings about -----

  /** The chunk completes a non-blank line, and nothing follows it. */
  predicate Completes(v: Server, chunk: string, raw: string) {
    v.buffer + chunk == raw + "\n" && '\n' !in raw && Trim(raw) != ""
  }

  lemma LineReceived(v: Server, chunk: string, raw: string)
    requires !v.state.closed && Completes(v, chunk, raw)
    ensures Step(v, Data(chunk)) == v.(buffer := "", state := HandleLine(v.cfg, v.state, Trim(raw)))
  {
    hide HandleLine, Split, Trim, HandleLines;
    var text := raw + "\n";
    assert text[..|raw|] == raw && text[|raw| + 1..] == "";
    SplitStep(text, |raw|);
    SplitUnbroken("");
    assert [Trim(raw)] + [] == [Trim(raw)];
    OneLine(v.cfg, v.state, Trim(raw));
  }

  lemma OneLine(cfg: Config, s: State, line: string)
    ensures HandleLines(cfg, s, [line]) == HandleLine(cfg, s, line)
  {
    hide HandleLine;
    assert [line][1..] == [];
  }

  lemma {:induction false} LinesAcceptVersion(cfg: Config, s: State, lines: seq<string>)
    requires s.handshake.Some? ==> s.handshake.value.protocolVersion == "0.1.0"
    ensures var s' := HandleLines(cfg, s, lines);
            s'.handshake.Some? ==> s'.handshake.value.protocolVersion == "0.1.0"
    decreases lines
  {
    if lines != [] {
      LinesAcceptVersion(cfg, HandleLine(cfg, s, lines[0]), lines[1..]);
    }
  }

  /** Only the supported protocol version is ever accepted. */
  lemma {:induction false} AcceptedVersion(cfg: Config, refs: Refs, es: seq<Event>)
    ensures var s := Run(Step, Fresh(cfg, refs), es).state;
            s.handshake.Some? ==> s.handshake.value.protocolVersion == "0.1.0"
  {
    hide HandleLines, Split;
    if es != [] {
      AcceptedVersion(cfg, refs, es[..|es| - 1]);
      var v := Run(Step, Fresh(cfg, refs), es[..|es| - 1]);
      if es[|es| - 1].Data? {
        LinesAcceptVersion(v.cfg, v.state, Split(v.buffer + es[|es| - 1].chunk).0);
      }
    }
  }

  /** A handshake request is acknowledged at once; it is accepted if and only if it is
      the first accepted one and names version "0.1.0", and then session and refs are
      its own. */
  lemma {:induction false} HandshakeIsAnswered(cfg: Config, refs: Refs, es: seq<Event>, chunk: string, raw: string,
                                               h: Handshake)
    requires var v := Run(Step, Fresh(cfg, refs), es);
             && !v.state.closed && Completes(v, chunk, raw) && cfg.decode(Trim(raw)) == Some(HandshakeRequest(h))
    ensures var s := Run(Step, Fresh(cfg, refs), es).state;
            var s' := Run(Step, Fresh(cfg, refs), es + [Data(chunk)]).state;
            var accepted := s.handshake.None? && h.protocolVersion == "0.1.0";
            && s'.output == s.output + [HandshakeAck(h.sessionId, accepted)]
            && s'.handshake == (if accepted then Some(h) else s.handshake)
            && s'.refs
               == (if accepted then Refs(h.sessionId, Given(h.assistantApiKey), Given(h.assistantId)) else s.refs)
            && s'.calls == s.calls && s'.envelopes == s.envelopes && s'.pending == s.pending && !s'.closed
  {
    hide Step, Trim;
    CallsAreLegitimate(cfg, refs, es);
    LineReceived(Run(Step, Fresh(cfg, refs), es), chunk, raw);
    assert (es + [Data(chunk)])[..|es|] == es;
  }

  /** An absent credential is no credential. */
  function Given(credential: Option<string>): string {
    match credential
    case Some(value) => value
    case None => ""
  }

  /** What a request that the server calls looks like to its schema. */
  predicate IsWellFormed(cfg: Config, methodName: string, payload: Payload) {
    if methodName == "update_managed_credential" then payload.CredentialUpdate?
    else cfg.schemaAccepts(methodName, payload)
  }

  /** An RPC envelope before the handshake draws "handshake required"; afterwards a
      response is ignored, and a request draws "method not found" if unregistered,
      "invalid request" if ill-formed, and otherwise starts its handler with the refs as
      they are: a credential update overwrites them at once, and any other handler either
      awaits its outcome or has failed already. */
  lemma {:induction false} EnvelopeIsAnswered(cfg: Config, refs: Refs, es: seq<Event>, chunk: string, raw: string,
                                              kind: Kind, id: string, methodName: string, payload: Payload)
    requires var v := Run(Step, Fresh(cfg, refs), es);
             && !v.state.closed && Completes(v, chunk, raw)
             && cfg.decode(Trim(raw)) == Some(Message.Rpc(kind, id, methodName, payload))
    ensures var s := Run(Step, Fresh(cfg, refs), es).state;
            var s' := Run(Step, Fresh(cfg, refs), es + [Data(chunk)]).state;
            var n := |s.envelopes|;
            var refusal := if s.handshake.None? then Some(HandshakeRequired)
                           else if kind.Response? then None
                           else if !cfg.registered(methodName) then Some(MethodNotFound)
                           else if !IsWellFormed(cfg, methodName, payload) then Some(InvalidRequest)
                           else None;
            var called := s.handshake.Some? && kind.Request? && refusal.None?;
            && |s'.envelopes| == n + 1 && s'.envelopes[n].id == id && s'.envelopes[n].methodName == methodName
            && s'.handshake == s.handshake && !s'.closed
            && (refusal.Some? ==> s'.output == s.output + [Reply(n, id, methodName, Failure(refusal.value))])
            && (!called ==> s'.calls == s.calls && s'.refs == s.refs && s'.pending == s.pending)
            && (refusal.None? && !called ==> s'.output == s.output)
            && (called ==> s'.calls == s.calls + [Call(n, methodName, payload, s.refs)])
            && (called ==> if methodName == "update_managed_credential"
                           then s'.refs == Refs(s.refs.sessionId, payload.assistantApiKey, Given(payload.assistantId))
                           else s'.refs == s.refs)
            && (called ==> || (s'.pending == s.pending + {n} && s'.output == s.output)
                           || (&& methodName != "update_managed_credential" && cfg.throwsAtOnce(n)
                               && s'.pending == s.pending
                               && s'.output == s.output + [Reply(n, id, methodName, Failure(HandlerError))]))
  {
    hide Step, Trim;
    CallsAreLegitimate(cfg, refs, es);
    LineReceived(Run(Step, Fresh(cfg, refs), es), chunk, raw);
    assert (es + [Data(chunk)])[..|es|] == es;
  }

  /** Any other line changes nothing but the buffer. */
  lemma {:induction false} OtherLinesAreIgnored(cfg: Config, refs: Refs, es: seq<Event>, chunk: string, raw: string)
    requires var v := Run(Step, Fresh(cfg, refs), es);
             && !v.state.closed && Completes(v, chunk, raw)
             && (cfg.decode(Trim(raw)).None? || cfg.decode(Trim(raw)).value.OtherMessage?)
    ensures Run(Step, Fresh(cfg, refs), es + [Data(chunk)]).state == Run(Step, Fresh(cfg, refs), es).state
  {
    hide Step, Trim;
    CallsAreLegitimate(cfg, refs, es);
    LineReceived(Run(Step, Fresh(cfg, refs), es), chunk, raw);
    assert (es + [Data(chunk)])[..|es|] == es;
  }

  // ----- a session cannot tell what ran before it -----

  /** Two servers alike but for what the refs held before their handshake. */
  ghost predicate AlikeButRefs(s: State, t: State) {
    t == s.(refs := t.refs) && (s.handshake.Some? ==> t == s)
  }

  lemma LineKeepsAlike(cfg: Config, s: State, t: State, line: string)
    requires AlikeButRefs(s, t)
    ensures AlikeButRefs(HandleLine(cfg, s, line), HandleLine(cfg, t, line))
  {
  }

  lemma {:induction false} LinesKeepAlike(cfg: Config, s: State, t: State, lines: seq<string>)
    requires AlikeButRefs(s, t)
    ensures AlikeButRefs(HandleLines(cfg, s, lines), HandleLines(cfg, t, lines))
    decreases lines
  {
    hide HandleLine;
    if lines != [] {
      LineKeepsAlike(cfg, s, t, lines[0]);
      LinesKeepAlike(cfg, HandleLine(cfg, s, lines[0]), HandleLine(cfg, t, lines[0]), lines[1..]);
    }
  }

  /** Whatever the refs held when it started, a server given the same events sends
      the same output and makes the same calls, each seeing the same refs. */
  lemma {:induction false} EarlierRefsAreInvisible(cfg: Config, refs1: Refs, refs2: Refs, es: seq<Event>)
    ensures var v1, v2 := Run(Step, Fresh(cfg, refs1), es), Run(Step, Fresh(cfg, refs2), es);
            && AlikeButRefs(v1.state, v2.state) && v1.buffer == v2.buffer
            && v1.cfg == v2.cfg == cfg
  {
    hide HandleLines, Split;
    if es != [] {
      var prefix := es[..|es| - 1];
      EarlierRefsAreInvisible(cfg, refs1, refs2, prefix);
      var v1, v2 := Run(Step, Fresh(cfg, refs1), prefix), Run(Step, Fresh(cfg, refs2), prefix);
      match es[|es| - 1] {
        case Data(chunk) => LinesKeepAlike(cfg, v1.state, v2.state, Split(v1.buffer + chunk).0);
        case Settles(_, _) =>
        case Close =>
      }
    }
  }

  // ----- the class -----

  /** `sessionIdRef`, `apiKeyRef` and `assistantIdRef`, shared by all sessions. */
  class CredentialRefs {
    var sessionId: string
    var apiKey: string
    var assistantId: string

    function View(): Refs
      reads this
    {
      Refs(sessionId, apiKey, assistantId)
    }

    constructor (sessionId: string)
      ensures View() == Refs(sessionId, "", "")
    {
      this.sessionId, apiKey, assistantId := sessionId, "", "";
    }

    method ApplyManagedCredentialRefs(key: Option<string>, id: Option<string>)
      modifies this
      ensures View() == ApplyRefs(old(View()), key, id)
    {
      apiKey := OrEmpty(key);
      assistantId := OrEmpty(id);
    }
  }

  class CesRpcServer {
    const cfg: Config
    const refs: CredentialRefs
    var buffer: string
    var handshake: Option<Handshake>
    var closed: bool
    var output: seq<Outgoing>
    var pending: set<nat>
    var envelopes: seq<Envelope>
    var calls: seq<Call>

    function OwnView(): Own
      reads this
    {
      Own(buffer, handshake, closed, output, pending, envelopes, calls)
    }

    function StateView(): State
      reads this, refs
    {
      State(handshake, closed, refs.View(), output, pending, envelopes, calls)
    }

    function View(): (v: Server)
      reads this, refs
      ensures v == Attach(cfg, OwnView(), refs.View()) && Detach(v) == OwnView()
    {
      Server(cfg, buffer, StateView())
    }

    constructor (cfg: Config, refs: CredentialRefs)
      ensures this.cfg == cfg && this.refs == refs && View() == Fresh(cfg, refs.View())
    {
      this.cfg, this.refs := cfg, refs;
      buffer, handshake, closed, output, pending, envelopes, calls := "", None, false, [], {}, [], [];
    }

    method SendMessage(m: Outgoing)
      modifies this
      ensures View() == old(View()).(state := Send(old(StateView()), m))
    {
      if !closed {
        output := output + [m];
      }
    }

    method Shutdown()
      modifies this
      ensures View() == Step(old(View()), Close)
    {
      closed := true;
    }

    method OnData(chunk: string)
      modifies this, refs
      ensures View() == Receive(old(View()), chunk)
    {
      if closed {
        return;
      }
      buffer := buffer + chunk;
      ProcessBuffer();
    }

    method ProcessBuffer()
      modifies this, refs
      ensures View() == Server(cfg, Split(old(buffer)).1, HandleLines(cfg, old(StateView()), Split(old(buffer)).0))
    {
      ghost var done := Server(cfg, Split(buffer).1, HandleLines(cfg, StateView(), Split(buffer).0));
      var newline := IndexOf(buffer, '\n');
      while newline != -1
        invariant newline == IndexOf(buffer, '\n')
        invariant Server(cfg, Split(buffer).1, HandleLines(cfg, StateView(), Split(buffer).0)) == done
        decreases |buffer|
      {
        var line := Trim(buffer[..newline]);
        SplitStep(buffer, newline);
        buffer := buffer[newline + 1..];
        if line != "" {
          LinesUnfold(cfg, StateView(), line, Split(buffer).0);
          ProcessLine(line);
        }
        newline := IndexOf(buffer, '\n');
      }
      SplitUnbroken(buffer);
    }

    method ProcessLine(line: string)
      modifies this, refs
      ensures View() == old(View()).(state := HandleLine(cfg, old(StateView()), line))
    {
      var message := cfg.decode(line);
      match message {
        case None =>
        case Some(HandshakeRequest(h)) =>
          if handshake.Some? {
            SendMessage(HandshakeAck(h.sessionId, false));
          } else {
            ProcessHandshake(h);
          }
        case Some(Rpc(kind, id, methodName, payload)) => ProcessEnvelope(kind, id, methodName, payload);
        case Some(OtherMessage) =>
      }
    }

    method ProcessHandshake(h: Handshake)
      requires handshake.None?
      modifies this, refs
      ensures View() == old(View()).(state := HandshakeSpec(old(StateView()), h))
    {
      var accepted := h.protocolVersion == PROTOCOL_VERSION;
      if accepted {
        handshake := Some(h);
        refs.sessionId := h.sessionId;
        refs.ApplyManagedCredentialRefs(h.assistantApiKey, h.assistantId);
      }
      SendMessage(HandshakeAck(h.sessionId, accepted));
    }

    method ProcessEnvelope(kind: Kind, id: string, methodName: string, payload: Payload)
      modifies this, refs
      ensures View() == old(View()).(state := EnvelopeSpec(cfg, old(StateView()), kind, id, methodName, payload))
    {
      var n := |envelopes|;
      envelopes := envelopes + [Envelope(id, methodName, handshake.None? || kind.Request?)];
      if handshake.None? {
        SendMessage(Reply(n, id, methodName, Failure(HandshakeRequired)));
        return;
      }
      if kind.Response? {
        return;
      }
      if !cfg.registered(methodName) {
        SendMessage(Reply(n, id, methodName, Failure(MethodNotFound)));
        return;
      }
      if !Accepts(cfg, methodName, payload) {
        SendMessage(Reply(n, id, methodName, Failure(InvalidRequest)));
        return;
      }
      calls := calls + [Call(n, methodName, payload, refs.View())];
      if methodName == UPDATE_MANAGED_CREDENTIAL {
        refs.ApplyManagedCredentialRefs(Some(payload.assistantApiKey), payload.assistantId);
      } else if cfg.throwsAtOnce(n) {
        SendMessage(Reply(n, id, methodName, Failure(HandlerError)));
        return;
      }
      pending := pending + {n};
    }

    /** The continuation after `await handler(...)`. */
    method HandlerSettled(n: nat, body: Body)
      modifies this
      ensures View() == Step(old(View()), Settles(n, body))
    {
      if n in pending && n < |envelopes| {
        pending := pending - {n};
        SendMessage(Reply(n, envelopes[n].id, envelopes[n].methodName, body));
      }
    }

    /** Whatever the event loop delivers. */
    method Tell(e: Event)
      modifies this, refs
      ensures View() == Step(old(View()), e)
    {
      match e {
        case Data(chunk) => OnData(chunk);
        case Settles(request, body) => HandlerSettled(request, body);
        case Close => Shutdown();
      }
    }
  }

  lemma LinesUnfold(cfg: Config, s: State, line: string, rest: seq<string>)
    ensures HandleLines(cfg, s, [line] + rest) == HandleLines(cfg, HandleLine(cfg, s, line), rest)
  {
    assert ([line] + rest)[1..] == rest;
  }
}
