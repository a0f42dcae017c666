/** The managed serve loop: one RPC session after another over a shared handler
    registry, shared credential refs and a shared store of temporary grants. */
module ManagedSessions {
  import opened InsertionMap
  import opened Runs
  import Rpc = RpcServer

  datatype EndReason = InputStreamEnded | SignalAborted | SignalAbortedBeforeStart | TransportError

  /** Where the loop is: waiting for a connection; connected, with its continuation
      queued; serving; past `serve()`, with its continuation queued; or left. */
  datatype Phase = Listening | Accepted | Serving | Ending(reason: EndReason) | Exited | Crashed

  /** Bookkeeping: what the refs held when a session began, and what it was told since. */
  datatype Log = Log(startRefs: Rpc.Refs, history: seq<Rpc.Event>)

  type Grant = string

  /** What surrounds each session, by number: the registry is one, but which calls throw
      before their first suspension is for every session to see. */
  type Surroundings = nat -> Rpc.Config

  /** `sessions` are the servers made so far, all of which work on the one `refs`. */
  datatype State = State(
    cfg: Surroundings,
    aborted: bool,
    rpcConnected: bool,
    phase: Phase,
    refs: Rpc.Refs,
    sessions: seq<Rpc.Own>,
    logs: seq<Log>,
    grants: set<Grant>)

  /** Streams, handlers and their side effects belong to some session, current or ended.
      `Continue` resumes `main` after whatever it awaits has settled. */
  datatype Event =
    | Connect
    | ListenFails
    | Abort
    | Continue
    | Chunk(session: nat, chunk: string)
    | StreamEnds(session: nat)
    | StreamErrors(session: nat)
    | HandlerSettles(session: nat, request: nat, body: Rpc.Body)
    | RecordGrant(session: nat, grant: Grant)
    | DropGrant(grant: Grant)

  /** Server `k` handles an event over the shared refs. */
  function TellSpec(s: State, k: nat, e: Rpc.Event): State {
    if k >= |s.sessions| || k >= |s.logs| then s
    else
      var v := Rpc.Step(Rpc.Attach(s.cfg(k), s.sessions[k], s.refs), e);
      s.(refs := v.state.refs,
         sessions := s.sessions[k := Rpc.Detach(v)],
         logs := s.logs[k := s.logs[k].(history := s.logs[k].history + [e])])
  }

  predicate IsAwaited(s: State, k: nat) {
    s.phase.Serving? && k + 1 == |s.sessions|
  }

  function OpenSession(s: State): State {
    s.(rpcConnected := true,
       phase := Serving,
       sessions := s.sessions + [Rpc.Detach(Rpc.Fresh(s.cfg(|s.sessions|), s.refs))],
       logs := s.logs + [Log(s.refs, [])])
  }

  /** Server `k` closes; if `main` awaits its `serve()`, that settles for `reason`. */
  function EndSession(s: State, k: nat, reason: EndReason): State {
    var s' := TellSpec(s, k, Rpc.Close);
    if IsAwaited(s, k) then s'.(phase := Ending(reason)) else s'
  }

  function EndNewest(s: State, reason: EndReason): State {
    if s.sessions == [] then s else EndSession(s, |s.sessions| - 1, reason)
  }

  function AfterSession(s: State, reason: EndReason): State {
    s.(rpcConnected := false,
       grants := {},
       phase := if s.aborted || reason.SignalAborted? || reason.SignalAbortedBeforeStart? then Exited else Listening)
  }

  function ContinueMain(s: State): State {
    match s.phase
    case Accepted => if s.aborted then EndNewest(OpenSession(s), SignalAbortedBeforeStart) else OpenSession(s)
    case Ending(reason) => AfterSession(s, reason)
    case _ => s
  }

  function AbortSpec(s: State): State {
    var s' := s.(aborted := true);
    match s.phase
    case Listening => s'.(phase := Exited)
    case Serving => EndNewest(s', SignalAborted)
    case _ => s'
  }

  function Step(s: State, e: Event): State {
    match e
    case Connect => if s.phase.Listening? then s.(phase := Accepted) else s
    case ListenFails => if s.phase.Listening? then s.(phase := Crashed) else s
    case Abort => AbortSpec(s)
    case Continue => ContinueMain(s)
    case Chunk(k, chunk) => TellSpec(s, k, Rpc.Data(chunk))
    case StreamEnds(k) => EndSession(s, k, InputStreamEnded)
    case StreamErrors(k) => EndSession(s, k, TransportError)
    case HandlerSettles(k, n, body) => TellSpec(s, k, Rpc.Settles(n, body))
    case RecordGrant(k, grant) => if k < |s.sessions| then s.(grants := s.grants + {grant}) else s
    case DropGrant(grant) => s.(grants := s.grants - {grant})
  }

  function Initial(cfg: Surroundings, sessionId: string): State {
    State(cfg, false, false, Listening, Rpc.Refs(sessionId, "", ""), [], [], {})
  }

  function Before(cfg: Surroundings, sessionId: string, es: seq<Event>, i: nat): State
    requires i <= |es|
  {
    Run(Step, Initial(cfg, sessionId), es[..i])
  }

  // ----- what every step keeps -----

  /** The server of a process in which session `k` was the only one. */
  function Alone(s: State, k: nat): Rpc.Server
    requires k < |s.logs|
  {
    Run(Rpc.Step, Rpc.Fresh(s.cfg(k), s.logs[k].startRefs), s.logs[k].history)
  }

  /** Session `k` is as it would be alone, and while it is open so are the shared refs. */
  ghost predicate InStep(s: State, k: nat)
    requires k < |s.sessions| == |s.logs|
  {
    && s.sessions[k] == Rpc.Detach(Alone(s, k))
    && Alone(s, k).cfg == s.cfg(k)
    && (!s.sessions[k].closed ==> s.refs == Alone(s, k).state.refs)
  }

  ghost predicate SessionsOk(s: State) {
    && |s.logs| == |s.sessions|
    && forall k :: 0 <= k < |s.sessions| ==> InStep(s, k)
  }

  /** Every session is closed but the one whose `serve()` is awaited. */
  ghost predicate OneOpen(s: State) {
    forall k :: 0 <= k < |s.sessions| ==> (s.sessions[k].closed <==> !IsAwaited(s, k))
  }

  ghost predicate PhaseOk(s: State) {
    && (s.phase.Serving? || s.phase.Ending? ==> s.sessions != [])
    && (s.rpcConnected <==> s.phase.Serving? || s.phase.Ending?)
    && (s.aborted ==> !s.phase.Listening? && !s.phase.Serving?)
    && (s.phase.Exited? ==> s.aborted)
    && (s.phase.Ending? && (s.phase.reason.SignalAborted? || s.phase.reason.SignalAbortedBeforeStart?) ==> s.aborted)
  }

  ghost predicate Valid(s: State) {
    SessionsOk(s) && OneOpen(s) && PhaseOk(s)
  }

  lemma AttachedIs(cfg: Rpc.Config, own: Rpc.Own, refs: Rpc.Refs, v: Rpc.Server)
    requires own == Rpc.Detach(v) && v.cfg == cfg
    ensures Rpc.Attach(cfg, own, refs) == Rpc.OverRefs(v, refs)
    ensures refs == v.state.refs ==> Rpc.Attach(cfg, own, refs) == v
  {
  }

  /** A closed session leaves the shared refs alone, and its own conversation too. */
  lemma ClosedWritesNothing(s: State, k: nat, e: Rpc.Event)
    requires k < |s.sessions| == |s.logs| && s.sessions[k].closed
    ensures var s' := TellSpec(s, k, e);
            && s'.refs == s.refs
            && s'.sessions[k] == s.sessions[k].(pending := s'.sessions[k].pending)
  {
    var v := Rpc.Attach(s.cfg(k), s.sessions[k], s.refs);
    Rpc.ClosedIgnoresRefs(v, s.refs, e);
    hide Rpc.Step;
  }

  lemma AloneTold(s: State, k: nat, e: Rpc.Event)
    requires k < |s.sessions| == |s.logs|
    ensures Alone(TellSpec(s, k, e), k) == Rpc.Step(Alone(s, k), e)
  {
    hide Rpc.Step;
    var history := s.logs[k].history;
    assert (history + [e])[..|history|] == history;
  }

  lemma ToldStaysInStep(s: State, k: nat, e: Rpc.Event)
    requires k < |s.sessions| == |s.logs| && InStep(s, k)
    ensures InStep(TellSpec(s, k, e), k)
  {
    var v := Alone(s, k);
    AloneTold(s, k, e);
    AttachedIs(s.cfg(k), s.sessions[k], s.refs, v);
    Rpc.ConfigFixed(v, e);
    StepClosed(v, e);
    if s.sessions[k].closed {
      Rpc.ClosedIgnoresRefs(v, s.refs, e);
    }
    hide Rpc.Step, Alone;
  }

  lemma StepClosed(v: Rpc.Server, e: Rpc.Event)
    ensures e.Close? ==> Rpc.Step(v, e).state.closed
    ensures e.Settles? ==> Rpc.Step(v, e).state.closed == v.state.closed
    ensures v.state.closed ==> Rpc.Step(v, e).state.closed
  {
    hide Rpc.HandleLines;
  }

  lemma DataKeepsOpen(cfg: Rpc.Config, refs: Rpc.Refs, history: seq<Rpc.Event>, e: Rpc.Event)
    requires e.Data?
    ensures var v := Run(Rpc.Step, Rpc.Fresh(cfg, refs), history);
            !v.state.closed ==> !Rpc.Step(v, e).state.closed
  {
    hide Rpc.Receive;
    Rpc.Reachable(cfg, refs, history);
    var v := Run(Rpc.Step, Rpc.Fresh(cfg, refs), history);
    if !v.state.closed {
      Rpc.StaysOpen(v, e.chunk);
    }
  }

  /** Telling one session something keeps all of them in step: the refs only move
      with an open session, and no other is open. */
  lemma TellKeepsSessions(s: State, k: nat, e: Rpc.Event)
    requires SessionsOk(s) && OneOpen(s) && k < |s.sessions|
    ensures SessionsOk(TellSpec(s, k, e))
  {
    var s' := TellSpec(s, k, e);
    forall j | 0 <= j < |s'.sessions| ensures InStep(s', j) {
      assert InStep(s, j);
      if j == k {
        ToldStaysInStep(s, k, e);
      } else if !s.sessions[j].closed {
        ClosedWritesNothing(s, k, e);
      }
    }
  }

  lemma ToldIsClosed(s: State, k: nat, e: Rpc.Event)
    requires SessionsOk(s) && k < |s.sessions|
    ensures var closed := TellSpec(s, k, e).sessions[k].closed;
            && (e.Close? ==> closed)
            && (!e.Close? ==> closed == s.sessions[k].closed)
  {
    var v := Alone(s, k);
    assert InStep(s, k);
    AttachedIs(s.cfg(k), s.sessions[k], s.refs, v);
    StepClosed(Rpc.Attach(s.cfg(k), s.sessions[k], s.refs), e);
    if e.Data? {
      DataKeepsOpen(s.cfg(k), s.logs[k].startRefs, s.logs[k].history, e);
    }
    hide Rpc.Step;
  }

  lemma TellKeepsValid(s: State, k: nat, e: Rpc.Event)
    requires Valid(s) && !e.Close?
    ensures Valid(TellSpec(s, k, e)) && TellSpec(s, k, e).cfg == s.cfg
  {
    if k < |s.sessions| {
      TellKeepsSessions(s, k, e);
      ToldIsClosed(s, k, e);
      hide Rpc.Step, InStep;
    }
  }

  lemma EndKeepsSessions(s: State, k: nat, reason: EndReason)
    requires SessionsOk(s) && OneOpen(s)
    ensures SessionsOk(EndSession(s, k, reason)) && OneOpen(EndSession(s, k, reason))
  {
    if k < |s.sessions| {
      var told := TellSpec(s, k, Rpc.Close);
      TellKeepsSessions(s, k, Rpc.Close);
      ToldIsClosed(s, k, Rpc.Close);
      SameSessions(told, EndSession(s, k, reason));
      hide Rpc.Step, InStep;
    }
  }

  lemma SameSessions(s: State, t: State)
    ensures t.sessions == s.sessions && t.logs == s.logs && t.cfg == s.cfg && t.refs == s.refs
            ==> SessionsOk(t) == SessionsOk(s)
  {
    hide Rpc.Step;
    if t.sessions == s.sessions && t.logs == s.logs && t.cfg == s.cfg && t.refs == s.refs && |s.logs| == |s.sessions| {
      assert forall k :: 0 <= k < |s.sessions| ==> InStep(t, k) == InStep(s, k);
    }
  }

  lemma OpenKeepsSessions(s: State)
    requires SessionsOk(s) && OneOpen(s) && s.phase.Accepted?
    ensures SessionsOk(OpenSession(s)) && OneOpen(OpenSession(s))
  {
    var s' := OpenSession(s);
    hide Rpc.Step;
    forall k | 0 <= k < |s'.sessions| ensures InStep(s', k) {
      assert k < |s.sessions| ==> InStep(s, k);
    }
  }

  lemma ContinueKeepsValid(s: State)
    requires Valid(s)
    ensures Valid(ContinueMain(s)) && ContinueMain(s).cfg == s.cfg
  {
    hide Rpc.Step, TellSpec, SessionsOk;
    if s.phase.Accepted? {
      OpenKeepsSessions(s);
      EndKeepsSessions(OpenSession(s), |OpenSession(s).sessions| - 1, SignalAbortedBeforeStart);
      TellLeaves(OpenSession(s), |OpenSession(s).sessions| - 1, Rpc.Close);
    } else {
      SameSessions(s, ContinueMain(s));
    }
  }

  lemma TellLeaves(s: State, k: nat, e: Rpc.Event)
    ensures var s' := TellSpec(s, k, e);
            s' == s.(refs := s'.refs, sessions := s'.sessions, logs := s'.logs) && |s'.sessions| == |s.sessions|
  {
    hide Rpc.Step;
  }

  lemma StepKeepsValid(s: State, e: Event)
    requires Valid(s)
    ensures Valid(Step(s, e)) && Step(s, e).cfg == s.cfg
  {
    hide Rpc.Step, TellSpec, SessionsOk, ContinueMain;
    match e {
      case Abort =>
        var s' := s.(aborted := true);
        SameSessions(s, s');
        if s.phase.Serving? {
          EndKeepsSessions(s', |s'.sessions| - 1, SignalAborted);
          TellLeaves(s', |s'.sessions| - 1, Rpc.Close);
        } else {
          SameSessions(s, AbortSpec(s));
        }
      case Continue => ContinueKeepsValid(s);
      case Chunk(k, chunk) => TellKeepsValid(s, k, Rpc.Data(chunk));
      case StreamEnds(k) =>
        EndKeepsSessions(s, k, InputStreamEnded);
        TellLeaves(s, k, Rpc.Close);
      case StreamErrors(k) =>
        EndKeepsSessions(s, k, TransportError);
        TellLeaves(s, k, Rpc.Close);
      case HandlerSettles(k, n, body) => TellKeepsValid(s, k, Rpc.Settles(n, body));
      case _ => SameSessions(s, Step(s, e));
    }
  }

  lemma {:induction false} Reachable(cfg: Surroundings, sessionId: string, es: seq<Event>)
    ensures var s := Run(Step, Initial(cfg, sessionId), es); Valid(s) && s.cfg == cfg
  {
    if es != [] {
      hide Valid, Step;
      Reachable(cfg, sessionId, es[..|es| - 1]);
      StepKeepsValid(Run(Step, Initial(cfg, sessionId), es[..|es| - 1]), es[|es| - 1]);
    }
  }

  // ----- whole runs -----

  /** Over any sequence of sessions, however they end and whatever their streams and
      handlers do afterwards: a handler is only called after its own session's accepted
      handshake, and the shared refs it sees then were written by that handshake or by
      the last credential update handled since in the same session. */
  lemma {:induction false} CallsSeeOwnSession(cfg: Surroundings, sessionId: string, es: seq<Event>, k: nat, i: nat)
    requires var s := Run(Step, Initial(cfg, sessionId), es);
             k < |s.sessions| && i < |s.sessions[k].calls|
    ensures var session := Run(Step, Initial(cfg, sessionId), es).sessions[k];
            && session.handshake.Some?
            && session.calls[i].seen == Rpc.Written(session.handshake.value, session.calls[..i])
  {
    hide Step, Rpc.Step;
    Reachable(cfg, sessionId, es);
    var s := Run(Step, Initial(cfg, sessionId), es);
    assert InStep(s, k);
    Rpc.CallsSeeOwnSession(cfg(k), s.logs[k].startRefs, s.logs[k].history, i);
  }

  /** While a session is served and its handshake is accepted, the shared refs hold what
      that session wrote, whatever earlier sessions still do. */
  lemma {:induction false} SharedRefsFollowSession(cfg: Surroundings, sessionId: string, es: seq<Event>, k: nat)
    requires var s := Run(Step, Initial(cfg, sessionId), es);
             k < |s.sessions| && IsAwaited(s, k) && s.sessions[k].handshake.Some?
    ensures var s := Run(Step, Initial(cfg, sessionId), es);
            s.refs == Rpc.Written(s.sessions[k].handshake.value, s.sessions[k].calls)
  {
    hide Step, Rpc.Step;
    Reachable(cfg, sessionId, es);
    var s := Run(Step, Initial(cfg, sessionId), es);
    assert InStep(s, k);
    Rpc.Reachable(cfg(k), s.logs[k].startRefs, s.logs[k].history);
  }

  /** Which session an event comes from. */
  predicate ComesFrom(e: Event, k: nat) {
    match e
    case Chunk(session, _) => session == k
    case StreamEnds(session) => session == k
    case StreamErrors(session) => session == k
    case HandlerSettles(session, _, _) => session == k
    case _ => false
  }

  /** What an ended session's stream and handlers still deliver writes nothing: not the
      shared refs, not a reply, not a call, nothing of any other session. */
  lemma {:induction false} EndedSessionsWriteNothing(cfg: Surroundings, sessionId: string, es: seq<Event>, k: nat,
                                                     e: Event)
    requires var s := Run(Step, Initial(cfg, sessionId), es);
             k < |s.sessions| && !IsAwaited(s, k) && ComesFrom(e, k)
    ensures var s := Run(Step, Initial(cfg, sessionId), es);
            var s' := Step(s, e);
            && s'.refs == s.refs && s'.phase == s.phase && s'.rpcConnected == s.rpcConnected && s'.grants == s.grants
            && |s'.sessions| == |s.sessions|
            && s'.sessions[k] == s.sessions[k].(pending := s'.sessions[k].pending)
            && forall j :: 0 <= j < |s.sessions| && j != k ==> s'.sessions[j] == s.sessions[j]
  {
    var s := Run(Step, Initial(cfg, sessionId), es);
    Reachable(cfg, sessionId, es);
    hide Rpc.Step, InStep;
    match e {
      case Chunk(_, chunk) => ClosedWritesNothing(s, k, Rpc.Data(chunk));
      case HandlerSettles(_, n, body) => ClosedWritesNothing(s, k, Rpc.Settles(n, body));
      case _ => ClosedWritesNothing(s, k, Rpc.Close);
    }
  }

  /** What reaches session `k` of an event: its stream's data and end, its handlers'
      results, and the close that an abort brings. */
  function Reaching(s: State, e: Event, k: nat): seq<Rpc.Event> {
    match e
    case Chunk(session, chunk) => if session == k && k < |s.sessions| then [Rpc.Data(chunk)] else []
    case StreamEnds(session) => if session == k && k < |s.sessions| then [Rpc.Close] else []
    case StreamErrors(session) => if session == k && k < |s.sessions| then [Rpc.Close] else []
    case HandlerSettles(session, n, body) => if session == k && k < |s.sessions| then [Rpc.Settles(n, body)] else []
    case Abort => if IsAwaited(s, k) then [Rpc.Close] else []
    case Continue => if s.phase.Accepted? && s.aborted && k == |s.sessions| then [Rpc.Close] else []
    case _ => []
  }

  /** The part of a run that reaches session `k`. */
  function Received(cfg: Surroundings, sessionId: string, es: seq<Event>, k: nat): seq<Rpc.Event> {
    if es == [] then []
    else
      var before := es[..|es| - 1];
      Received(cfg, sessionId, before, k) + Reaching(Run(Step, Initial(cfg, sessionId), before), es[|es| - 1], k)
  }

  function HistoryOf(s: State, k: nat): seq<Rpc.Event> {
    if k < |s.logs| then s.logs[k].history else []
  }

  lemma TellHistory(s: State, k: nat, e: Rpc.Event, j: nat)
    requires |s.logs| == |s.sessions|
    ensures HistoryOf(TellSpec(s, k, e), j) == HistoryOf(s, j) + if j == k && k < |s.sessions| then [e] else []
  {
    hide Rpc.Step;
    assert HistoryOf(s, j) + [] == HistoryOf(s, j);
  }

  lemma ContinueHistory(s: State, k: nat)
    requires |s.logs| == |s.sessions|
    ensures HistoryOf(ContinueMain(s), k) == HistoryOf(s, k) + Reaching(s, Continue, k)
  {
    hide Rpc.Step, TellSpec;
    assert HistoryOf(s, k) + [] == HistoryOf(s, k);
    var s1 := OpenSession(s);
    TellHistory(s1, |s1.sessions| - 1, Rpc.Close, k);
    assert s.phase.Accepted? ==> HistoryOf(s1, k) == HistoryOf(s, k);
    assert [] + [Rpc.Close] == [Rpc.Close];
  }

  lemma StepHistory(s: State, e: Event, k: nat)
    requires Valid(s)
    ensures HistoryOf(Step(s, e), k) == HistoryOf(s, k) + Reaching(s, e, k)
  {
    hide Rpc.Step, TellSpec, InStep, ContinueMain;
    assert HistoryOf(s, k) + [] == HistoryOf(s, k);
    match e {
      case Abort => TellHistory(s.(aborted := true), |s.sessions| - if s.sessions == [] then 0 else 1, Rpc.Close, k);
      case Continue => ContinueHistory(s, k);
      case Chunk(j, chunk) => TellHistory(s, j, Rpc.Data(chunk), k);
      case StreamEnds(j) => TellHistory(s, j, Rpc.Close, k);
      case StreamErrors(j) => TellHistory(s, j, Rpc.Close, k);
      case HandlerSettles(j, n, body) => TellHistory(s, j, Rpc.Settles(n, body), k);
      case _ =>
    }
  }

  lemma {:induction false} HistoryIsReceived(cfg: Surroundings, sessionId: string, es: seq<Event>, k: nat)
    ensures HistoryOf(Run(Step, Initial(cfg, sessionId), es), k) == Received(cfg, sessionId, es, k)
  {
    hide Step, Reaching;
    if es != [] {
      HistoryIsReceived(cfg, sessionId, es[..|es| - 1], k);
      Reachable(cfg, sessionId, es[..|es| - 1]);
      StepHistory(Run(Step, Initial(cfg, sessionId), es[..|es| - 1]), es[|es| - 1], k);
    }
  }

  /** A session replies, and calls its handlers, exactly as it would in a process of its
      own given what reaches it of the run: nothing of other sessions shows through the
      shared refs. */
  lemma {:induction false} SessionsAreIsolated(cfg: Surroundings, sessionId: string, es: seq<Event>,
                                               k: nat, blank: Rpc.Refs)
    requires k < |Run(Step, Initial(cfg, sessionId), es).sessions|
    ensures Run(Step, Initial(cfg, sessionId), es).sessions[k]
            == Rpc.Detach(Run(Rpc.Step, Rpc.Fresh(cfg(k), blank), Received(cfg, sessionId, es, k)))
  {
    hide Step, Rpc.Step, Received;
    Reachable(cfg, sessionId, es);
    HistoryIsReceived(cfg, sessionId, es, k);
    var s := Run(Step, Initial(cfg, sessionId), es);
    assert InStep(s, k);
    Rpc.EarlierRefsAreInvisible(cfg(k), s.logs[k].startRefs, blank, s.logs[k].history);
  }

  /** One session is open at a time, the loop only leaves on a shutdown signal, and
      `rpcConnected` tells exactly when a session is up or being wound down. */
  lemma {:induction false} OneSessionAtATime(cfg: Surroundings, sessionId: string, es: seq<Event>, k: nat)
    requires k < |Run(Step, Initial(cfg, sessionId), es).sessions|
    ensures var s := Run(Step, Initial(cfg, sessionId), es);
            && (s.sessions[k].closed <==> !(s.phase.Serving? && k == |s.sessions| - 1))
            && (s.phase.Exited? ==> s.aborted)
            && (s.rpcConnected <==> s.phase.Serving? || s.phase.Ending?)
  {
    hide Step, Rpc.Step;
    Reachable(cfg, sessionId, es);
  }

  // ----- where the loop goes -----

  predicate IsAbort(e: Event) {
    e.Abort?
  }

  /** What a step does to the phase, for the phases a session does not decide. */
  lemma StepPhase(s: State, e: Event)
    requires Valid(s)
    ensures Step(s, e).aborted <==> s.aborted || IsAbort(e)
    ensures Step(s, e).phase.Crashed? && !s.phase.Crashed? ==> e.ListenFails? && s.phase.Listening?
    ensures s.phase.Ending? && e.Continue? ==>
              && Step(s, e).phase == (if s.aborted then Exited else Listening)
              && !Step(s, e).rpcConnected && Step(s, e).refs == s.refs && Step(s, e).sessions == s.sessions
    ensures e.Connect? ==> Step(s, e) == if s.phase.Listening? then s.(phase := Accepted) else s
    ensures e.ListenFails? ==> Step(s, e) == if s.phase.Listening? then s.(phase := Crashed) else s
  {
    hide Rpc.Step, TellSpec, SessionsOk;
    TellLeaves(s.(aborted := true), |s.sessions| - if s.sessions == [] then 0 else 1, Rpc.Close);
    match e {
      case Continue =>
        var s1 := OpenSession(s);
        TellLeaves(s1, |s1.sessions| - 1, Rpc.Close);
      case Chunk(k, chunk) => TellLeaves(s, k, Rpc.Data(chunk));
      case StreamEnds(k) => TellLeaves(s, k, Rpc.Close);
      case StreamErrors(k) => TellLeaves(s, k, Rpc.Close);
      case HandlerSettles(k, n, body) => TellLeaves(s, k, Rpc.Settles(n, body));
      case _ =>
    }
  }

  /** The loop knows of a shutdown signal exactly when there has been one. */
  lemma {:induction false} AbortIsRemembered(cfg: Surroundings, sessionId: string, es: seq<Event>)
    ensures Run(Step, Initial(cfg, sessionId), es).aborted <==> exists i :: 0 <= i < |es| && IsAbort(es[i])
  {
    hide Step;
    if es != [] {
      var prefix := es[..|es| - 1];
      AbortIsRemembered(cfg, sessionId, prefix);
      Reachable(cfg, sessionId, prefix);
      StepPhase(Run(Step, Initial(cfg, sessionId), prefix), es[|es| - 1]);
      assert forall i :: 0 <= i < |prefix| ==> prefix[i] == es[i];
    }
  }

  /** The process only ever goes down with an error because listening failed; no end of a
      session, a transport error included, takes it down. */
  lemma {:induction false} CrashHasCause(cfg: Surroundings, sessionId: string, es: seq<Event>) returns (i: nat)
    requires Run(Step, Initial(cfg, sessionId), es).phase.Crashed?
    ensures i < |es| && es[i].ListenFails? && Before(cfg, sessionId, es, i).phase.Listening?
  {
    hide Step;
    if es == [] {
      assert false;
    } else {
      var prefix := es[..|es| - 1];
      var s := Run(Step, Initial(cfg, sessionId), prefix);
      Reachable(cfg, sessionId, prefix);
      StepPhase(s, es[|es| - 1]);
      if s.phase.Crashed? {
        i := CrashHasCause(cfg, sessionId, prefix);
        assert prefix[..i] == es[..i];
      } else {
        i := |es| - 1;
      }
    }
  }

  /** After a session, however it ended, the loop leaves if and only if there has been a
      shutdown signal, and otherwise listens again. */
  lemma {:induction false} AfterEverySession(cfg: Surroundings, sessionId: string, es: seq<Event>, j: nat)
    requires j < |es| && es[j].Continue? && Before(cfg, sessionId, es, j).phase.Ending?
    ensures var s := Before(cfg, sessionId, es, j + 1);
            && s.phase == (if exists i :: 0 <= i < j && IsAbort(es[i]) then Exited else Listening)
            && !s.rpcConnected && s.grants == {} && s.refs == Before(cfg, sessionId, es, j).refs
  {
    hide Step;
    var prefix := es[..j];
    Reachable(cfg, sessionId, prefix);
    AbortIsRemembered(cfg, sessionId, prefix);
    RunStep(Step, Initial(cfg, sessionId), es, j);
    StepPhase(Before(cfg, sessionId, es, j), es[j]);
    CleanupEmptiesGrants(cfg, sessionId, es, j);
    assert forall i :: 0 <= i < j ==> prefix[i] == es[i];
  }

  /** So whenever it listens and no signal comes, the next connection is served by a new,
      open server, over the refs as they are. */
  lemma {:induction false} NextConnectionIsServed(cfg: Surroundings, sessionId: string, es: seq<Event>)
    requires Run(Step, Initial(cfg, sessionId), es).phase.Listening?
    ensures var s := Run(Step, Initial(cfg, sessionId), es);
            var s' := Run(Step, Initial(cfg, sessionId), es + [Connect, Continue]);
            && s'.phase.Serving? && s'.rpcConnected && s'.refs == s.refs && s'.grants == s.grants
            && |s'.sessions| == |s.sessions| + 1 && s'.sessions[..|s.sessions|] == s.sessions
            && s'.sessions[|s.sessions|] == Rpc.Own("", None, false, [], {}, [], [])
  {
    RunTwo(Step, Initial(cfg, sessionId), es, Connect, Continue);
    Reachable(cfg, sessionId, es);
    hide Rpc.Step, SessionsOk, OneOpen;
    assert !Run(Step, Initial(cfg, sessionId), es).aborted;
  }

  /** A session being served ends exactly when its own stream ends or errors, or a signal
      comes; its server is then closed. */
  lemma {:induction false} ServingEndsBecause(cfg: Surroundings, sessionId: string, es: seq<Event>, e: Event)
    requires Run(Step, Initial(cfg, sessionId), es).phase.Serving?
    ensures var s := Run(Step, Initial(cfg, sessionId), es);
            var s' := Step(s, e);
            var k := |s.sessions| - 1;
            && (s'.phase.Serving? <==> !((e.StreamEnds? || e.StreamErrors?) && e.session == k) && !e.Abort?)
            && (!s'.phase.Serving? ==> s'.phase.Ending? && |s'.sessions| == k + 1 && s'.sessions[k].closed)
  {
    var s := Run(Step, Initial(cfg, sessionId), es);
    Reachable(cfg, sessionId, es);
    StepKeepsValid(s, e);
    hide Rpc.Step, TellSpec, SessionsOk;
    var k := |s.sessions| - 1;
    match e {
      case Abort => TellLeaves(s.(aborted := true), k, Rpc.Close);
      case Chunk(j, chunk) => TellLeaves(s, j, Rpc.Data(chunk));
      case StreamEnds(j) => TellLeaves(s, j, Rpc.Close);
      case StreamErrors(j) => TellLeaves(s, j, Rpc.Close);
      case HandlerSettles(j, n, body) => TellLeaves(s, j, Rpc.Settles(n, body));
      case _ =>
    }
  }

  /** A shutdown signal always gets the loop out: with what `main` awaits settling, in two
      continuations at most, and with every server closed. */
  lemma {:induction false} AbortLeaves(cfg: Surroundings, sessionId: string, es: seq<Event>)
    requires !Run(Step, Initial(cfg, sessionId), es).phase.Crashed?
    ensures var s := Run(Step, Initial(cfg, sessionId), es + [Abort] + [Continue, Continue]);
            s.phase.Exited? && !s.rpcConnected && forall k :: 0 <= k < |s.sessions| ==> s.sessions[k].closed
  {
    hide Step;
    var s := Run(Step, Initial(cfg, sessionId), es);
    assert (es + [Abort])[..|es|] == es;
    RunTwo(Step, Initial(cfg, sessionId), es + [Abort], Continue, Continue);
    Reachable(cfg, sessionId, es);
    Reachable(cfg, sessionId, es + [Abort]);
    AbortPhase(s);
    StepKeepsValid(Step(s, Abort), Continue);
    AbortedContinues(Step(s, Abort));
    AbortedContinues(Step(Step(s, Abort), Continue));
    Reachable(cfg, sessionId, es + [Abort] + [Continue, Continue]);
  }

  lemma AbortPhase(s: State)
    requires Valid(s) && !s.phase.Crashed?
    ensures var s' := Step(s, Abort); s'.aborted && (s'.phase.Exited? || s'.phase.Accepted? || s'.phase.Ending?)
  {
    hide Rpc.Step, TellSpec, SessionsOk;
    TellLeaves(s.(aborted := true), |s.sessions| - if s.sessions == [] then 0 else 1, Rpc.Close);
  }

  lemma AbortedContinues(s: State)
    requires Valid(s) && s.aborted && (s.phase.Exited? || s.phase.Accepted? || s.phase.Ending?)
    ensures var s' := Step(s, Continue);
            s'.aborted && if s.phase.Accepted? then s'.phase.Ending? else s'.phase.Exited?
  {
    hide Rpc.Step, TellSpec, SessionsOk;
    var s1 := OpenSession(s);
    TellLeaves(s1, |s1.sessions| - 1, Rpc.Close);
  }

  // ----- temporary grants -----

  lemma StepAnyGrants(s: State, e: Event, g: Grant)
    ensures g in Step(s, e).grants <==>
            || (g in s.grants && e != DropGrant(g) && !(e.Continue? && s.phase.Ending?))
            || (e.RecordGrant? && e.grant == g && e.session < |s.sessions|)
  {
    hide Rpc.Step;
  }

  /** Event `k` recorded `g`, and neither a drop nor a cleanup has come before `j`. */
  ghost predicate Granted(cfg: Surroundings, sessionId: string, es: seq<Event>, k: nat, j: nat, g: Grant)
    requires j <= |es|
  {
    && k < j && es[k].RecordGrant? && es[k].grant == g && es[k].session < |Before(cfg, sessionId, es, k).sessions|
    && forall m :: k < m < j ==>
         es[m] != DropGrant(g) && !(es[m].Continue? && Before(cfg, sessionId, es, m).phase.Ending?)
  }

  lemma GrantedStep(cfg: Surroundings, sessionId: string, es: seq<Event>, k: nat, j: nat, g: Grant)
    requires k < j <= |es|
    ensures Granted(cfg, sessionId, es, k, j, g) <==>
            if k == j - 1 then
              es[k].RecordGrant? && es[k].grant == g && es[k].session < |Before(cfg, sessionId, es, k).sessions|
            else
              && Granted(cfg, sessionId, es, k, j - 1, g) && es[j - 1] != DropGrant(g)
              && !(es[j - 1].Continue? && Before(cfg, sessionId, es, j - 1).phase.Ending?)
  {
    hide Before;
  }

  /** At any time, the grants are exactly those recorded since, and neither dropped nor
      swept away by the end of a session. */
  lemma {:induction false} GrantsExactly(cfg: Surroundings, sessionId: string, es: seq<Event>, j: nat, g: Grant)
    requires j <= |es|
    ensures g in Before(cfg, sessionId, es, j).grants <==>
            exists k :: 0 <= k < j && Granted(cfg, sessionId, es, k, j, g)
    decreases j
  {
    hide Step;
    if j > 0 {
      var s := Before(cfg, sessionId, es, j - 1);
      RunStep(Step, Initial(cfg, sessionId), es, j - 1);
      StepAnyGrants(s, es[j - 1], g);
      GrantsExactly(cfg, sessionId, es, j - 1, g);
      forall k | 0 <= k < j
        ensures Granted(cfg, sessionId, es, k, j, g) <==>
                if k == j - 1 then
                  es[k].RecordGrant? && es[k].grant == g && es[k].session < |Before(cfg, sessionId, es, k).sessions|
                else
                  && Granted(cfg, sessionId, es, k, j - 1, g) && es[j - 1] != DropGrant(g)
                  && !(es[j - 1].Continue? && s.phase.Ending?)
      {
        GrantedStep(cfg, sessionId, es, k, j, g);
      }
      hide *;
    }
  }

  /** Between sessions: the previous one has been cleaned up after, the next has not begun. */
  predicate BetweenSessions(s: State) {
    s.phase.Listening? || s.phase.Accepted?
  }

  /** Work left over from an ended session records a grant now. */
  predicate LeftoverRecords(s: State, e: Event) {
    e.RecordGrant? && BetweenSessions(s) && e.session < |s.sessions|
  }

  /** Event `j` starts a session. */
  predicate StartsSession(cfg: Surroundings, sessionId: string, es: seq<Event>, j: nat) {
    j < |es| && es[j].Continue? && Before(cfg, sessionId, es, j).phase.Accepted?
  }

  lemma StepGrants(s: State, e: Event)
    ensures !BetweenSessions(s) && BetweenSessions(Step(s, e)) ==>
              s.phase.Ending? && e.Continue? && Step(s, e).grants == {}
    ensures BetweenSessions(s) ==>
              forall g :: g in Step(s, e).grants <==>
                          (g in s.grants && e != DropGrant(g)) || (LeftoverRecords(s, e) && e.grant == g)
  {
    hide Rpc.Step;
  }

  /** Event `i - 1` is the cleanup after the last session before `j`; without one, `i` is 0. */
  ghost predicate IsLastCleanup(cfg: Surroundings, sessionId: string, es: seq<Event>, i: nat, j: nat)
    requires i <= j <= |es|
  {
    && (i > 0 ==> es[i - 1].Continue? && Before(cfg, sessionId, es, i - 1).phase.Ending?)
    && Before(cfg, sessionId, es, i).grants == {}
    && forall m :: i <= m <= j ==> BetweenSessions(Before(cfg, sessionId, es, m))
  }

  lemma {:induction false} LastCleanup(cfg: Surroundings, sessionId: string, es: seq<Event>, j: nat) returns (i: nat)
    requires j <= |es| && BetweenSessions(Before(cfg, sessionId, es, j))
    ensures i <= j && IsLastCleanup(cfg, sessionId, es, i, j)
    decreases j
  {
    hide Step, BetweenSessions;
    if j == 0 {
      return 0;
    }
    RunStep(Step, Initial(cfg, sessionId), es, j - 1);
    StepGrants(Before(cfg, sessionId, es, j - 1), es[j - 1]);
    if BetweenSessions(Before(cfg, sessionId, es, j - 1)) {
      i := LastCleanup(cfg, sessionId, es, j - 1);
    } else {
      i := j;
    }
  }

  /** A leftover recorded `g` at `k`, and nothing has dropped it before `j`. */
  ghost predicate LeftBehind(cfg: Surroundings, sessionId: string, es: seq<Event>, k: nat, j: nat, g: Grant)
    requires j <= |es|
  {
    && k < j && LeftoverRecords(Before(cfg, sessionId, es, k), es[k]) && es[k].grant == g
    && forall m :: k < m < j ==> es[m] != DropGrant(g)
  }

  lemma {:induction false} GrantsSince(cfg: Surroundings, sessionId: string, es: seq<Event>, i: nat, j: nat, g: Grant)
    requires i <= j <= |es| && IsLastCleanup(cfg, sessionId, es, i, j)
    ensures g in Before(cfg, sessionId, es, j).grants <==>
            exists k :: i <= k < j && LeftBehind(cfg, sessionId, es, k, j, g)
    decreases j
  {
    hide Step, BetweenSessions;
    if i < j {
      var s := Before(cfg, sessionId, es, j - 1);
      RunStep(Step, Initial(cfg, sessionId), es, j - 1);
      StepGrants(s, es[j - 1]);
      GrantsSince(cfg, sessionId, es, i, j - 1, g);
      forall k | i <= k < j
        ensures LeftBehind(cfg, sessionId, es, k, j, g) <==>
                if k == j - 1 then LeftoverRecords(s, es[k]) && es[k].grant == g
                else LeftBehind(cfg, sessionId, es, k, j - 1, g) && es[j - 1] != DropGrant(g)
      {
        LeftBehindStep(cfg, sessionId, es, k, j, g);
      }
      hide *;
    }
  }

  lemma LeftBehindStep(cfg: Surroundings, sessionId: string, es: seq<Event>, k: nat, j: nat, g: Grant)
    requires k < j <= |es|
    ensures LeftBehind(cfg, sessionId, es, k, j, g) <==>
            if k == j - 1 then LeftoverRecords(Before(cfg, sessionId, es, k), es[k]) && es[k].grant == g
            else LeftBehind(cfg, sessionId, es, k, j - 1, g) && es[j - 1] != DropGrant(g)
  {
    hide Before;
  }

  /** Whenever a session starts, the grants present are exactly those that work left over
      from ended sessions recorded, and nobody dropped, since the last cleanup. */
  lemma {:induction false} GrantsAtSessionStart(cfg: Surroundings, sessionId: string, es: seq<Event>,
                                                j: nat, g: Grant) returns (i: nat)
    requires StartsSession(cfg, sessionId, es, j)
    ensures i <= j && IsLastCleanup(cfg, sessionId, es, i, j)
    ensures g in Before(cfg, sessionId, es, j + 1).grants <==>
            exists k :: i <= k < j && LeftBehind(cfg, sessionId, es, k, j, g)
  {
    hide Step, LeftBehind, IsLastCleanup;
    RunStep(Step, Initial(cfg, sessionId), es, j);
    StartKeepsGrants(Before(cfg, sessionId, es, j));
    i := LastCleanup(cfg, sessionId, es, j);
    GrantsSince(cfg, sessionId, es, i, j, g);
  }

  lemma StartKeepsGrants(s: State)
    requires s.phase.Accepted?
    ensures Step(s, Continue).grants == s.grants
  {
    hide Rpc.Step;
  }

  /** Hence, if leftover work records none, every session of the run starts without any. */
  lemma {:induction false} EmptyAtSessionStart(cfg: Surroundings, sessionId: string, es: seq<Event>, j: nat)
    requires StartsSession(cfg, sessionId, es, j)
    requires forall k :: 0 <= k < j ==> !LeftoverRecords(Before(cfg, sessionId, es, k), es[k])
    ensures Before(cfg, sessionId, es, j + 1).grants == {}
  {
    hide Step, LeftoverRecords, IsLastCleanup;
    if Before(cfg, sessionId, es, j + 1).grants != {} {
      var g :| g in Before(cfg, sessionId, es, j + 1).grants;
      var i := GrantsAtSessionStart(cfg, sessionId, es, j, g);
    }
  }

  /** The cleanup that ends every session empties the store. */
  lemma {:induction false} CleanupEmptiesGrants(cfg: Surroundings, sessionId: string, es: seq<Event>, i: nat)
    requires i < |es| && es[i].Continue? && Before(cfg, sessionId, es, i).phase.Ending?
    ensures Before(cfg, sessionId, es, i + 1).grants == {}
  {
    RunStep(Step, Initial(cfg, sessionId), es, i);
    hide Rpc.Step;
  }

  // ----- the lazy getters -----

  datatype ManagedOptions = ManagedOptions(platformBaseUrl: string, assistantApiKey: string, assistantId: string)

  function GetAssistantApiKey(refs: Rpc.Refs, envApiKey: Option<string>): string {
    if refs.apiKey != "" then refs.apiKey else Rpc.OrEmpty(envApiKey)
  }

  function GetManagedOptions(refs: Rpc.Refs, platformBaseUrl: string,
                             envApiKey: Option<string>): Option<ManagedOptions> {
    var key := GetAssistantApiKey(refs, envApiKey);
    if platformBaseUrl != "" && key != "" && refs.assistantId != "" then
      Some(ManagedOptions(platformBaseUrl, key, refs.assistantId))
    else None
  }

  /** A session whose handshake names neither key nor assistant, and that sends no
      update, gets no managed options and only the environment's key from the shared
      refs, whatever credentials earlier sessions put there. */
  lemma {:induction false} OmittedCredentialsFailClosed(cfg: Surroundings, sessionId: string, es: seq<Event>,
                                                        k: nat, i: nat, platformBaseUrl: string,
                                                        envApiKey: Option<string>)
    requires var s := Run(Step, Initial(cfg, sessionId), es);
             && k < |s.sessions| && i < |s.sessions[k].calls|
             && var session := s.sessions[k];
                && (session.handshake.Some? ==> session.handshake.value.assistantApiKey.None?
                                                && session.handshake.value.assistantId.None?)
                && forall j :: 0 <= j < i ==> session.calls[j].methodName != Rpc.UPDATE_MANAGED_CREDENTIAL
    ensures var seen := Run(Step, Initial(cfg, sessionId), es).sessions[k].calls[i].seen;
            && GetManagedOptions(seen, platformBaseUrl, envApiKey) == None
            && GetAssistantApiKey(seen, envApiKey) == Rpc.OrEmpty(envApiKey)
  {
    hide Step;
    CallsSeeOwnSession(cfg, sessionId, es, k, i);
    var session := Run(Step, Initial(cfg, sessionId), es).sessions[k];
    WrittenWithoutUpdates(session.handshake.value, session.calls[..i]);
  }

  /** And one whose handshake names both, and that sends no update, gets them. */
  lemma {:induction false} NamedCredentialsAreUsed(cfg: Surroundings, sessionId: string, es: seq<Event>, k: nat, i: nat,
                                                   platformBaseUrl: string, envApiKey: Option<string>)
    requires var s := Run(Step, Initial(cfg, sessionId), es);
             && k < |s.sessions| && i < |s.sessions[k].calls|
             && var session := s.sessions[k];
                && (session.handshake.Some? ==> && session.handshake.value.assistantApiKey.Some?
                                                && session.handshake.value.assistantApiKey.value != ""
                                                && session.handshake.value.assistantId.Some?)
                && forall j :: 0 <= j < i ==> session.calls[j].methodName != Rpc.UPDATE_MANAGED_CREDENTIAL
    ensures var session := Run(Step, Initial(cfg, sessionId), es).sessions[k];
            && session.handshake.Some?
            && var key := session.handshake.value.assistantApiKey.value;
               var id := session.handshake.value.assistantId.value;
               && GetAssistantApiKey(session.calls[i].seen, envApiKey) == key
               && GetManagedOptions(session.calls[i].seen, platformBaseUrl, envApiKey)
                  == if platformBaseUrl == "" || id == "" then None else Some(ManagedOptions(platformBaseUrl, key, id))
  {
    hide Step;
    CallsSeeOwnSession(cfg, sessionId, es, k, i);
    var session := Run(Step, Initial(cfg, sessionId), es).sessions[k];
    WrittenWithoutUpdates(session.handshake.value, session.calls[..i]);
  }

  lemma {:induction false} WrittenWithoutUpdates(h: Rpc.Handshake, calls: seq<Rpc.Call>)
    requires forall j :: 0 <= j < |calls| ==> calls[j].methodName != Rpc.UPDATE_MANAGED_CREDENTIAL
    ensures Rpc.Written(h, calls) == Rpc.Refs(h.sessionId, Rpc.OrEmpty(h.assistantApiKey), Rpc.OrEmpty(h.assistantId))
  {
    if calls != [] {
      WrittenWithoutUpdates(h, calls[..|calls| - 1]);
    }
  }

  // ----- the loop -----

  function Owns(servers: seq<Rpc.CesRpcServer>): (r: seq<Rpc.Own>)
    reads servers
    ensures |r| == |servers| && forall k :: 0 <= k < |servers| ==> r[k] == servers[k].OwnView()
  {
    if servers == [] then [] else Owns(servers[..|servers| - 1]) + [servers[|servers| - 1].OwnView()]
  }

  lemma Viewed(server: Rpc.CesRpcServer)
    ensures Rpc.Attach(server.cfg, server.OwnView(), server.refs.View()) == server.View()
    ensures Rpc.Detach(server.View()) == server.OwnView() && server.View().state.refs == server.refs.View()
  {
  }

  /** `main` from its serve loop on: every server it makes is handed the same refs object. */
  class ServeLoop {
    const cfg: Surroundings
    const refs: Rpc.CredentialRefs
    var aborted: bool
    var rpcConnected: bool
    var phase: Phase
    var servers: seq<Rpc.CesRpcServer>
    var logs: seq<Log>
    var temporaryGrants: set<Grant>

    ghost predicate Valid()
      reads this
    {
      && |logs| == |servers|
      && (forall k :: 0 <= k < |servers| ==> servers[k].cfg == cfg(k) && servers[k].refs == refs)
      && (forall i, j :: 0 <= i < j < |servers| ==> servers[i] != servers[j])
    }

    function View(): State
      reads this, refs, servers
    {
      State(cfg, aborted, rpcConnected, phase, refs.View(), Owns(servers), logs, temporaryGrants)
    }

    constructor (cfg: Surroundings, sessionId: string)
      ensures Valid() && View() == Initial(cfg, sessionId)
      ensures fresh(refs) && servers == []
    {
      var r := new Rpc.CredentialRefs(sessionId);
      this.cfg, refs := cfg, r;
      aborted, rpcConnected, phase := false, false, Listening;
      servers, logs, temporaryGrants := [], [], {};
    }

    method TellServer(k: nat, e: Rpc.Event)
      requires Valid() && k < |servers|
      modifies refs, servers
      ensures Valid()
      ensures var v := Rpc.Step(Rpc.Attach(cfg(k), old(servers[k].OwnView()), old(refs.View())), e);
              refs.View() == v.state.refs && Owns(servers) == old(Owns(servers))[k := Rpc.Detach(v)]
    {
      hide Rpc.Step, Rpc.Detach, Rpc.Attach, Owns;
      Viewed(servers[k]);
      servers[k].Tell(e);
      Viewed(servers[k]);
      assert Owns(servers) == old(Owns(servers))[k := servers[k].OwnView()];
    }

    /** Server `k` handles an event. */
    method Tell(k: nat, e: Rpc.Event)
      requires Valid()
      modifies this, refs, servers
      ensures Valid() && servers == old(servers)
      ensures View() == TellSpec(old(View()), k, e)
    {
      hide Rpc.Step, Rpc.Detach, Rpc.Attach, Owns, Rpc.CredentialRefs.View, Rpc.CesRpcServer.OwnView;
      if k < |servers| {
        ghost var s := View();
        ghost var v := Rpc.Step(Rpc.Attach(cfg(k), s.sessions[k], s.refs), e);
        assert s.sessions[k] == servers[k].OwnView();
        TellServer(k, e);
        logs := logs[k := logs[k].(history := logs[k].history + [e])];
        assert View() == s.(refs := v.state.refs, sessions := s.sessions[k := Rpc.Detach(v)], logs := logs);
      }
    }

    /** `server.close()` of server `k`; a settled `serve()` promise is resumed by `Continue`. */
    method EndServe(k: nat, reason: EndReason)
      requires Valid()
      modifies this, refs, servers
      ensures Valid() && servers == old(servers)
      ensures View() == EndSession(old(View()), k, reason)
    {
      hide TellSpec, Owns, Rpc.CredentialRefs.View;
      TellLeaves(View(), k, Rpc.Close);
      Tell(k, Rpc.Close);
      if phase.Serving? && k + 1 == |servers| {
        phase := Ending(reason);
      }
    }

    /** `acceptOneConnection` settles. */
    method ConnectionSettles(accepted: bool)
      requires Valid()
      modifies `phase
      ensures Valid() && View() == Step(old(View()), if accepted then Connect else ListenFails)
    {
      hide Owns, Rpc.CredentialRefs.View;
      if phase.Listening? {
        phase := if accepted then Accepted else Crashed;
      }
    }

    method MakeServer() returns (server: Rpc.CesRpcServer)
      ensures fresh(server) && server.cfg == cfg(|servers|) && server.refs == refs
      ensures server.OwnView() == Rpc.Detach(Rpc.Fresh(cfg(|servers|), refs.View()))
    {
      server := new Rpc.CesRpcServer(cfg(|servers|), refs);
    }

    method AddServer(server: Rpc.CesRpcServer)
      requires Valid() && server !in servers && server.cfg == cfg(|servers|) && server.refs == refs
      modifies `servers, `logs
      ensures Valid() && servers == old(servers) + [server] && logs == old(logs) + [Log(refs.View(), [])]
      ensures Owns(servers) == old(Owns(servers)) + [server.OwnView()]
    {
      hide Rpc.CredentialRefs.View, Rpc.CesRpcServer.OwnView;
      servers := servers + [server];
      logs := logs + [Log(refs.View(), [])];
      assert servers[..|servers| - 1] == old(servers);
    }

    method OpenServer()
      requires Valid()
      modifies this
      ensures Valid() && View() == OpenSession(old(View()))
      ensures |servers| > 0 && fresh(servers[|servers| - 1]) && servers[..|servers| - 1] == old(servers)
    {
      hide Owns, Rpc.Detach, Rpc.Attach, Rpc.Fresh, Rpc.CredentialRefs.View, Rpc.CesRpcServer.OwnView;
      ghost var s := View();
      var server := MakeServer();
      AddServer(server);
      rpcConnected := true;
      phase := Serving;
      assert View().refs == s.refs && View().sessions == s.sessions + [server.OwnView()];
    }

    method CleanUp(reason: EndReason)
      modifies `rpcConnected, `temporaryGrants, `phase
      ensures View() == AfterSession(old(View()), reason)
    {
      hide Owns, Rpc.CredentialRefs.View;
      rpcConnected := false;
      temporaryGrants := {};
      if aborted || reason.SignalAborted? || reason.SignalAbortedBeforeStart? {
        phase := Exited;
      } else {
        phase := Listening;
      }
    }

    method Resume()
      requires Valid()
      modifies this, refs, servers
      ensures Valid() && View() == Step(old(View()), Event.Continue)
      ensures forall server :: server in servers ==> server in old(servers) || fresh(server)
    {
      hide TellSpec, Owns;
      match phase {
        case Accepted =>
          OpenServer();
          if aborted {
            EndServe(|servers| - 1, SignalAbortedBeforeStart);
          }
        case Ending(reason) => CleanUp(reason);
        case _ =>
      }
    }

    /** Data arrives on the stream of any session. */
    method ReceiveChunk(k: nat, chunk: string)
      requires Valid()
      modifies this, refs, servers
      ensures Valid() && servers == old(servers)
      ensures View() == Step(old(View()), Chunk(k, chunk))
    {
      hide TellSpec, Owns, Rpc.CredentialRefs.View;
      Tell(k, Rpc.Data(chunk));
    }

    /** The stream of any session ends or errors. */
    method StreamSettles(k: nat, clean: bool)
      requires Valid()
      modifies this, refs, servers
      ensures Valid() && servers == old(servers)
      ensures View() == Step(old(View()), if clean then StreamEnds(k) else StreamErrors(k))
    {
      hide EndSession, Owns, Rpc.CredentialRefs.View;
      EndServe(k, if clean then InputStreamEnded else TransportError);
    }

    method HandlerSettled(k: nat, request: nat, body: Rpc.Body)
      requires Valid()
      modifies this, refs, servers
      ensures Valid() && servers == old(servers)
      ensures View() == Step(old(View()), HandlerSettles(k, request, body))
    {
      hide TellSpec, Owns, Rpc.CredentialRefs.View;
      Tell(k, Rpc.Settles(request, body));
    }

    method SignalAbort()
      requires Valid()
      modifies this, refs, servers
      ensures Valid() && servers == old(servers)
      ensures View() == Step(old(View()), Event.Abort)
    {
      hide TellSpec, Owns;
      aborted := true;
      if phase.Listening? {
        phase := Exited;
      } else if phase.Serving? && servers != [] {
        EndServe(|servers| - 1, SignalAborted);
      }
    }

    /** A handler of any session, current or ended, records an approval. */
    method Approve(k: nat, grant: Grant)
      modifies `temporaryGrants
      ensures View() == Step(old(View()), RecordGrant(k, grant))
    {
      if k < |servers| {
        temporaryGrants := temporaryGrants + {grant};
      }
    }

    /** A grant is consumed, revoked or runs out. */
    method Drop(grant: Grant)
      modifies `temporaryGrants
      ensures View() == Step(old(View()), DropGrant(grant))
    {
      temporaryGrants := temporaryGrants - {grant};
    }
  }
}
