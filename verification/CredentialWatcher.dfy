/** The credential watcher: requests to re-read the credentials, debounced or
    direct, coalesce into polls that never overlap. */
module CredentialWatcher {
  import opened InsertionMap
  import opened Runs

  type Creds = map<string, string>

  /** The services of `ALL_CREDENTIAL_SPECS`, of which there is at least one. */
  type Services = s: seq<string> | s != [] witness ["telegram"]

  datatype ReadResult = Read(creds: Option<Creds>) | Threw

  /** A poll in flight: its flag, when it started, and what it has read so far. */
  datatype Poll = Poll(forceChanged: bool, startedAt: nat, credentials: map<string, Option<Creds>>, next: nat)

  datatype State = State(
    services: Services,
    serialize: Creds -> string,
    polling: bool,
    pendingPoll: bool,
    pendingForceChanged: bool,
    debounceTimer: bool,
    lastSerialized: map<string, string>,
    // held by the event loop: the `pollOnce` calls that await a read
    polls: map<nat, Poll>,
    nextId: nat,
    // bookkeeping: logical time of requests and starts, the last finished poll, and a
    // consumer that applies only `changedServices` of each event
    clock: nat,
    lastRequest: nat,
    lastForcedRequest: nat,
    lastStart: nat,
    lastForcedStart: nat,
    finished: Option<map<string, Option<Creds>>>,
    consumer: map<string, Option<Creds>>)

  /** `creds ? JSON.stringify(creds) : undefined`. */
  function Serialized(s: State, creds: Option<Creds>): Option<string> {
    if creds.Some? then Some(s.serialize(creds.value)) else None
  }

  function LookUp<V>(m: map<string, V>, k: string): Option<V> {
    if k in m then Some(m[k]) else None
  }

  function Requested(s: State, force: bool): State {
    s.(lastRequest := s.clock, lastForcedRequest := if force then s.clock else s.lastForcedRequest)
  }

  function ScheduleCheckSpec(s: State, force: bool): State {
    Requested(s, force).(pendingForceChanged := s.pendingForceChanged || force, debounceTimer := true)
  }

  function PollOnceSpec(s: State, force: bool): State {
    if s.polling then s.(pendingPoll := true, pendingForceChanged := s.pendingForceChanged || force)
    else
      s.(polling := true,
         polls := s.polls[s.nextId := Poll(force, s.clock, map[], 0)],
         nextId := s.nextId + 1,
         lastStart := s.clock,
         lastForcedStart := if force then s.clock else s.lastForcedStart)
  }

  function DebounceFiredSpec(s: State): State {
    if s.debounceTimer then
      PollOnceSpec(s.(debounceTimer := false, pendingForceChanged := false), s.pendingForceChanged)
    else s
  }

  predicate Changed(s: State, poll: Poll, service: string)
    requires service in poll.credentials
  {
    var newVal := Serialized(s, poll.credentials[service]);
    newVal != LookUp(s.lastSerialized, service) || (poll.forceChanged && newVal.Some?)
  }

  /** Compare with the last values, remember the new ones, and tell the consumer. */
  function Report(s: State, poll: Poll): State {
    var changed := set service | service in poll.credentials && Changed(s, poll, service);
    s.(lastSerialized :=
         (map service | service in s.lastSerialized && service !in changed :: s.lastSerialized[service])
         + (map service | service in poll.credentials && service in changed && poll.credentials[service].Some?
              :: s.serialize(poll.credentials[service].value)),
       consumer := s.consumer + (map service | service in poll.credentials && service in changed
                                 :: poll.credentials[service]),
       finished := Some(poll.credentials))
  }

  /** The `finally` block of `pollOnce`. */
  function FinallySpec(s: State, id: nat): State {
    var s' := s.(polling := false, polls := s.polls - {id});
    if s.pendingPoll then PollOnceSpec(s'.(pendingPoll := false, pendingForceChanged := false), s.pendingForceChanged)
    else s'
  }

  /** One awaited `readServiceCredentials` of poll `id` settles. */
  function ReadSettledSpec(s: State, id: nat, result: ReadResult): State {
    if id !in s.polls || s.polls[id].next >= |s.services| then s
    else if result.Threw? then FinallySpec(s, id)
    else
      var poll := s.polls[id];
      var more := poll.(credentials := poll.credentials[s.services[poll.next] := result.creds], next := poll.next + 1);
      if more.next < |s.services| then s.(polls := s.polls[id := more])
      else FinallySpec(Report(s, more), id)
  }

  /** `ScheduleCheck` comes from the file watchers, `PollDirectly` from `start` and the bootstrap retry. */
  datatype Event =
    | ScheduleCheck(force: bool)
    | PollDirectly(force: bool)
    | DebounceFires
    | ReadSettles(id: nat, result: ReadResult)
    | Stop

  function Tick(s: State): State {
    s.(clock := s.clock + 1)
  }

  function Handle(s: State, e: Event): State {
    match e
    case ScheduleCheck(force) => ScheduleCheckSpec(s, force)
    case PollDirectly(force) => PollOnceSpec(Requested(s, force), force)
    case DebounceFires => DebounceFiredSpec(s)
    case ReadSettles(id, result) => ReadSettledSpec(s, id, result)
    case Stop => s.(debounceTimer := false, pendingPoll := false)
  }

  function Step(s: State, e: Event): State {
    Handle(Tick(s), e)
  }

  function Initial(services: Services, serialize: Creds -> string): State {
    State(services, serialize, false, false, false, false, map[], map[], 0, 0, 0, 0, 0, 0, None, map[])
  }

  // ----- what every step keeps -----

  /** The services whose credentials a poll has after `n` reads. */
  function FirstServices(services: Services, n: nat): set<string> {
    set i | 0 <= i < n && i < |services| :: services[i]
  }

  /** At most one poll is in flight, exactly while `polling`. */
  ghost predicate OnePoll(s: State) {
    && (forall id :: id in s.polls ==> s.polling && id < s.nextId)
    && (forall a, b :: a in s.polls && b in s.polls ==> a == b)
    && (s.polling ==> exists id :: id in s.polls)
    && (forall id :: id in s.polls ==>
          (s.polls[id].next < |s.services|
           && s.polls[id].credentials.Keys == FirstServices(s.services, s.polls[id].next)))
  }

  /** What the consumer holds for a service; nothing yet is like `null`. */
  function Flat(m: map<string, Option<Creds>>, service: string): Option<Creds> {
    if service in m then m[service] else None
  }

  /** The consumer agrees with `lastSerialized`, and with the last finished poll. */
  ghost predicate ConsumerAgrees(s: State) {
    && (forall service :: LookUp(s.lastSerialized, service) == Serialized(s, Flat(s.consumer, service)))
    && (s.finished.Some? ==>
          && s.finished.value.Keys == FirstServices(s.services, |s.services|)
          && forall service :: service in s.finished.value ==>
               Serialized(s, Flat(s.consumer, service)) == Serialized(s, s.finished.value[service]))
  }

  /** A poll is still to start because of an earlier request. */
  predicate PollDue(s: State) {
    s.debounceTimer || (s.polling && s.pendingPoll)
  }

  ghost predicate NothingLost(s: State) {
    && s.lastStart <= s.clock && s.lastForcedStart <= s.clock
    && s.lastRequest <= s.clock && s.lastForcedRequest <= s.clock
    && (s.lastStart < s.lastRequest ==> PollDue(s))
    && (s.lastForcedStart < s.lastForcedRequest ==> PollDue(s) && s.pendingForceChanged)
  }

  ghost predicate Valid(s: State) {
    OnePoll(s) && ConsumerAgrees(s)
  }

  lemma PollOnceKeepsValid(s: State, force: bool)
    requires Valid(s)
    ensures Valid(PollOnceSpec(s, force))
  {
    var s' := PollOnceSpec(s, force);
    if !s.polling {
      assert s.polls.Keys == {};
      assert s.nextId in s'.polls;
    }
  }

  lemma ReportAgrees(s: State, poll: Poll)
    requires ConsumerAgrees(s) && poll.credentials.Keys == FirstServices(s.services, |s.services|)
    ensures ConsumerAgrees(Report(s, poll))
  {
    var s' := Report(s, poll);
    forall service
      ensures LookUp(s'.lastSerialized, service) == Serialized(s', Flat(s'.consumer, service))
      ensures service in poll.credentials ==>
                Serialized(s', Flat(s'.consumer, service)) == Serialized(s', poll.credentials[service])
    {
      assert LookUp(s.lastSerialized, service) == Serialized(s, Flat(s.consumer, service));
      if service in poll.credentials && Changed(s, poll, service) {
        assert service in s'.consumer && s'.consumer[service] == poll.credentials[service];
      } else {
        assert Flat(s'.consumer, service) == Flat(s.consumer, service);
      }
    }
  }

  lemma FinallyKeepsValid(s: State, id: nat)
    requires ConsumerAgrees(s) && s.polls.Keys == {id} && id < s.nextId
    ensures Valid(FinallySpec(s, id))
  {
    var s' := s.(polling := false, polls := s.polls - {id});
    assert s'.polls.Keys == {};
    assert Valid(s');
    PollOnceKeepsValid(s'.(pendingPoll := false, pendingForceChanged := false), s.pendingForceChanged);
  }

  lemma OneReadMore(s: State, id: nat, more: Poll)
    requires Valid(s) && id in s.polls
    requires more.next < |s.services| && more.credentials.Keys == FirstServices(s.services, more.next)
    ensures Valid(s.(polls := s.polls[id := more]))
  {
    var s' := s.(polls := s.polls[id := more]);
    hide FirstServices, LookUp, Flat;
    assert id in s'.polls;
  }

  lemma FirstServicesGrow(services: Services, n: nat, credentials: map<string, Option<Creds>>, creds: Option<Creds>)
    requires n < |services| && credentials.Keys == FirstServices(services, n)
    ensures credentials[services[n] := creds].Keys == FirstServices(services, n + 1)
  {
    forall service
      ensures service in FirstServices(services, n + 1)
              <==> service in FirstServices(services, n) || service == services[n]
    {
      if service == services[n] {
        assert service in FirstServices(services, n + 1);
      }
    }
  }

  lemma ThePoll(s: State, id: nat)
    requires Valid(s) && id in s.polls
    ensures s.polls.Keys == {id} && id < s.nextId && ConsumerAgrees(s)
    ensures s.polls[id].next < |s.services|
    ensures s.polls[id].credentials.Keys == FirstServices(s.services, s.polls[id].next)
  {
    hide ConsumerAgrees, FirstServices;
  }

  lemma ReadSettledKeepsValid(s: State, id: nat, result: ReadResult)
    requires Valid(s)
    ensures Valid(ReadSettledSpec(s, id, result))
  {
    hide PollOnceSpec, FinallySpec, Report, Valid, ConsumerAgrees, FirstServices;
    if id in s.polls {
      var poll := s.polls[id];
      ThePoll(s, id);
      if result.Threw? {
        FinallyKeepsValid(s, id);
      } else {
        var more := poll.(credentials := poll.credentials[s.services[poll.next] := result.creds],
                          next := poll.next + 1);
        FirstServicesGrow(s.services, poll.next, poll.credentials, result.creds);
        if more.next < |s.services| {
          OneReadMore(s, id, more);
        } else {
          ReportAgrees(s, more);
          ReportKeepsFlags(s, more);
          FinallyKeepsValid(Report(s, more), id);
        }
      }
    }
  }

  lemma HandleKeepsValid(s: State, e: Event)
    requires Valid(s)
    ensures Valid(Handle(s, e))
  {
    hide PollOnceSpec, ReadSettledSpec, Valid;
    match e {
      case PollDirectly(force) =>
        FlagsOnly(s, Requested(s, force));
        PollOnceKeepsValid(Requested(s, force), force);
      case DebounceFires =>
        var s' := s.(debounceTimer := false, pendingForceChanged := false);
        FlagsOnly(s, s');
        PollOnceKeepsValid(s', s.pendingForceChanged);
      case ReadSettles(id, result) => ReadSettledKeepsValid(s, id, result);
      case _ => FlagsOnly(s, Handle(s, e));
    }
  }

  /** Flags, the debounce timer and the bookkeeping of requests do not matter to `Valid`. */
  lemma FlagsOnly(s: State, t: State)
    requires t.services == s.services && t.serialize == s.serialize && t.lastSerialized == s.lastSerialized
    requires t.polling == s.polling && t.polls == s.polls && t.nextId == s.nextId
    requires t.finished == s.finished && t.consumer == s.consumer
    ensures Valid(t) == Valid(s)
  {
    hide FirstServices, LookUp, Flat;
  }

  lemma StepLosesNothing(s: State, e: Event)
    requires NothingLost(s) && !e.Stop?
    ensures NothingLost(Step(s, e))
  {
    hide ReadSettledSpec;
    if e.ReadSettles? {
      ReadLosesNothing(Tick(s), e.id, e.result);
    }
  }

  lemma ReadLosesNothing(s: State, id: nat, result: ReadResult)
    requires NothingLost(s)
    ensures NothingLost(ReadSettledSpec(s, id, result))
  {
    hide Report, FinallySpec;
    if id in s.polls && s.polls[id].next < |s.services| {
      var poll := s.polls[id];
      if result.Threw? {
        FinallyLosesNothing(s, id);
      } else {
        var more := poll.(credentials := poll.credentials[s.services[poll.next] := result.creds],
                          next := poll.next + 1);
        ReportKeepsFlags(s, more);
        FinallyLosesNothing(Report(s, more), id);
      }
    }
  }

  lemma FinallyLosesNothing(s: State, id: nat)
    requires NothingLost(s)
    ensures NothingLost(FinallySpec(s, id))
  {
  }

  lemma ReportKeepsFlags(s: State, poll: Poll)
    ensures var s' := Report(s, poll);
            s' == s.(lastSerialized := s'.lastSerialized, consumer := s'.consumer, finished := s'.finished)
  {
  }

  // ----- whole runs -----

  lemma {:induction false} Reachable(services: Services, serialize: Creds -> string, es: seq<Event>)
    ensures Valid(Run(Step, Initial(services, serialize), es))
  {
    hide Handle, Valid;
    if es == [] {
      InitialIsValid(services, serialize);
    } else {
      Reachable(services, serialize, es[..|es| - 1]);
      var s := Run(Step, Initial(services, serialize), es[..|es| - 1]);
      TickKeepsValid(s);
      HandleKeepsValid(Tick(s), es[|es| - 1]);
    }
  }

  lemma InitialIsValid(services: Services, serialize: Creds -> string)
    ensures Valid(Initial(services, serialize))
  {
  }

  lemma TickKeepsValid(s: State)
    requires Valid(s)
    ensures Valid(Tick(s))
  {
  }

  /** At most one poll reads at a time. */
  lemma {:induction false} PollsNeverOverlap(services: Services, serialize: Creds -> string, es: seq<Event>, a: nat,
                                             b: nat)
    requires var s := Run(Step, Initial(services, serialize), es); a in s.polls && b in s.polls
    ensures a == b && Run(Step, Initial(services, serialize), es).polling
  {
    hide Step;
    Reachable(services, serialize, es);
  }

  predicate Requests(e: Event) {
    e.ScheduleCheck? || e.PollDirectly?
  }

  lemma {:induction false} RequestsAreServed(services: Services, serialize: Creds -> string, es: seq<Event>)
    requires forall i :: 0 <= i < |es| ==> !es[i].Stop?
    ensures var s := Run(Step, Initial(services, serialize), es);
            && NothingLost(s) && s.clock == |es|
            && (forall i :: 0 <= i < |es| && Requests(es[i]) ==> s.lastRequest >= i + 1)
            && (forall i :: 0 <= i < |es| && Requests(es[i]) && es[i].force ==> s.lastForcedRequest >= i + 1)
  {
    hide Step;
    if es != [] {
      hide NothingLost;
      var prefix := es[..|es| - 1];
      RequestsAreServed(services, serialize, prefix);
      var s := Run(Step, Initial(services, serialize), prefix);
      StepLosesNothing(s, es[|es| - 1]);
      StepRequests(s, es[|es| - 1]);
    }
  }

  lemma ReadSettledRequestsNothing(s: State, id: nat, result: ReadResult)
    ensures var s' := ReadSettledSpec(s, id, result);
            && s'.clock == s.clock && s'.lastRequest == s.lastRequest
            && s'.lastForcedRequest == s.lastForcedRequest && s'.services == s.services
  {
    hide Report;
    if id in s.polls && s.polls[id].next < |s.services| && result.Read? {
      var poll := s.polls[id];
      ReportKeepsFlags(s,
                       poll.(credentials := poll.credentials[s.services[poll.next] := result.creds],
                             next := poll.next + 1));
    }
  }

  lemma StepRequests(s: State, e: Event)
    ensures Step(s, e).clock == s.clock + 1 && Step(s, e).services == s.services
    ensures Step(s, e).lastRequest == if Requests(e) then s.clock + 1 else s.lastRequest
    ensures Step(s, e).lastForcedRequest == if Requests(e) && e.force then s.clock + 1 else s.lastForcedRequest
  {
    hide ReadSettledSpec;
    if e.ReadSettles? {
      ReadSettledRequestsNothing(Tick(s), e.id, e.result);
    }
  }

  /** Until `stop`, no request is lost: either a poll started at or after it, or one is
      still due; and if it was forced, a forced poll started, or the one due will be forced. */
  lemma {:induction false} NoRequestIsLost(services: Services, serialize: Creds -> string, es: seq<Event>, i: nat)
    requires (forall k :: 0 <= k < |es| ==> !es[k].Stop?) && i < |es| && Requests(es[i])
    ensures var s := Run(Step, Initial(services, serialize), es);
            && (s.lastStart >= i + 1 || PollDue(s))
            && (es[i].force ==> s.lastForcedStart >= i + 1 || (PollDue(s) && s.pendingForceChanged))
  {
    hide Step;
    RequestsAreServed(services, serialize, es);
  }

  /** A poll that is due starts as soon as nothing holds it back, and takes the force flag with it. */
  lemma DuePollStarts(s: State, id: nat, creds: Option<Creds>)
    requires Valid(s) && PollDue(s)
    ensures !s.polling ==>
              var s' := Step(s, DebounceFires);
              s'.lastStart == s.clock + 1 && (s.pendingForceChanged ==> s'.lastForcedStart == s.clock + 1)
    ensures s.pendingPoll && id in s.polls && s.polls[id].next == |s.services| - 1 ==>
              var s' := Step(s, ReadSettles(id, Read(creds)));
              s'.lastStart == s.clock + 1 && (s.pendingForceChanged ==> s'.lastForcedStart == s.clock + 1)
    ensures s.pendingPoll && id in s.polls ==>
              var s' := Step(s, ReadSettles(id, Threw));
              s'.lastStart == s.clock + 1 && (s.pendingForceChanged ==> s'.lastForcedStart == s.clock + 1)
  {
    hide Report;
    if id in s.polls {
      var poll := s.polls[id];
      ReportKeepsFlags(Tick(s),
                       poll.(credentials := poll.credentials[s.services[poll.next] := creds], next := poll.next + 1));
    }
  }

  /** A consumer that applies only `changedServices` of each event holds, for every
      service, credentials that serialise like those of the last finished poll. */
  lemma {:induction false} ConsumerHoldsLastFinishedPoll(services: Services, serialize: Creds -> string,
                                                         es: seq<Event>, service: string)
    requires service in services && Run(Step, Initial(services, serialize), es).finished.Some?
    ensures var s := Run(Step, Initial(services, serialize), es);
            && service in s.finished.value
            && Serialized(s, Flat(s.consumer, service)) == Serialized(s, s.finished.value[service])
  {
    hide Step;
    Reachable(services, serialize, es);
    var s := Run(Step, Initial(services, serialize), es);
    ServicesFixed(services, serialize, es);
    var i :| 0 <= i < |services| && services[i] == service;
    assert service in FirstServices(services, |services|);
  }

  /** A service is reported exactly when the consumer's credentials serialise differently
      from what was read, or when a forced poll found any. */
  lemma {:induction false} ReportsExactlyNews(services: Services, serialize: Creds -> string, es: seq<Event>,
                                              poll: Poll, service: string)
    requires service in poll.credentials
    ensures var s := Run(Step, Initial(services, serialize), es);
            Changed(s, poll, service) <==>
              || Serialized(s, Flat(s.consumer, service)) != Serialized(s, poll.credentials[service])
              || (poll.forceChanged && poll.credentials[service].Some?)
  {
    hide Step, OnePoll;
    Reachable(services, serialize, es);
    var s := Run(Step, Initial(services, serialize), es);
    assert LookUp(s.lastSerialized, service) == Serialized(s, Flat(s.consumer, service));
  }

  lemma {:induction false} ServicesFixed(services: Services, serialize: Creds -> string, es: seq<Event>)
    ensures Run(Step, Initial(services, serialize), es).services == services
  {
    hide Step;
    if es != [] {
      ServicesFixed(services, serialize, es[..|es| - 1]);
      StepRequests(Run(Step, Initial(services, serialize), es[..|es| - 1]), es[|es| - 1]);
    }
  }

  // ----- no poll without a request -----

  function RequestCount(es: seq<Event>): nat {
    if es == [] then 0 else RequestCount(es[..|es| - 1]) + if Requests(es[|es| - 1]) then 1 else 0
  }

  /** Polls begun so far, and those that are still to begin. */
  function PollCount(s: State): nat {
    s.nextId + (if s.debounceTimer then 1 else 0) + (if s.pendingPoll then 1 else 0)
  }

  lemma PollOnceCount(s: State, force: bool)
    ensures PollCount(PollOnceSpec(s, force)) <= PollCount(s) + 1
    ensures s.nextId <= PollOnceSpec(s, force).nextId <= s.nextId + 1
  {
  }

  lemma ReadSettledCount(s: State, id: nat, result: ReadResult)
    ensures PollCount(ReadSettledSpec(s, id, result)) <= PollCount(s)
    ensures s.nextId <= ReadSettledSpec(s, id, result).nextId <= s.nextId + 1
  {
    hide Report, FinallySpec;
    if id in s.polls && s.polls[id].next < |s.services| {
      FinallyCount(s, id);
      if result.Read? {
        var poll := s.polls[id];
        var more := poll.(credentials := poll.credentials[s.services[poll.next] := result.creds],
                          next := poll.next + 1);
        ReportKeepsFlags(s, more);
        FinallyCount(Report(s, more), id);
      }
    }
  }

  lemma FinallyCount(s: State, id: nat)
    ensures PollCount(FinallySpec(s, id)) <= PollCount(s)
    ensures s.nextId <= FinallySpec(s, id).nextId <= s.nextId + 1
  {
  }

  lemma StepPollCount(s: State, e: Event)
    ensures PollCount(Step(s, e)) <= PollCount(s) + if Requests(e) then 1 else 0
    ensures s.nextId <= Step(s, e).nextId <= s.nextId + 1
  {
    hide PollOnceSpec, ReadSettledSpec;
    match e {
      case PollDirectly(force) => PollOnceCount(Requested(Tick(s), force), force);
      case DebounceFires =>
        PollOnceCount(Tick(s).(debounceTimer := false, pendingForceChanged := false), s.pendingForceChanged);
      case ReadSettles(id, result) => ReadSettledCount(Tick(s), id, result);
      case _ =>
    }
  }

  /** Over any run, stops included, no more polls begin than were asked for, and at most
      one at a time. */
  lemma {:induction false} PollsAreRequested(services: Services, serialize: Creds -> string, es: seq<Event>)
    ensures var s := Run(Step, Initial(services, serialize), es);
            s.nextId <= PollCount(s) <= RequestCount(es)
  {
    hide Step;
    if es != [] {
      PollsAreRequested(services, serialize, es[..|es| - 1]);
      StepPollCount(Run(Step, Initial(services, serialize), es[..|es| - 1]), es[|es| - 1]);
    }
  }

  /** After `stop` no poll begins until somebody asks for one; a running one may finish. */
  lemma {:induction false} NothingBeginsAfterStop(services: Services, serialize: Creds -> string, es: seq<Event>,
                                                  i: nat)
    requires i < |es| && es[i].Stop? && forall k :: i < k < |es| ==> !Requests(es[k])
    ensures var s := Run(Step, Initial(services, serialize), es);
            s.nextId == Run(Step, Initial(services, serialize), es[..i]).nextId && PollCount(s) == s.nextId
  {
    var s0 := Initial(services, serialize);
    var prefix := es[..|es| - 1];
    if i < |es| - 1 {
      hide Step;
      assert prefix[..i] == es[..i];
      NothingBeginsAfterStop(services, serialize, prefix, i);
      StepPollCount(Run(Step, s0, prefix), es[|es| - 1]);
    } else {
      assert prefix == es[..i];
    }
  }

  // ----- what a poll reads -----

  /** What the reads of poll `id` resolved to, in order, while it was in flight. */
  function ReadsOf(s0: State, es: seq<Event>, id: nat): seq<Option<Creds>> {
    if es == [] then []
    else
      var prefix, e := es[..|es| - 1], es[|es| - 1];
      ReadsOf(s0, prefix, id)
      + MoreReads(Run(Step, s0, prefix), e, id)
  }

  /** The i-th read is of the i-th service; a repeated service keeps the later one. */
  function Assigned(services: seq<string>, results: seq<Option<Creds>>): map<string, Option<Creds>> {
    if results == [] || services == [] || |results| > |services| then map[]
    else Assigned(services, results[..|results| - 1])[services[|results| - 1] := results[|results| - 1]]
  }

  /** Poll `id` has in hand exactly what its reads resolved to so far. */
  ghost predicate HoldsReads(s: State, id: nat, results: seq<Option<Creds>>) {
    && (id in s.polls ==> && s.polls[id].next == |results| < |s.services|
                          && s.polls[id].credentials == Assigned(s.services, results))
    && (id >= s.nextId ==> results == [])
  }

  lemma AssignedOneMore(services: seq<string>, results: seq<Option<Creds>>, creds: Option<Creds>)
    requires |results| < |services|
    ensures Assigned(services, results + [creds]) == Assigned(services, results)[services[|results|] := creds]
  {
    assert (results + [creds])[..|results|] == results;
  }

  lemma PollOnceHoldsReads(s: State, force: bool, id: nat, results: seq<Option<Creds>>)
    requires HoldsReads(s, id, results)
    ensures HoldsReads(PollOnceSpec(s, force), id, results) && PollOnceSpec(s, force).finished == s.finished
    ensures PollOnceSpec(s, force).services == s.services
  {
  }

  lemma FinallyHoldsReads(s: State, done: nat, id: nat, results: seq<Option<Creds>>)
    requires id != done ==> HoldsReads(s, id, results)
    requires id == done ==> id < s.nextId
    ensures HoldsReads(FinallySpec(s, done), id, results) && FinallySpec(s, done).finished == s.finished
  {
    var s' := s.(polling := false, polls := s.polls - {done});
    assert HoldsReads(s', id, results);
    PollOnceHoldsReads(s'.(pendingPoll := false, pendingForceChanged := false), s.pendingForceChanged, id, results);
    hide PollOnceSpec, Assigned;
  }

  /** What the next read of poll `id` adds. */
  function MoreReads(s: State, e: Event, id: nat): seq<Option<Creds>> {
    if e.ReadSettles? && e.id == id && id in s.polls && e.result.Read? then [e.result.creds] else []
  }

  lemma ReadHoldsReads(s: State, done: nat, result: ReadResult, id: nat, results: seq<Option<Creds>>)
    requires Valid(s) && HoldsReads(s, id, results)
    ensures HoldsReads(ReadSettledSpec(s, done, result), id, results + MoreReads(s, ReadSettles(done, result), id))
    ensures done == id && id in s.polls && result.Read? && |results| + 1 == |s.services| ==>
              ReadSettledSpec(s, done, result).finished == Some(Assigned(s.services, results + [result.creds]))
    ensures !(result.Read? && done in s.polls && s.polls[done].next + 1 == |s.services|) ==>
              ReadSettledSpec(s, done, result).finished == s.finished
  {
    assert results + [] == results;
    hide Report, FinallySpec, Valid, Assigned;
    if done in s.polls {
      ThePoll(s, done);
      if result.Threw? {
        FinallyHoldsReads(s, done, id, results);
      } else if s.polls[done].next + 1 < |s.services| {
        AssignedWhenRead(s, done, result, id, results);
      } else {
        LastReadHoldsReads(s, done, result.creds, id, results);
      }
    }
  }

  lemma LastReadHoldsReads(s: State, done: nat, creds: Option<Creds>, id: nat, results: seq<Option<Creds>>)
    requires Valid(s) && HoldsReads(s, id, results) && done in s.polls && s.polls[done].next + 1 == |s.services|
    ensures var s' := ReadSettledSpec(s, done, Read(creds));
            && HoldsReads(s', id, results + MoreReads(s, ReadSettles(done, Read(creds)), id))
            && (done == id ==> s'.finished == Some(Assigned(s.services, results + [creds])))
  {
    var poll := s.polls[done];
    var more := poll.(credentials := poll.credentials[s.services[poll.next] := creds], next := poll.next + 1);
    assert done < s.nextId && results + [] == results;
    AssignedWhenRead(s, done, Read(creds), id, results);
    ReportFinishes(s, more);
    hide Report, FinallySpec, Valid, Assigned, HoldsReads;
    SamePollsHoldReads(s, Report(s, more), id, results);
    FinallyHoldsReads(Report(s, more), done, id, results + MoreReads(s, ReadSettles(done, Read(creds)), id));
  }

  lemma AssignedWhenRead(s: State, done: nat, result: ReadResult, id: nat, results: seq<Option<Creds>>)
    requires HoldsReads(s, id, results) && result.Read?
    ensures done == id && id in s.polls ==>
              Assigned(s.services, results + [result.creds])
              == s.polls[id].credentials[s.services[s.polls[id].next] := result.creds]
  {
    if done == id && id in s.polls {
      AssignedOneMore(s.services, results, result.creds);
    }
    hide Assigned;
  }

  lemma ReportFinishes(s: State, poll: Poll)
    ensures var s' := Report(s, poll);
            && s'.finished == Some(poll.credentials)
            && s'.polls == s.polls && s'.nextId == s.nextId && s'.services == s.services
  {
  }

  lemma StepHoldsReads(s: State, e: Event, id: nat, results: seq<Option<Creds>>)
    requires Valid(s) && HoldsReads(s, id, results)
    ensures HoldsReads(Step(s, e), id, results + MoreReads(s, e, id))
    ensures e.ReadSettles? && e.id == id && id in s.polls && e.result.Read? && |results| + 1 == |s.services| ==>
              Step(s, e).finished == Some(Assigned(s.services, results + [e.result.creds]))
    ensures !(e.ReadSettles? && e.result.Read? && e.id in s.polls && s.polls[e.id].next + 1 == |s.services|) ==>
              Step(s, e).finished == s.finished
  {
    assert results + [] == results;
    TickKeepsValid(s);
    hide PollOnceSpec, ReadSettledSpec, Valid, Assigned, HoldsReads;
    SamePollsHoldReads(s, Tick(s), id, results);
    match e {
      case PollDirectly(force) =>
        SamePollsHoldReads(s, Requested(Tick(s), force), id, results);
        PollOnceHoldsReads(Requested(Tick(s), force), force, id, results);
      case DebounceFires =>
        var s' := Tick(s).(debounceTimer := false, pendingForceChanged := false);
        SamePollsHoldReads(s, s', id, results);
        PollOnceHoldsReads(s', s.pendingForceChanged, id, results);
      case ReadSettles(done, result) => ReadHoldsReads(Tick(s), done, result, id, results);
      case _ => SamePollsHoldReads(s, Step(s, e), id, results);
    }
  }

  lemma SamePollsHoldReads(s: State, t: State, id: nat, results: seq<Option<Creds>>)
    requires t.polls == s.polls && t.nextId == s.nextId && t.services == s.services
    ensures HoldsReads(t, id, results) == HoldsReads(s, id, results)
  {
  }

  lemma {:induction false} PollHoldsItsReads(services: Services, serialize: Creds -> string, es: seq<Event>, id: nat)
    ensures var s0 := Initial(services, serialize); HoldsReads(Run(Step, s0, es), id, ReadsOf(s0, es, id))
  {
    hide Step;
    var s0 := Initial(services, serialize);
    if es != [] {
      hide HoldsReads;
      PollHoldsItsReads(services, serialize, es[..|es| - 1], id);
      Reachable(services, serialize, es[..|es| - 1]);
      StepHoldsReads(Run(Step, s0, es[..|es| - 1]), es[|es| - 1], id, ReadsOf(s0, es[..|es| - 1], id));
    }
  }

  /** A poll that finishes, in any run, has for every service exactly what its own read of
      it resolved to. */
  lemma {:induction false} FinishedPollHasItsReads(services: Services, serialize: Creds -> string, es: seq<Event>,
                                                   id: nat, creds: Option<Creds>)
    requires var s := Run(Step, Initial(services, serialize), es); id in s.polls && s.polls[id].next + 1 == |s.services|
    ensures var s0 := Initial(services, serialize);
            Step(Run(Step, s0, es), ReadSettles(id, Read(creds))).finished
            == Some(Assigned(services, ReadsOf(s0, es, id) + [creds]))
  {
    hide Step;
    var s0 := Initial(services, serialize);
    PollHoldsItsReads(services, serialize, es, id);
    Reachable(services, serialize, es);
    ServicesFixed(services, serialize, es);
    StepHoldsReads(Run(Step, s0, es), ReadSettles(id, Read(creds)), id, ReadsOf(s0, es, id));
  }

  // ----- the class -----

  class Watcher {
    const services: Services
    const serialize: Creds -> string
    var polling: bool
    var pendingPoll: bool
    var pendingForceChanged: bool
    var debounceTimer: bool
    var lastSerialized: map<string, string>
    /** What the event loop holds, and the bookkeeping of `State`. */
    var polls: map<nat, Poll>
    var nextId: nat
    var clock: nat
    var lastRequest: nat
    var lastForcedRequest: nat
    var lastStart: nat
    var lastForcedStart: nat
    var finished: Option<map<string, Option<Creds>>>
    var consumer: map<string, Option<Creds>>

    function View(): State
      reads this
    {
      State(services, serialize, polling, pendingPoll, pendingForceChanged, debounceTimer, lastSerialized,
            polls, nextId, clock, lastRequest, lastForcedRequest, lastStart, lastForcedStart, finished, consumer)
    }

    constructor (services: Services, serialize: Creds -> string)
      ensures View() == Initial(services, serialize)
    {
      this.services, this.serialize := services, serialize;
      polling, pendingPoll, pendingForceChanged, debounceTimer, lastSerialized := false, false, false, false, map[];
      polls, nextId, clock, lastRequest, lastForcedRequest := map[], 0, 0, 0, 0;
      lastStart, lastForcedStart, finished, consumer := 0, 0, None, map[];
    }

    method NoteRequest(force: bool)
      modifies this
      ensures View() == Requested(old(View()), force)
    {
      lastRequest := clock;
      if force {
        lastForcedRequest := clock;
      }
    }

    method ScheduleCheck(force: bool)
      modifies this
      ensures View() == ScheduleCheckSpec(old(View()), force)
    {
      NoteRequest(force);
      if force {
        pendingForceChanged := true;
      }
      debounceTimer := true;
    }

    method DebounceFired()
      modifies this
      ensures View() == DebounceFiredSpec(old(View()))
    {
      if !debounceTimer {
        return;
      }
      debounceTimer := false;
      var force := pendingForceChanged;
      pendingForceChanged := false;
      PollOnce(force);
    }

    /** `pollOnce` up to its first read. */
    method PollOnce(force: bool)
      modifies this
      ensures View() == PollOnceSpec(old(View()), force)
    {
      if polling {
        pendingPoll := true;
        if force {
          pendingForceChanged := true;
        }
        return;
      }
      polling := true;
      polls := polls[nextId := Poll(force, clock, map[], 0)];
      nextId := nextId + 1;
      lastStart := clock;
      if force {
        lastForcedStart := clock;
      }
    }

    method ReadSettled(id: nat, result: ReadResult)
      modifies this
      ensures View() == ReadSettledSpec(old(View()), id, result)
    {
      hide Report, FinallySpec;
      if id !in polls || polls[id].next >= |services| {
        return;
      }
      if result.Threw? {
        Finally(id);
        return;
      }
      var poll := polls[id];
      poll := poll.(credentials := poll.credentials[services[poll.next] := result.creds], next := poll.next + 1);
      if poll.next < |services| {
        polls := polls[id := poll];
        return;
      }
      CompareAndReport(poll);
      Finally(id);
    }

    method CompareAndReport(poll: Poll)
      modifies this
      ensures View() == Report(old(View()), poll)
    {
      ghost var s := View();
      var changedServices := Compare(poll);
      ghost var r := Report(s, poll);
      assert r.lastSerialized == lastSerialized by {
        forall service ensures LookUp(r.lastSerialized, service) == LookUp(lastSerialized, service) {
        }
        SameLookUp(r.lastSerialized, lastSerialized);
      }
      consumer := consumer + map service | service in poll.credentials && service in changedServices
        :: poll.credentials[service];
      finished := Some(poll.credentials);
    }

    /** The loop over the credentials just read. */
    method Compare(poll: Poll) returns (changedServices: set<string>)
      modifies this
      ensures View() == old(View()).(lastSerialized := lastSerialized)
      ensures changedServices == set service | service in poll.credentials && Changed(old(View()), poll, service)
      ensures forall service :: LookUp(lastSerialized, service) ==
                if service in changedServices then Serialized(old(View()), poll.credentials[service])
                else LookUp(old(lastSerialized), service)
    {
      changedServices := {};
      var todo := poll.credentials.Keys;
      while todo != {}
        invariant todo <= poll.credentials.Keys
        invariant View() == old(View()).(lastSerialized := lastSerialized)
        invariant forall service :: service in changedServices <==>
                    service in poll.credentials && service !in todo && Changed(old(View()), poll, service)
        invariant forall service :: LookUp(lastSerialized, service) ==
                    if service in changedServices then Serialized(old(View()), poll.credentials[service])
                    else LookUp(old(lastSerialized), service)
      {
        var service :| service in todo;
        todo := todo - {service};
        var creds := poll.credentials[service];
        var newVal := if creds.Some? then Some(serialize(creds.value)) else None;
        if newVal != LookUp(lastSerialized, service) || (poll.forceChanged && newVal.Some?) {
          changedServices := changedServices + {service};
          if newVal.Some? {
            lastSerialized := lastSerialized[service := newVal.value];
          } else {
            lastSerialized := lastSerialized - {service};
          }
        }
      }
    }

    method Finally(id: nat)
      modifies this
      ensures View() == FinallySpec(old(View()), id)
    {
      polling := false;
      polls := polls - {id};
      if pendingPoll {
        pendingPoll := false;
        var force := pendingForceChanged;
        pendingForceChanged := false;
        PollOnce(force);
      }
    }

    method StopWatching()
      modifies this
      ensures View() == Handle(old(View()), Stop)
    {
      debounceTimer := false;
      pendingPoll := false;
    }
  }

  lemma SameLookUp<V>(a: map<string, V>, b: map<string, V>)
    requires forall k :: LookUp(a, k) == LookUp(b, k)
    ensures a == b
  {
    forall k ensures k in a <==> k in b
             ensures k in a ==> a[k] == b[k]
    {
      assert LookUp(a, k) == LookUp(b, k);
    }
  }
}
