/** The remote feature-flag synchroniser, composed with the credential cache it
    reads through. Every `await` is a step boundary: what is in flight is part of
    the state, and the event loop may deliver its completions in any order. */
module FlagSync {
  import opened InsertionMap
  import opened Runs
  import CC = CredentialCache

  const PLATFORM_URL_KEY := "credential/vellum/platform_base_url"
  const API_KEY_KEY := "credential/vellum/assistant_api_key"

  /** Outcome of one `fetchAndCache`; a throw counts as `Error`. */
  datatype FetchResult = Success | MissingCredentials | Error

  /** Who awaits a fetch. A poll whose `.then`/`.catch` ran keeps its `.finally` queued. */
  datatype Purpose = ForStart | ForSync | ForPoll | PollReported

  /** A fetch in flight: when it began, the credential reads that answered its two
      `get` calls, and the latest invalidation at that time. */
  datatype Flight = Flight(purpose: Purpose, beganAt: nat, sources: seq<nat>, freshSince: nat)

  datatype TimerKind = Poll | Recheck

  datatype Timer = Timer(kind: TimerKind, delay: int)

  /** What a starting fetch meets: the wall clock and the platform-features switch. */
  datatype Env = Env(now: int, platformEnabled: bool)

  datatype State = State(
    started: bool,
    pollTimer: Option<nat>,
    syncNowActive: bool,
    pendingResync: bool,
    waitingForCredentials: bool,
    subscribed: bool,
    currentIntervalMs: int,
    maxIntervalMs: int,
    // held by the event loop: live timers and fetches in flight, by identity
    timers: map<nat, Timer>,
    flights: map<nat, Flight>,
    nextId: nat,
    // bookkeeping: the fetch the active `syncNow` awaits, and the latest call of it
    syncFetch: nat,
    lastSyncCall: nat,
    creds: CC.State)

  // ----- the handlers, as functions of the state -----

  function ClearTimer(s: State): State {
    if s.pollTimer.Some? then s.(timers := s.timers - {s.pollTimer.value}, pollTimer := None) else s
  }

  function SetTimer(s: State, kind: TimerKind, delay: int): State {
    s.(timers := s.timers[s.nextId := Timer(kind, delay)], pollTimer := Some(s.nextId), nextId := s.nextId + 1)
  }

  function ScheduleNextPoll(s: State): State {
    SetTimer(s, Poll, s.currentIntervalMs)
  }

  function ClearCredentialWatch(s: State): State {
    s.(waitingForCredentials := false, subscribed := false)
  }

  function PauseForCredentials(s: State): State {
    if s.waitingForCredentials then s
    else SetTimer(ClearTimer(s.(waitingForCredentials := true, subscribed := true)), Recheck, s.maxIntervalMs)
  }

  /** The two `get` calls of a fetch, and the reads that answered them. */
  function ReadCredentials(creds: CC.State, env: Env): (CC.State, seq<nat>) {
    if env.platformEnabled then
      var (c1, url) := CC.GetSpec(creds, PLATFORM_URL_KEY, false, env.now);
      var (c2, key) := CC.GetSpec(c1, API_KEY_KEY, false, env.now);
      (c2, [url.source, key.source])
    else (creds, [])
  }

  function BeginFetch(s: State, purpose: Purpose, env: Env): State {
    var (creds, sources) := ReadCredentials(s.creds, env);
    AddFlight(s.(creds := creds), purpose, sources)
  }

  function AddFlight(s: State, purpose: Purpose, sources: seq<nat>): State {
    s.(flights := s.flights[s.nextId := Flight(purpose, s.creds.clock, sources, s.creds.invalidatedAt)],
       nextId := s.nextId + 1)
  }

  function Land(s: State, id: nat): State {
    s.(flights := s.flights - {id})
  }

  function StartSpec(s: State, env: Env): State {
    BeginFetch(s.(started := true), ForStart, env)
  }

  function StartSettled(s: State, id: nat, result: FetchResult): State {
    var s' := Land(s, id);
    match result
    case Success => ScheduleNextPoll(s'.(currentIntervalMs := s.maxIntervalMs))
    case MissingCredentials => PauseForCredentials(s')
    case Error => ScheduleNextPoll(s')
  }

  function StopSpec(s: State): State {
    ClearCredentialWatch(ClearTimer(s.(started := false)))
  }

  /** One round of the `do` loop in `syncNow`, up to its `await`. */
  function SyncRound(s: State, env: Env): State {
    var s' := ClearTimer(ClearCredentialWatch(s.(pendingResync := false, syncNowActive := true)));
    BeginFetch(s', ForSync, env).(syncFetch := s'.nextId)
  }

  function SyncNowSpec(s: State, env: Env): State {
    var s' := s.(lastSyncCall := s.creds.clock);
    if s.syncNowActive then s'.(pendingResync := true) else SyncRound(s', env)
  }

  function SyncEnded(s: State, id: nat, result: FetchResult): State {
    Land(s, id).(syncNowActive := false,
                 currentIntervalMs := if result.Success? then s.maxIntervalMs else s.currentIntervalMs)
  }

  /** The rest of `syncNow` once its fetch settles: another round, or the end. */
  function SyncSettled(s: State, id: nat, result: FetchResult, env: Env): State {
    var s' := SyncEnded(s, id, result);
    if !s'.started then s'
    else if s'.pendingResync then SyncRound(s', env)
    else
      var cleared := ClearTimer(ClearCredentialWatch(s'));
      if result.MissingCredentials? then PauseForCredentials(cleared) else ScheduleNextPoll(cleared)
  }

  function Backoff(interval: int, max: int): int {
    if interval * 2 < max then interval * 2 else max
  }

  /** `.then` or `.catch` of a poll; its `.finally` runs as a later event. */
  function PollSettled(s: State, id: nat, result: FetchResult): State
    requires id in s.flights
  {
    var s' := s.(flights := s.flights[id := s.flights[id].(purpose := PollReported)]);
    match result
    case Success => s'.(currentIntervalMs := s.maxIntervalMs)
    case MissingCredentials => PauseForCredentials(s')
    case Error => s'.(currentIntervalMs := Backoff(s.currentIntervalMs, s.maxIntervalMs))
  }

  function PollFinally(s: State, id: nat): State {
    var s' := Land(s, id);
    if s.started && !s.syncNowActive && !s.waitingForCredentials then ScheduleNextPoll(s') else s'
  }

  function PollSpec(s: State, env: Env): State {
    if s.started then BeginFetch(s, ForPoll, env) else s
  }

  /** The body shared by the invalidation listener and the safety-net timer. */
  function ResumeSpec(s: State, env: Env): State {
    if s.started && s.waitingForCredentials then SyncNowSpec(s, env) else s
  }

  function TimerFiredSpec(s: State, id: nat, env: Env): State {
    if id !in s.timers then s
    else
      var s' := s.(timers := s.timers - {id});
      match s.timers[id].kind
      case Poll => PollSpec(s', env)
      case Recheck => ResumeSpec(s', env)
  }

  function InvalidateSpec(s: State, env: Env): State {
    var s' := s.(creds := CC.Invalidated(s.creds));
    if s.subscribed then ResumeSpec(s', env) else s'
  }

  function FetchSettledSpec(s: State, id: nat, result: FetchResult, env: Env): State {
    if id !in s.flights then s
    else
      match s.flights[id].purpose
      case ForStart => StartSettled(s, id, result)
      case ForSync => SyncSettled(s, id, result, env)
      case ForPoll => PollSettled(s, id, result)
      case PollReported => PollFinally(s, id)
  }

  // ----- runs -----

  /** `FetchSettles` of a reported poll is its `.finally`. */
  datatype Event =
    | Start(env: Env)
    | Stop
    | CallSyncNow(env: Env)
    | TimerFires(id: nat, env: Env)
    | FetchSettles(id: nat, result: FetchResult, env: Env)
    | CredentialsChange(env: Env)
    | ReadSettles(id: nat, value: CC.ReadResult, now: int)
    | OtherGet(key: string, force: bool, now: int)

  function Tick(s: State): State {
    s.(creds := CC.Tick(s.creds))
  }

  function Handle(s: State, e: Event): State {
    match e
    case Start(env) => StartSpec(s, env)
    case Stop => StopSpec(s)
    case CallSyncNow(env) => SyncNowSpec(s, env)
    case TimerFires(id, env) => TimerFiredSpec(s, id, env)
    case FetchSettles(id, result, env) => FetchSettledSpec(s, id, result, env)
    case CredentialsChange(env) => InvalidateSpec(s, env)
    case ReadSettles(id, value, now) => s.(creds := CC.Settled(s.creds, id, value, now))
    case OtherGet(key, force, now) => s.(creds := CC.GetSpec(s.creds, key, force, now).0)
  }

  function Step(s: State, e: Event): State {
    Handle(Tick(s), e)
  }

  function Initial(initialInterval: int, maxInterval: int, ttl: int): State {
    State(false, None, false, false, false, false, initialInterval, maxInterval, map[], map[], 0, 0, 0, CC.Initial(ttl))
  }

  /** The events that call `syncNow`: explicitly, from the safety net, or from the listener. */
  predicate CallsSync(s: State, e: Event) {
    match e
    case CallSyncNow(_) => true
    case TimerFires(id, _) =>
      id in s.timers && s.timers[id].kind.Recheck? && s.started && s.waitingForCredentials
    case CredentialsChange(_) => s.subscribed && s.started && s.waitingForCredentials
    case _ => false
  }

  // ----- what every step keeps -----

  ghost predicate FlightKnown(s: State, f: Flight) {
    && f.freshSince <= f.beganAt <= s.creds.clock
    && forall r :: r in f.sources ==> r < |s.creds.begun| && s.creds.begun[r].beganAt >= f.freshSince
  }

  ghost predicate Valid(s: State) {
    && CC.Valid(s.creds)
    && (s.subscribed <==> s.waitingForCredentials)
    && s.lastSyncCall <= s.creds.clock
    && (forall id :: id in s.flights ==> id < s.nextId && FlightKnown(s, s.flights[id]))
    && (forall id :: id in s.flights && s.flights[id].purpose.ForSync? ==> s.syncNowActive && id == s.syncFetch)
    && (s.syncNowActive ==>
          && s.syncFetch in s.flights && s.flights[s.syncFetch].purpose.ForSync?
          && (s.pendingResync || s.flights[s.syncFetch].beganAt >= s.lastSyncCall))
  }

  lemma BeginFetchFacts(s: State, purpose: Purpose, env: Env)
    requires CC.Valid(s.creds)
    ensures var s' := BeginFetch(s, purpose, env);
            && CC.Valid(s'.creds) && CC.Extends(s.creds, s'.creds)
            && s'.creds.clock == s.creds.clock && s'.creds.invalidatedAt == s.creds.invalidatedAt
            && s'.nextId == s.nextId + 1
            && s'.flights.Keys == s.flights.Keys + {s.nextId}
            && (forall id :: id in s.flights && id != s.nextId ==> s'.flights[id] == s.flights[id])
            && s'.flights[s.nextId].purpose == purpose
            && s'.flights[s.nextId].beganAt == s.creds.clock
            && s'.flights[s.nextId].freshSince == s.creds.invalidatedAt
            && FlightKnown(s', s'.flights[s.nextId])
            && s' == s.(creds := s'.creds, flights := s'.flights, nextId := s'.nextId)
  {
    hide CC.Valid, CC.GetSpec;
    if env.platformEnabled {
      CC.GetIsFresh(s.creds, PLATFORM_URL_KEY, false, env.now);
      var c1 := CC.GetSpec(s.creds, PLATFORM_URL_KEY, false, env.now).0;
      CC.GetIsFresh(c1, API_KEY_KEY, false, env.now);
    }
    ClockCoversInvalidation(s.creds);
  }

  lemma ClockCoversInvalidation(c: CC.State)
    requires CC.Valid(c)
    ensures c.invalidatedAt <= c.clock
  {
  }

  /** Flights stay known while the credential state only moves forward. */
  lemma StillKnown(s: State, s': State, f: Flight)
    requires FlightKnown(s, f) && CC.Extends(s.creds, s'.creds) && s.creds.clock <= s'.creds.clock
    ensures FlightKnown(s', f)
  {
  }

  lemma SyncRoundKeepsValid(s: State, env: Env)
    requires CC.Valid(s.creds) && s.lastSyncCall <= s.creds.clock
    requires forall id :: id in s.flights ==>
               id < s.nextId && FlightKnown(s, s.flights[id]) && !s.flights[id].purpose.ForSync?
    ensures Valid(SyncRound(s, env)) && CC.Extends(s.creds, SyncRound(s, env).creds)
    ensures SyncRound(s, env).creds.clock == s.creds.clock
            && SyncRound(s, env).creds.invalidatedAt == s.creds.invalidatedAt
    ensures SyncRound(s, env).lastSyncCall == s.lastSyncCall && SyncRound(s, env).syncNowActive
  {
    hide CC.Valid, ReadCredentials;
    var s1 := ClearTimer(ClearCredentialWatch(s.(pendingResync := false, syncNowActive := true)));
    BeginFetchFacts(s1, ForSync, env);
    var s' := SyncRound(s, env);
    forall id | id in s.flights ensures FlightKnown(s', s'.flights[id]) {
      StillKnown(s, s', s.flights[id]);
    }
  }

  lemma SyncNowKeepsValid(s: State, env: Env)
    requires Valid(s)
    ensures Valid(SyncNowSpec(s, env)) && CC.Extends(s.creds, SyncNowSpec(s, env).creds)
    ensures SyncNowSpec(s, env).creds.clock == s.creds.clock
    ensures SyncNowSpec(s, env).creds.invalidatedAt == s.creds.invalidatedAt
    ensures SyncNowSpec(s, env).lastSyncCall == s.creds.clock
  {
    hide CC.Valid, SyncRound;
    if !s.syncNowActive {
      SyncRoundKeepsValid(s.(lastSyncCall := s.creds.clock), env);
    }
  }

  lemma FetchKeepsValid(s: State, purpose: Purpose, env: Env)
    requires Valid(s) && !purpose.ForSync?
    ensures var s' := BeginFetch(s, purpose, env);
            && Valid(s') && CC.Extends(s.creds, s'.creds) && s'.lastSyncCall == s.lastSyncCall
            && s'.creds.clock == s.creds.clock && s'.creds.invalidatedAt == s.creds.invalidatedAt
  {
    BeginFetchFacts(s, purpose, env);
    hide CC.Valid, ReadCredentials;
    var s' := BeginFetch(s, purpose, env);
    forall id | id in s.flights ensures FlightKnown(s', s'.flights[id]) {
      StillKnown(s, s', s.flights[id]);
    }
  }

  /** Handlers that begin no fetch: flights only leave, or are reported. */
  lemma QuietKeepsValid(s: State, s': State)
    requires Valid(s) && s'.creds == s.creds && s'.lastSyncCall == s.lastSyncCall
    requires s.nextId <= s'.nextId && s'.syncFetch == s.syncFetch && s'.pendingResync == s.pendingResync
    requires s'.subscribed <==> s'.waitingForCredentials
    requires forall id :: id in s'.flights ==>
               id in s.flights
                 && (s'.flights[id] == s.flights[id] || s'.flights[id] == s.flights[id].(purpose := PollReported))
    requires s.syncNowActive && s'.syncNowActive ==>
               s.syncFetch in s'.flights && s'.flights[s.syncFetch] == s.flights[s.syncFetch]
    requires s'.syncNowActive ==> s.syncNowActive
    requires s.syncNowActive && !s'.syncNowActive ==> s.syncFetch !in s'.flights
    ensures Valid(s')
  {
    hide CC.Valid;
  }

  lemma SyncSettledKeepsValid(s: State, id: nat, result: FetchResult, env: Env)
    requires Valid(s) && id in s.flights && s.flights[id].purpose.ForSync?
    ensures var s' := SyncSettled(s, id, result, env);
            && Valid(s') && CC.Extends(s.creds, s'.creds) && s'.lastSyncCall == s.lastSyncCall
            && s'.creds.clock == s.creds.clock && s'.creds.invalidatedAt == s.creds.invalidatedAt
  {
    if s.started && s.pendingResync {
      hide CC.Valid, SyncRound;
      SyncRoundKeepsValid(
        SyncEnded(s, id, result), env);
    } else {
      assert id == s.syncFetch && s.syncNowActive;
      hide Valid, CC.Valid, SyncRound;
      QuietKeepsValid(s, SyncSettled(s, id, result, env));
    }
  }

  lemma ExtendsReflexive(c: CC.State)
    ensures CC.Extends(c, c)
  {
  }

  lemma StartSettledKeepsValid(s: State, id: nat, result: FetchResult)
    requires Valid(s) && id in s.flights && s.flights[id].purpose.ForStart?
    ensures var s' := StartSettled(s, id, result);
            Valid(s') && s'.creds == s.creds && s'.lastSyncCall == s.lastSyncCall
  {
    assert s.syncNowActive ==> s.syncFetch in s.flights && s.syncFetch != id;
    assert s.subscribed == s.waitingForCredentials;
    hide Valid;
    QuietKeepsValid(s, StartSettled(s, id, result));
  }

  lemma PollSettledKeepsValid(s: State, id: nat, result: FetchResult)
    requires Valid(s) && id in s.flights && s.flights[id].purpose.ForPoll?
    ensures var s' := PollSettled(s, id, result);
            Valid(s') && s'.creds == s.creds && s'.lastSyncCall == s.lastSyncCall
  {
    assert s.syncNowActive ==> s.syncFetch in s.flights && s.syncFetch != id;
    assert s.subscribed == s.waitingForCredentials;
    hide Valid;
    QuietKeepsValid(s, PollSettled(s, id, result));
  }

  lemma PollFinallyKeepsValid(s: State, id: nat)
    requires Valid(s) && id in s.flights && s.flights[id].purpose.PollReported?
    ensures var s' := PollFinally(s, id);
            Valid(s') && s'.creds == s.creds && s'.lastSyncCall == s.lastSyncCall
  {
    assert s.syncNowActive ==> s.syncFetch in s.flights && s.syncFetch != id;
    assert s.subscribed == s.waitingForCredentials;
    hide Valid;
    QuietKeepsValid(s, PollFinally(s, id));
  }

  lemma FetchSettledKeepsValid(s: State, id: nat, result: FetchResult, env: Env)
    requires Valid(s)
    ensures var s' := FetchSettledSpec(s, id, result, env);
            && Valid(s') && CC.Extends(s.creds, s'.creds) && s'.lastSyncCall == s.lastSyncCall
            && s'.creds.clock == s.creds.clock && s'.creds.invalidatedAt == s.creds.invalidatedAt
  {
    ExtendsReflexive(s.creds);
    hide Valid, CC.Valid, CC.Extends, SyncSettled, StartSettled, PollSettled, PollFinally;
    if id in s.flights {
      match s.flights[id].purpose {
        case ForSync => SyncSettledKeepsValid(s, id, result, env);
        case ForStart => StartSettledKeepsValid(s, id, result);
        case ForPoll => PollSettledKeepsValid(s, id, result);
        case PollReported => PollFinallyKeepsValid(s, id);
      }
    }
  }

  lemma CredsKeepValid(s: State, creds: CC.State)
    requires Valid(s) && CC.Valid(creds) && CC.Extends(s.creds, creds) && s.creds.clock <= creds.clock
    ensures Valid(s.(creds := creds))
  {
    hide CC.Valid;
    forall id | id in s.flights ensures FlightKnown(s.(creds := creds), s.flights[id]) {
      StillKnown(s, s.(creds := creds), s.flights[id]);
    }
  }

  lemma TimerFiredKeepsValid(s: State, id: nat, env: Env)
    requires Valid(s)
    ensures var s' := TimerFiredSpec(s, id, env);
            && Valid(s') && CC.Extends(s.creds, s'.creds)
            && s'.creds.clock == s.creds.clock && s'.creds.invalidatedAt == s.creds.invalidatedAt
            && s'.lastSyncCall == if CallsSync(s, TimerFires(id, env)) then s.creds.clock else s.lastSyncCall
  {
    var s1 := s.(timers := s.timers - {id});
    QuietKeepsValid(s, s1);
    hide Valid, CC.Valid, ReadCredentials, SyncNowSpec;
    if id in s.timers {
      if s.timers[id].kind.Recheck? {
        SyncNowKeepsValid(s1, env);
      } else {
        FetchKeepsValid(s1, ForPoll, env);
      }
    }
  }

  lemma InvalidateKeepsValid(s: State, env: Env)
    requires Valid(s)
    ensures var s' := InvalidateSpec(s, env);
            && Valid(s') && CC.Extends(s.creds, s'.creds)
            && s'.creds.clock == s.creds.clock && s'.creds.invalidatedAt == s.creds.clock
            && s'.lastSyncCall == if CallsSync(s, CredentialsChange(env)) then s.creds.clock else s.lastSyncCall
  {
    var s1 := s.(creds := CC.Invalidated(s.creds));
    CC.InvalidatedKeepsValid(s.creds);
    CredsKeepValid(s, s1.creds);
    hide Valid, CC.Valid, SyncNowSpec;
    SyncNowKeepsValid(s1, env);
  }

  lemma ReadsKeepValid(s: State, e: Event)
    requires Valid(s) && (e.ReadSettles? || e.OtherGet?)
    ensures var creds := if e.ReadSettles? then CC.Settled(s.creds, e.id, e.value, e.now)
                         else CC.GetSpec(s.creds, e.key, e.force, e.now).0;
            && Valid(s.(creds := creds)) && CC.Extends(s.creds, creds)
            && creds.clock == s.creds.clock && creds.invalidatedAt == s.creds.invalidatedAt
  {
    assert CC.Valid(s.creds);
    hide Valid, CC.Valid, CC.Settled, CC.GetSpec;
    if e.ReadSettles? {
      CC.SettledKeepsValid(s.creds, e.id, e.value, e.now);
      CredsKeepValid(s, CC.Settled(s.creds, e.id, e.value, e.now));
    } else {
      CC.GetIsFresh(s.creds, e.key, e.force, e.now);
      CredsKeepValid(s, CC.GetSpec(s.creds, e.key, e.force, e.now).0);
    }
  }

  lemma HandleKeepsValid(s: State, e: Event)
    requires Valid(s)
    ensures Valid(Handle(s, e)) && CC.Extends(s.creds, Handle(s, e).creds)
    ensures Handle(s, e).creds.clock == s.creds.clock
    ensures Handle(s, e).creds.invalidatedAt == if e.CredentialsChange? then s.creds.clock else s.creds.invalidatedAt
    ensures Handle(s, e).lastSyncCall == if CallsSync(s, e) then s.creds.clock else s.lastSyncCall
  {
    ExtendsReflexive(s.creds);
    if e.Stop? {
      QuietKeepsValid(s, StopSpec(s));
    } else if e.Start? {
      QuietKeepsValid(s, s.(started := true));
      hide Valid, ReadCredentials;
      FetchKeepsValid(s.(started := true), ForStart, e.env);
    } else {
      hide Valid, CC.Extends, SyncNowSpec, FetchSettledSpec, CC.Settled, CC.GetSpec, TimerFiredSpec, InvalidateSpec;
      match e {
        case CallSyncNow(env) => SyncNowKeepsValid(s, env);
        case TimerFires(id, env) => TimerFiredKeepsValid(s, id, env);
        case FetchSettles(id, result, env) => FetchSettledKeepsValid(s, id, result, env);
        case CredentialsChange(env) => InvalidateKeepsValid(s, env);
        case ReadSettles(_, _, _) => ReadsKeepValid(s, e);
        case OtherGet(_, _, _) => ReadsKeepValid(s, e);
      }
    }
  }

  lemma StepKeepsValid(s: State, e: Event)
    requires Valid(s)
    ensures Valid(Step(s, e)) && CC.Extends(s.creds, Step(s, e).creds)
    ensures Step(s, e).creds.clock == s.creds.clock + 1
    ensures Step(s, e).creds.invalidatedAt == if e.CredentialsChange? then s.creds.clock + 1 else s.creds.invalidatedAt
    ensures Step(s, e).lastSyncCall == if CallsSync(s, e) then s.creds.clock + 1 else s.lastSyncCall
  {
    CC.TickKeepsValid(s.creds);
    CredsKeepValid(s, CC.Tick(s.creds));
    hide Valid, Handle;
    HandleKeepsValid(Tick(s), e);
  }

  // ----- no stall -----

  ghost predicate HasTimer(s: State, kind: TimerKind) {
    exists t :: t in s.timers && s.timers[t].kind == kind
  }

  /** Something is due that will make the next move. */
  ghost predicate Progressing(s: State) {
    || s.flights != map[]
    || s.syncNowActive
    || HasTimer(s, Poll)
    || (s.waitingForCredentials && HasTimer(s, Recheck))
  }

  /** A pause for credentials has its safety net, unless a `syncNow` is about to lift it. */
  ghost predicate RecheckArmed(s: State) {
    s.waitingForCredentials && !s.syncNowActive ==> HasTimer(s, Recheck)
  }

  ghost predicate Alive(s: State) {
    s.started ==> Progressing(s) && RecheckArmed(s)
  }

  lemma SetTimerArms(s: State, kind: TimerKind, delay: int)
    ensures HasTimer(SetTimer(s, kind, delay), kind)
    ensures forall t :: t in s.timers && t != s.nextId ==> SetTimer(s, kind, delay).timers[t] == s.timers[t]
  {
    assert s.nextId in SetTimer(s, kind, delay).timers;
  }

  /** Timer identities are fresh, and no delay exceeds `bound`. */
  ghost predicate TimersOk(s: State, bound: int) {
    && s.currentIntervalMs <= bound && s.maxIntervalMs <= bound
    && forall t :: t in s.timers ==> t < s.nextId && s.timers[t].delay <= bound
  }

  lemma SyncRoundKeepsTimers(s: State, env: Env, bound: int)
    requires TimersOk(s, bound)
    ensures TimersOk(SyncRound(s, env), bound)
  {
    hide ReadCredentials;
  }

  lemma SyncSettledKeepsTimers(s: State, id: nat, result: FetchResult, env: Env, bound: int)
    requires TimersOk(s, bound)
    ensures TimersOk(SyncSettled(s, id, result, env), bound)
  {
    hide SyncRound;
    SyncRoundKeepsTimers(SyncEnded(s, id, result), env, bound);
  }

  lemma StartSettledKeepsTimers(s: State, id: nat, result: FetchResult, bound: int)
    requires TimersOk(s, bound)
    ensures TimersOk(StartSettled(s, id, result), bound)
  {
  }

  lemma PollSettledKeepsTimers(s: State, id: nat, result: FetchResult, bound: int)
    requires id in s.flights && TimersOk(s, bound)
    ensures TimersOk(PollSettled(s, id, result), bound)
  {
  }

  lemma FetchSettledKeepsTimers(s: State, id: nat, result: FetchResult, env: Env, bound: int)
    requires TimersOk(s, bound)
    ensures TimersOk(FetchSettledSpec(s, id, result, env), bound)
  {
    hide SyncSettled, StartSettled, PollSettled;
    if id in s.flights {
      match s.flights[id].purpose {
        case ForStart => StartSettledKeepsTimers(s, id, result, bound);
        case ForSync => SyncSettledKeepsTimers(s, id, result, env, bound);
        case ForPoll => PollSettledKeepsTimers(s, id, result, bound);
        case PollReported =>
      }
    }
  }

  lemma ResumeKeepsTimers(s: State, env: Env, bound: int)
    requires TimersOk(s, bound)
    ensures TimersOk(ResumeSpec(s, env), bound) && TimersOk(SyncNowSpec(s, env), bound)
  {
    SyncRoundKeepsTimers(s.(lastSyncCall := s.creds.clock), env, bound);
    hide SyncRound;
  }

  lemma FetchKeepsTimers(s: State, purpose: Purpose, env: Env, bound: int)
    requires TimersOk(s, bound)
    ensures TimersOk(BeginFetch(s, purpose, env), bound)
  {
    hide ReadCredentials;
  }

  lemma TimerFiredKeepsTimers(s: State, id: nat, env: Env, bound: int)
    requires TimersOk(s, bound)
    ensures TimersOk(TimerFiredSpec(s, id, env), bound)
  {
    var s' := s.(timers := s.timers - {id});
    assert TimersOk(s', bound);
    ResumeKeepsTimers(s', env, bound);
    FetchKeepsTimers(s', ForPoll, env, bound);
    hide TimersOk, ResumeSpec, BeginFetch;
  }

  lemma HandleKeepsTimers(s: State, e: Event, bound: int)
    requires TimersOk(s, bound)
    ensures TimersOk(Handle(s, e), bound)
  {
    hide BeginFetch, SyncNowSpec, ResumeSpec, TimerFiredSpec, FetchSettledSpec, CC.GetSpec, CC.Settled;
    match e {
      case Start(env) => FetchKeepsTimers(s.(started := true), ForStart, env, bound);
      case CallSyncNow(env) => ResumeKeepsTimers(s, env, bound);
      case TimerFires(id, env) => TimerFiredKeepsTimers(s, id, env, bound);
      case FetchSettles(id, result, env) => FetchSettledKeepsTimers(s, id, result, env, bound);
      case CredentialsChange(env) => ResumeKeepsTimers(s.(creds := CC.Invalidated(s.creds)), env, bound);
      case _ =>
    }
  }

  /** Every live timer is due within the longer of the two configured intervals. */
  lemma {:induction false} DelaysBounded(initial: int, max: int, ttl: int, es: seq<Event>)
    ensures TimersOk(Run(Step, Initial(initial, max, ttl), es), if initial < max then max else initial)
  {
    hide Handle;
    if es != [] {
      DelaysBounded(initial, max, ttl, es[..|es| - 1]);
      HandleKeepsTimers(Tick(Run(Step, Initial(initial, max, ttl), es[..|es| - 1])), es[|es| - 1],
                        if initial < max then max else initial);
    }
  }

  lemma PauseKeepsAlive(s: State)
    requires (forall t :: t in s.timers ==> t < s.nextId) && (s.started ==> RecheckArmed(s))
    ensures var s' := PauseForCredentials(s); s'.started ==> RecheckArmed(s') && (s'.syncNowActive || Progressing(s'))
  {
    if !s.waitingForCredentials {
      SetTimerArms(ClearTimer(s.(waitingForCredentials := true, subscribed := true)), Recheck, s.maxIntervalMs);
    }
  }

  lemma ScheduleKeepsAlive(s: State)
    requires (forall t :: t in s.timers ==> t < s.nextId) && (s.started ==> RecheckArmed(s))
    ensures Alive(ScheduleNextPoll(s))
  {
    SetTimerArms(s, Poll, s.currentIntervalMs);
    var s' := ScheduleNextPoll(s);
    if s.started && s.waitingForCredentials && !s.syncNowActive {
      var t :| t in s.timers && s.timers[t].kind == Recheck;
      assert t in s'.timers && s'.timers[t].kind == Recheck;
    }
  }

  lemma SyncSettledKeepsAlive(s: State, id: nat, result: FetchResult, env: Env)
    requires Alive(s) && forall t :: t in s.timers ==> t < s.nextId
    ensures Alive(SyncSettled(s, id, result, env))
  {
    hide ReadCredentials, ScheduleNextPoll, PauseForCredentials;
    var cleared := ClearTimer(ClearCredentialWatch(SyncEnded(s, id, result)));
    assert !cleared.syncNowActive && !cleared.waitingForCredentials;
    PauseKeepsAlive(cleared);
    ScheduleKeepsAlive(cleared);
    PauseKeepsActivity(cleared);
  }

  lemma PauseKeepsActivity(s: State)
    ensures PauseForCredentials(s).syncNowActive == s.syncNowActive && PauseForCredentials(s).started == s.started
  {
  }

  lemma StartSettledKeepsAlive(s: State, id: nat, result: FetchResult)
    requires Alive(s) && forall t :: t in s.timers ==> t < s.nextId
    ensures Alive(StartSettled(s, id, result))
  {
    var landed := Land(s, id);
    PauseKeepsActivity(landed);
    PauseKeepsAlive(landed);
    ScheduleKeepsAlive(landed.(currentIntervalMs := s.maxIntervalMs));
    ScheduleKeepsAlive(landed);
    hide ScheduleNextPoll, PauseForCredentials;
  }

  lemma PollSettledKeepsAlive(s: State, id: nat, result: FetchResult)
    requires id in s.flights && Alive(s) && forall t :: t in s.timers ==> t < s.nextId
    ensures Alive(PollSettled(s, id, result))
  {
    PauseKeepsAlive(s.(flights := s.flights[id := s.flights[id].(purpose := PollReported)]));
    assert id in PollSettled(s, id, result).flights;
  }

  lemma PollFinallyKeepsAlive(s: State, id: nat)
    requires Alive(s) && forall t :: t in s.timers ==> t < s.nextId
    ensures Alive(PollFinally(s, id))
  {
    if s.started && !s.syncNowActive && !s.waitingForCredentials {
      ScheduleKeepsAlive(Land(s, id));
    }
  }

  lemma FetchSettledKeepsAlive(s: State, id: nat, result: FetchResult, env: Env)
    requires Alive(s) && forall t :: t in s.timers ==> t < s.nextId
    ensures Alive(FetchSettledSpec(s, id, result, env))
  {
    hide Alive, SyncSettled, StartSettled, PollSettled, PollFinally;
    if id in s.flights {
      match s.flights[id].purpose {
        case ForStart => StartSettledKeepsAlive(s, id, result);
        case ForSync => SyncSettledKeepsAlive(s, id, result, env);
        case ForPoll => PollSettledKeepsAlive(s, id, result);
        case PollReported => PollFinallyKeepsAlive(s, id);
      }
    }
  }

  lemma TimerFiredKeepsAlive(s: State, id: nat, env: Env)
    requires Alive(s)
    ensures Alive(TimerFiredSpec(s, id, env))
  {
    hide CC.GetSpec;
    if id in s.timers {
      var s' := s.(timers := s.timers - {id});
      if s.timers[id].kind.Poll? {
        if s.started {
          assert s.nextId in BeginFetch(s', ForPoll, env).flights;
          forall t | t in s.timers && s.timers[t].kind == Recheck
            ensures t in TimerFiredSpec(s, id, env).timers && s'.timers[t].kind == Recheck
          {
          }
        }
      } else if s.started && !s.waitingForCredentials {
        forall t | t in s.timers && s.timers[t].kind == Poll ensures t in s'.timers && s'.timers[t].kind == Poll {
        }
      }
    }
  }

  lemma HandleKeepsAlive(s: State, e: Event)
    requires Alive(s) && (forall t :: t in s.timers ==> t < s.nextId) && (e.Start? ==> RecheckArmed(s))
    ensures Alive(Handle(s, e))
  {
    hide CC.GetSpec, CC.Settled, FetchSettledSpec, TimerFiredSpec;
    match e {
      case Start(env) => assert s.nextId in BeginFetch(s.(started := true), ForStart, env).flights;
      case TimerFires(id, env) => TimerFiredKeepsAlive(s, id, env);
      case FetchSettles(id, result, env) => FetchSettledKeepsAlive(s, id, result, env);
      case _ =>
    }
  }

  function Before(s: State, es: seq<Event>, i: nat): State
    requires i <= |es|
  {
    Run(Step, s, es[..i])
  }

  /** No run stalls whose every `start` finds the safety net armed. */
  lemma {:induction false} NoStallAfterArmedStarts(initial: int, max: int, ttl: int, es: seq<Event>)
    requires forall i :: 0 <= i < |es| && es[i].Start? ==> RecheckArmed(Before(Initial(initial, max, ttl), es, i))
    ensures Alive(Run(Step, Initial(initial, max, ttl), es))
  {
    hide Handle;
    if es != [] {
      var prefix := es[..|es| - 1];
      assert forall i :: 0 <= i <= |prefix| ==> prefix[..i] == es[..i];
      NoStallAfterArmedStarts(initial, max, ttl, prefix);
      DelaysBounded(initial, max, ttl, prefix);
      HandleKeepsAlive(Tick(Run(Step, Initial(initial, max, ttl), prefix)), es[|es| - 1]);
    }
  }

  ghost predicate NeverStarted(s: State) {
    && !s.started && !s.waitingForCredentials && s.timers == map[]
    && forall id :: id in s.flights ==> s.flights[id].purpose.ForSync?
  }

  lemma HandleKeepsNeverStarted(s: State, e: Event)
    requires NeverStarted(s) && !e.Start?
    ensures NeverStarted(Handle(s, e))
  {
    hide ReadCredentials, CC.GetSpec, CC.Settled;
    if e.CallSyncNow? {
    }
  }

  lemma {:induction false} IdleBeforeStart(initial: int, max: int, ttl: int, es: seq<Event>)
    requires forall i :: 0 <= i < |es| ==> !es[i].Start?
    ensures NeverStarted(Run(Step, Initial(initial, max, ttl), es))
  {
    hide Handle;
    if es != [] {
      IdleBeforeStart(initial, max, ttl, es[..|es| - 1]);
      HandleKeepsNeverStarted(Tick(Run(Step, Initial(initial, max, ttl), es[..|es| - 1])), es[|es| - 1]);
    }
  }

  /** In every reachable state of a run with one `start`, while started something
      is always due: a fetch in flight, an active `syncNow`, a live poll timer, or
      a pause with its safety timer. */
  lemma {:induction false} NoStall(initial: int, max: int, ttl: int, es: seq<Event>)
    requires forall i, j :: 0 <= i < j < |es| ==> !(es[i].Start? && es[j].Start?)
    ensures var s := Run(Step, Initial(initial, max, ttl), es); s.started ==> Progressing(s)
  {
    hide Handle;
    var s0 := Initial(initial, max, ttl);
    forall i | 0 <= i < |es| && es[i].Start? ensures RecheckArmed(Before(s0, es, i)) {
      IdleBeforeStart(initial, max, ttl, es[..i]);
    }
    NoStallAfterArmedStarts(initial, max, ttl, es);
  }

  // ----- the polling interval -----

  predicate SettlesFetch(s: State, e: Event, result: FetchResult) {
    e.FetchSettles? && e.result == result && e.id in s.flights && !s.flights[e.id].purpose.PollReported?
  }

  predicate PollFails(s: State, e: Event) {
    SettlesFetch(s, e, Error) && s.flights[e.id].purpose.ForPoll?
  }

  /** Whether any fetch of a run has succeeded, and how many of its polls have failed. */
  predicate EverSucceeded(s0: State, es: seq<Event>) {
    es != [] && (|| EverSucceeded(s0, es[..|es| - 1])
                 || SettlesFetch(Run(Step, s0, es[..|es| - 1]), es[|es| - 1], Success))
  }

  function FailedPolls(s0: State, es: seq<Event>): nat {
    if es == [] then 0
    else FailedPolls(s0, es[..|es| - 1]) + if PollFails(Run(Step, s0, es[..|es| - 1]), es[|es| - 1]) then 1 else 0
  }

  function Doubled(interval: int, times: nat): int {
    if times == 0 then interval else 2 * Doubled(interval, times - 1)
  }

  lemma StepInterval(s: State, e: Event)
    ensures Step(s, e).maxIntervalMs == s.maxIntervalMs
    ensures Step(s, e).currentIntervalMs ==
            if SettlesFetch(s, e, Success) then s.maxIntervalMs
            else if PollFails(s, e) then Backoff(s.currentIntervalMs, s.maxIntervalMs)
            else s.currentIntervalMs
  {
    hide CC.GetSpec, CC.Settled, ReadCredentials, FetchSettledSpec;
    match e {
      case FetchSettles(id, result, env) => SettledInterval(Tick(s), id, result, env);
      case _ =>
    }
  }

  lemma SettledInterval(s: State, id: nat, result: FetchResult, env: Env)
    ensures var s' := FetchSettledSpec(s, id, result, env);
            && s'.maxIntervalMs == s.maxIntervalMs
            && s'.currentIntervalMs ==
                 if id in s.flights && !s.flights[id].purpose.PollReported? && result.Success? then s.maxIntervalMs
                 else if id in s.flights && s.flights[id].purpose.ForPoll? && result.Error?
                 then Backoff(s.currentIntervalMs, s.maxIntervalMs)
                 else s.currentIntervalMs
  {
    hide SyncSettled, StartSettled, PollSettled, Backoff;
    if id in s.flights {
      match s.flights[id].purpose {
        case ForStart => StartSettledInterval(s, id, result);
        case ForSync => SyncSettledInterval(s, id, result, env);
        case ForPoll => PollSettledInterval(s, id, result);
        case PollReported =>
      }
    }
  }

  lemma StartSettledInterval(s: State, id: nat, result: FetchResult)
    ensures var s' := StartSettled(s, id, result);
            && s'.maxIntervalMs == s.maxIntervalMs
            && s'.currentIntervalMs == if result.Success? then s.maxIntervalMs else s.currentIntervalMs
  {
  }

  lemma SyncSettledInterval(s: State, id: nat, result: FetchResult, env: Env)
    ensures var s' := SyncSettled(s, id, result, env);
            && s'.maxIntervalMs == s.maxIntervalMs
            && s'.currentIntervalMs == if result.Success? then s.maxIntervalMs else s.currentIntervalMs
  {
    hide SyncRound;
    SyncRoundInterval(SyncEnded(s, id, result), env);
  }

  lemma SyncRoundInterval(s: State, env: Env)
    ensures SyncRound(s, env).maxIntervalMs == s.maxIntervalMs
            && SyncRound(s, env).currentIntervalMs == s.currentIntervalMs
  {
    hide ReadCredentials;
  }

  lemma PollSettledInterval(s: State, id: nat, result: FetchResult)
    requires id in s.flights
    ensures var s' := PollSettled(s, id, result);
            && s'.maxIntervalMs == s.maxIntervalMs
            && s'.currentIntervalMs ==
                 match result
                 case Success => s.maxIntervalMs
                 case MissingCredentials => s.currentIntervalMs
                 case Error => Backoff(s.currentIntervalMs, s.maxIntervalMs)
  {
    hide Backoff;
  }

  /** Until a fetch succeeds, the interval is the initial one doubled for every failed
      poll and capped at the maximum; from the first success on it is the maximum. */
  lemma {:induction false} IntervalBacksOff(initial: int, max: int, ttl: int, es: seq<Event>)
    requires 0 <= initial && 0 <= max
    ensures var s0 := Initial(initial, max, ttl);
            var s := Run(Step, s0, es);
            var failed := FailedPolls(s0, es);
            && s.maxIntervalMs == max
            && s.currentIntervalMs ==
                 if EverSucceeded(s0, es) then max
                 else if failed == 0 then initial
                 else if Doubled(initial, failed) < max then Doubled(initial, failed) else max
  {
    hide Step, SettlesFetch, PollFails;
    if es != [] {
      IntervalBacksOff(initial, max, ttl, es[..|es| - 1]);
      var s := Run(Step, Initial(initial, max, ttl), es[..|es| - 1]);
      StepInterval(s, es[|es| - 1]);
      SuccessIsNoFailure(s, es[|es| - 1]);
    }
  }

  lemma SuccessIsNoFailure(s: State, e: Event)
    ensures !(SettlesFetch(s, e, Success) && PollFails(s, e))
  {
  }

  // ----- stopping -----

  lemma NothingBeginsWhileStopped(s: State, e: Event)
    requires !s.started && !e.Start? && !e.CallSyncNow?
    ensures !Step(s, e).started && Step(s, e).flights.Keys <= s.flights.Keys
  {
    hide BeginFetch, CC.GetSpec, CC.Settled, FetchSettledSpec;
    match e {
      case FetchSettles(id, result, env) => StoppedFetchSettles(Tick(s), id, result, env);
      case _ =>
    }
  }

  lemma StoppedFetchSettles(s: State, id: nat, result: FetchResult, env: Env)
    requires !s.started
    ensures var s' := FetchSettledSpec(s, id, result, env); !s'.started && s'.flights.Keys <= s.flights.Keys
  {
    hide SyncRound, StartSettled, PollSettled;
    if id in s.flights {
      StoppedStartSettles(s, id, result);
      StoppedPollSettles(s, id, result);
    }
  }

  lemma StoppedStartSettles(s: State, id: nat, result: FetchResult)
    ensures StartSettled(s, id, result).started == s.started && StartSettled(s, id, result).flights == s.flights - {id}
  {
    hide ScheduleNextPoll, PauseForCredentials;
    ScheduleLeavesFlights(Land(s, id).(currentIntervalMs := s.maxIntervalMs));
    ScheduleLeavesFlights(Land(s, id));
  }

  lemma StoppedPollSettles(s: State, id: nat, result: FetchResult)
    requires id in s.flights
    ensures PollSettled(s, id, result).started == s.started && PollSettled(s, id, result).flights.Keys == s.flights.Keys
  {
    hide ScheduleNextPoll, PauseForCredentials;
    ScheduleLeavesFlights(s.(flights := s.flights[id := s.flights[id].(purpose := PollReported)]));
  }

  lemma ScheduleLeavesFlights(s: State)
    ensures ScheduleNextPoll(s).flights == PauseForCredentials(s).flights == s.flights
    ensures ScheduleNextPoll(s).started == PauseForCredentials(s).started == s.started
  {
  }

  /** After `stop` no fetch begins, whatever is still in flight, pending or armed,
      until somebody calls `start` or `syncNow`. */
  lemma {:induction false} NothingBeginsAfterStop(initial: int, max: int, ttl: int, es: seq<Event>, i: nat)
    requires i < |es| && es[i].Stop?
    requires forall k :: i < k < |es| ==> !es[k].Start? && !es[k].CallSyncNow?
    ensures var s := Run(Step, Initial(initial, max, ttl), es);
            !s.started && s.flights.Keys <= Before(Initial(initial, max, ttl), es, i).flights.Keys
  {
    var s0 := Initial(initial, max, ttl);
    var prefix := es[..|es| - 1];
    if i < |es| - 1 {
      hide Step;
      assert prefix[..i] == es[..i];
      NothingBeginsAfterStop(initial, max, ttl, prefix, i);
      NothingBeginsWhileStopped(Run(Step, s0, prefix), es[|es| - 1]);
    } else {
      assert prefix == es[..i];
      StopEndsNothing(Run(Step, s0, prefix));
      hide Step;
    }
  }

  lemma StopEndsNothing(s: State)
    ensures !Step(s, Stop).started && Step(s, Stop).flights == s.flights
  {
  }

  // ----- no dropped sync -----

  lemma InitialIsValid(initial: int, max: int, ttl: int)
    ensures Valid(Initial(initial, max, ttl))
  {
    CC.InitialIsValid(ttl);
  }

  lemma {:induction false} Reachable(initial: int, max: int, ttl: int, es: seq<Event>)
    ensures var s := Run(Step, Initial(initial, max, ttl), es);
            && Valid(s) && s.creds.clock == |es|
            && (forall i :: 0 <= i < |es| && es[i].CredentialsChange? ==> s.creds.invalidatedAt >= i + 1)
  {
    hide Step, Valid;
    if es == [] {
      InitialIsValid(initial, max, ttl);
    } else {
      Reachable(initial, max, ttl, es[..|es| - 1]);
      StepKeepsValid(Run(Step, Initial(initial, max, ttl), es[..|es| - 1]), es[|es| - 1]);
    }
  }

  /** `syncNow` fetches never overlap, and one is in flight exactly while the loop is active. */
  lemma {:induction false} SyncFetchesNeverOverlap(initial: int, max: int, ttl: int, es: seq<Event>, a: nat, b: nat)
    requires var s := Run(Step, Initial(initial, max, ttl), es);
             && a in s.flights && s.flights[a].purpose.ForSync?
             && b in s.flights && s.flights[b].purpose.ForSync?
    ensures a == b && Run(Step, Initial(initial, max, ttl), es).syncNowActive
  {
    hide Step;
    Reachable(initial, max, ttl, es);
  }

  lemma {:induction false} LatestCallIsKnown(initial: int, max: int, ttl: int, es: seq<Event>, c: nat)
    requires c < |es| && CallsSync(Before(Initial(initial, max, ttl), es, c), es[c])
    ensures Run(Step, Initial(initial, max, ttl), es).lastSyncCall >= c + 1
  {
    hide Step, CallsSync, Valid;
    var s0 := Initial(initial, max, ttl);
    var prefix := es[..|es| - 1];
    Reachable(initial, max, ttl, prefix);
    StepKeepsValid(Run(Step, s0, prefix), es[|es| - 1]);
    if c < |es| - 1 {
      assert prefix[..c] == es[..c];
      LatestCallIsKnown(initial, max, ttl, prefix, c);
    }
  }

  /** A flight either was there before a step, or begins in it and knows the latest invalidation. */
  ghost predicate CarriedOrNew(s: State, s': State, id: nat) {
    id in s'.flights ==>
      || (id in s.flights && s'.flights[id].beganAt == s.flights[id].beganAt
          && s'.flights[id].freshSince == s.flights[id].freshSince)
      || s'.flights[id].freshSince == s'.creds.invalidatedAt
  }

  lemma HandleFlights(s: State, e: Event, id: nat)
    ensures CarriedOrNew(s, Handle(s, e), id)
  {
    hide ReadCredentials, CC.GetSpec, CC.Settled;
    match e {
      case Start(env) =>
      case CallSyncNow(env) => SyncNowFlights(s, env, id);
      case TimerFires(t, env) =>
        SyncNowFlights(s.(timers := s.timers - {t}), env, id);
      case FetchSettles(f, result, env) => FetchSettledFlights(s, f, result, env, id);
      case CredentialsChange(env) => SyncNowFlights(s.(creds := CC.Invalidated(s.creds)), env, id);
      case _ =>
    }
  }

  lemma SyncNowFlights(s: State, env: Env, id: nat)
    ensures CarriedOrNew(s, SyncNowSpec(s, env), id)
  {
    hide ReadCredentials;
  }

  lemma SyncSettledFlights(s: State, f: nat, result: FetchResult, env: Env, id: nat)
    ensures CarriedOrNew(s, SyncSettled(s, f, result, env), id)
  {
    hide ReadCredentials;
  }

  lemma StartSettledFlights(s: State, f: nat, result: FetchResult, id: nat)
    ensures CarriedOrNew(s, StartSettled(s, f, result), id)
  {
  }

  lemma PollSettledFlights(s: State, f: nat, result: FetchResult, id: nat)
    requires f in s.flights
    ensures CarriedOrNew(s, PollSettled(s, f, result), id)
  {
  }

  lemma FetchSettledFlights(s: State, f: nat, result: FetchResult, env: Env, id: nat)
    ensures CarriedOrNew(s, FetchSettledSpec(s, f, result, env), id)
  {
    hide SyncSettled, StartSettled, PollSettled;
    if f in s.flights {
      match s.flights[f].purpose {
        case ForStart => StartSettledFlights(s, f, result, id);
        case ForSync => SyncSettledFlights(s, f, result, env, id);
        case ForPoll => PollSettledFlights(s, f, result, id);
        case PollReported =>
      }
    }
  }

  lemma {:induction false} FlightsKnowInvalidations(initial: int, max: int, ttl: int, es: seq<Event>, id: nat, i: nat)
    requires i < |es| && es[i].CredentialsChange?
    requires var s := Run(Step, Initial(initial, max, ttl), es); id in s.flights && i + 1 <= s.flights[id].beganAt
    ensures Run(Step, Initial(initial, max, ttl), es).flights[id].freshSince >= i + 1
  {
    var prefix := es[..|es| - 1];
    var s := Run(Step, Initial(initial, max, ttl), prefix);
    Reachable(initial, max, ttl, es);
    Reachable(initial, max, ttl, prefix);
    assert id in s.flights ==> s.flights[id].beganAt <= |prefix|;
    hide Valid, Handle;
    HandleFlights(Tick(s), es[|es| - 1], id);
    if Run(Step, Initial(initial, max, ttl), es).flights[id].freshSince < i + 1 {
      FlightsKnowInvalidations(initial, max, ttl, prefix, id, i);
    }
  }

  /** When a `syncNow` loop ends while started, its last fetch began no earlier than
      every `syncNow` call made so far, and both its credential reads began after
      every invalidation that preceded (or made) any of those calls. */
  lemma {:induction false} NoSyncIsDropped(initial: int, max: int, ttl: int, es: seq<Event>, id: nat,
                                           result: FetchResult, env: Env, c: nat)
    requires var s := Run(Step, Initial(initial, max, ttl), es);
             var s' := Step(s, FetchSettles(id, result, env));
             && id in s.flights && s.flights[id].purpose.ForSync?
             && s'.started && !s'.syncNowActive
    requires c < |es| && CallsSync(Before(Initial(initial, max, ttl), es, c), es[c])
    ensures var s := Run(Step, Initial(initial, max, ttl), es);
            && s.flights[id].beganAt >= c + 1
            && forall i, r :: 0 <= i <= c && es[i].CredentialsChange? && r in s.flights[id].sources
                 ==> r < |s.creds.begun| && s.creds.begun[r].beganAt >= i + 1
  {
    var s := Run(Step, Initial(initial, max, ttl), es);
    Reachable(initial, max, ttl, es);
    LatestCallIsKnown(initial, max, ttl, es, c);
    LoopEndsOnlyWhenNothingPends(s, id, result, env);
    hide Step, CallsSync;
    forall i, r | 0 <= i <= c && es[i].CredentialsChange? && r in s.flights[id].sources
      ensures r < |s.creds.begun| && s.creds.begun[r].beganAt >= i + 1
    {
      FlightsKnowInvalidations(initial, max, ttl, es, id, i);
    }
  }

  lemma LoopEndsOnlyWhenNothingPends(s: State, id: nat, result: FetchResult, env: Env)
    requires id in s.flights && s.flights[id].purpose.ForSync?
    requires var s' := Step(s, FetchSettles(id, result, env)); s'.started && !s'.syncNowActive
    ensures !s.pendingResync
  {
    hide CC.GetSpec;
  }

  // ----- the class -----

  class RemoteFeatureFlagSync {
    var started: bool
    var pollTimer: Option<nat>
    var syncNowActive: bool
    var pendingResync: bool
    var waitingForCredentials: bool
    /** Whether `unsubscribeCredentials` is set. */
    var subscribed: bool
    var currentIntervalMs: int
    const maxIntervalMs: int
    const credentials: CC.Cache
    /** What the event loop holds on this object's behalf. */
    var timers: map<nat, Timer>
    var flights: map<nat, Flight>
    var nextId: nat
    var syncFetch: nat
    var lastSyncCall: nat

    function View(): State
      reads this, credentials
    {
      State(started, pollTimer, syncNowActive, pendingResync, waitingForCredentials, subscribed, currentIntervalMs,
            maxIntervalMs, timers, flights, nextId, syncFetch, lastSyncCall, credentials.View())
    }

    constructor (initialIntervalMs: int, maxIntervalMs: int, credentials: CC.Cache)
      ensures this.credentials == credentials
      ensures View() == Initial(initialIntervalMs, maxIntervalMs, 0).(creds := credentials.View())
    {
      started, pollTimer, syncNowActive, pendingResync := false, None, false, false;
      waitingForCredentials, subscribed := false, false;
      currentIntervalMs := initialIntervalMs;
      this.maxIntervalMs, this.credentials := maxIntervalMs, credentials;
      timers, flights, nextId, syncFetch, lastSyncCall := map[], map[], 0, 0, 0;
    }

    // private helpers

    method ClearPollTimer()
      modifies this
      ensures View() == ClearTimer(old(View()))
    {
      if pollTimer.Some? {
        timers := timers - {pollTimer.value};
        pollTimer := None;
      }
    }

    method SetPollTimer(kind: TimerKind, delay: int)
      modifies this
      ensures View() == SetTimer(old(View()), kind, delay)
    {
      timers := timers[nextId := Timer(kind, delay)];
      pollTimer := Some(nextId);
      nextId := nextId + 1;
    }

    method SchedulePoll()
      modifies this
      ensures View() == ScheduleNextPoll(old(View()))
    {
      SetPollTimer(Poll, currentIntervalMs);
    }

    method ClearWatch()
      modifies this
      ensures View() == ClearCredentialWatch(old(View()))
    {
      waitingForCredentials := false;
      subscribed := false;
    }

    method Pause()
      modifies this
      ensures View() == PauseForCredentials(old(View()))
    {
      if waitingForCredentials {
        return;
      }
      waitingForCredentials := true;
      subscribed := true;
      ClearPollTimer();
      SetPollTimer(Recheck, maxIntervalMs);
    }

    /** `fetchAndCache` up to its first suspension. */
    method FetchAndCache(purpose: Purpose, env: Env) returns (id: nat)
      modifies this, credentials
      ensures id == old(nextId)
      ensures View() == BeginFetch(old(View()), purpose, env)
    {
      var sources: seq<nat> := [];
      if env.platformEnabled {
        var url := credentials.Get(PLATFORM_URL_KEY, false, env.now);
        var key := credentials.Get(API_KEY_KEY, false, env.now);
        sources := [url.source, key.source];
      }
      id := nextId;
      flights := flights[id := Flight(purpose, credentials.clock, sources, credentials.invalidatedAt)];
      nextId := nextId + 1;
    }

    // calls from outside

    method StartSync(env: Env)
      modifies this, credentials
      ensures View() == StartSpec(old(View()), env)
    {
      started := true;
      var id := FetchAndCache(ForStart, env);
    }

    method StopSync()
      modifies this
      ensures View() == StopSpec(old(View()))
    {
      started := false;
      ClearPollTimer();
      ClearWatch();
    }

    method SyncNow(env: Env)
      modifies this, credentials
      ensures View() == SyncNowSpec(old(View()), env)
    {
      lastSyncCall := credentials.clock;
      if syncNowActive {
        pendingResync := true;
        return;
      }
      RunRound(env);
    }

    /** The body of the `do` loop up to its `await`. */
    method RunRound(env: Env)
      modifies this, credentials
      ensures View() == SyncRound(old(View()), env)
    {
      pendingResync := false;
      syncNowActive := true;
      ClearWatch();
      ClearPollTimer();
      syncFetch := FetchAndCache(ForSync, env);
    }

    method Invalidate(env: Env)
      modifies this, credentials
      ensures View() == InvalidateSpec(old(View()), env)
    {
      credentials.InvalidateAll();
      if subscribed {
        Resume(env);
      }
    }

    // continuations and timers

    method Resume(env: Env)
      modifies this, credentials
      ensures View() == ResumeSpec(old(View()), env)
    {
      if !started || !waitingForCredentials {
        return;
      }
      SyncNow(env);
    }

    method PollNow(env: Env)
      modifies this, credentials
      ensures View() == PollSpec(old(View()), env)
    {
      if !started {
        return;
      }
      var id := FetchAndCache(ForPoll, env);
    }

    method TimerFired(id: nat, env: Env)
      modifies this, credentials
      ensures View() == TimerFiredSpec(old(View()), id, env)
    {
      if id !in timers {
        return;
      }
      var timer := timers[id];
      timers := timers - {id};
      match timer.kind {
        case Poll => PollNow(env);
        case Recheck => Resume(env);
      }
    }

    method ContinueStart(id: nat, result: FetchResult)
      modifies this
      ensures View() == StartSettled(old(View()), id, result)
    {
      flights := flights - {id};
      if result.Success? {
        currentIntervalMs := maxIntervalMs;
        SchedulePoll();
      } else if result.MissingCredentials? {
        Pause();
      } else {
        SchedulePoll();
      }
    }

    method ContinueSync(id: nat, result: FetchResult, env: Env)
      modifies this, credentials
      ensures View() == SyncSettled(old(View()), id, result, env)
    {
      flights := flights - {id};
      if result.Success? {
        currentIntervalMs := maxIntervalMs;
      }
      syncNowActive := false;
      if started && pendingResync {
        RunRound(env);
        return;
      }
      if started {
        ClearWatch();
        ClearPollTimer();
        if result.MissingCredentials? {
          Pause();
        } else {
          SchedulePoll();
        }
      }
    }

    method ContinuePoll(id: nat, result: FetchResult)
      requires id in flights
      modifies this
      ensures View() == PollSettled(old(View()), id, result)
    {
      flights := flights[id := flights[id].(purpose := PollReported)];
      if result.Success? {
        currentIntervalMs := maxIntervalMs;
      } else if result.MissingCredentials? {
        Pause();
      } else {
        currentIntervalMs := Backoff(currentIntervalMs, maxIntervalMs);
      }
    }

    method FinishPoll(id: nat)
      modifies this
      ensures View() == PollFinally(old(View()), id)
    {
      flights := flights - {id};
      if started && !syncNowActive && !waitingForCredentials {
        SchedulePoll();
      }
    }
  }
}
