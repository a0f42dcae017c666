/** What every event does to the flag synchroniser: its pause, timers, fetches and flags
    after a step, told from the state before it and the event alone. */
module FlagSteps {
  import opened InsertionMap
  import opened Runs
  import opened FlagSync
  import CC = CredentialCache

  predicate Lands(s: State, e: Event, purpose: Purpose) {
    e.FetchSettles? && e.id in s.flights && s.flights[e.id].purpose == purpose
  }

  /** A `syncNow` loop ends while started. */
  predicate EndsLoop(s: State, e: Event) {
    Lands(s, e, ForSync) && s.started && !s.pendingResync
  }

  /** A round of `syncNow` begins: the first of a loop, or one more. */
  predicate BeginsRound(s: State, e: Event) {
    (CallsSync(s, e) && !s.syncNowActive) || (Lands(s, e, ForSync) && s.started && s.pendingResync)
  }

  /** Credentials are found missing by a start, a poll, or a `syncNow` loop that ends. */
  predicate FindsMissing(s: State, e: Event) {
    e.FetchSettles? && e.result.MissingCredentials? && (Lands(s, e, ForStart) || Lands(s, e, ForPoll) || EndsLoop(s, e))
  }

  /** A pause begins; the end of a loop renews one that a poll began meanwhile. */
  predicate BeginsPause(s: State, e: Event) {
    FindsMissing(s, e) && (!s.waitingForCredentials || EndsLoop(s, e))
  }

  /** Polling goes on: after a start or a loop that did not find credentials missing, or
      after a poll that left nobody else in charge. */
  predicate GoesOnPolling(s: State, e: Event) {
    || (Lands(s, e, ForStart) && !e.result.MissingCredentials?)
    || (EndsLoop(s, e) && !e.result.MissingCredentials?)
    || (Lands(s, e, PollReported) && s.started && !s.syncNowActive && !s.waitingForCredentials)
  }

  /** The timer that the handle names is cancelled. */
  predicate Cancels(s: State, e: Event) {
    e.Stop? || BeginsRound(s, e) || EndsLoop(s, e) || BeginsPause(s, e)
  }

  function Cancelled(s: State, e: Event): set<nat> {
    if Cancels(s, e) && s.pollTimer.Some? then {s.pollTimer.value} else {}
  }

  function Fired(e: Event): set<nat> {
    if e.TimerFires? then {e.id} else {}
  }

  /** The fetch that a step begins, if any. */
  function Begins(s: State, e: Event): Option<Purpose> {
    if e.Start? then Some(ForStart)
    else if BeginsRound(s, e) then Some(ForSync)
    else if e.TimerFires? && e.id in s.timers && s.timers[e.id].kind.Poll? && s.started then Some(ForPoll)
    else None
  }

  /** A step in every respect but the fetches' reads. */
  ghost predicate IsExact(s: State, e: Event, s': State) {
    && (s'.started <==> e.Start? || (s.started && !e.Stop?))
    && (s'.waitingForCredentials <==>
          || FindsMissing(s, e)
          || (s.waitingForCredentials && !e.Stop? && !BeginsRound(s, e) && !EndsLoop(s, e)))
    && (s'.syncNowActive <==> BeginsRound(s, e) || (s.syncNowActive && !Lands(s, e, ForSync)))
    && (s'.pendingResync <==> (CallsSync(s, e) && s.syncNowActive) || (s.pendingResync && !BeginsRound(s, e)))
    && s'.nextId == s.nextId + (if BeginsPause(s, e) || GoesOnPolling(s, e) || Begins(s, e).Some? then 1 else 0)
    && TimersExact(s, e, s') && FlightsExact(s, e, s')
  }

  ghost predicate TimersExact(s: State, e: Event, s': State) {
    var kept := s.timers - Fired(e) - Cancelled(s, e);
    if BeginsPause(s, e) then
      s'.pollTimer == Some(s.nextId) && s'.timers == kept[s.nextId := Timer(Recheck, s.maxIntervalMs)]
    else if GoesOnPolling(s, e) then
      s'.pollTimer == Some(s.nextId) && s'.timers == kept[s.nextId := Timer(Poll, s'.currentIntervalMs)]
    else
      s'.pollTimer == (if Cancels(s, e) then None else s.pollTimer) && s'.timers == kept
  }

  ghost predicate FlightsExact(s: State, e: Event, s': State) {
    var left :=
      if e.FetchSettles? && e.id in s.flights then
        if s.flights[e.id].purpose.ForPoll? then s.flights[e.id := s.flights[e.id].(purpose := PollReported)]
        else s.flights - {e.id}
      else s.flights;
    match Begins(s, e)
    case None => s'.flights == left
    case Some(purpose) =>
      && s'.flights.Keys == left.Keys + {s.nextId} && (forall id :: id in left ==> s'.flights[id] == left[id])
      && s'.flights[s.nextId].purpose == purpose && s'.flights[s.nextId].beganAt == s.creds.clock + 1
      && (purpose.ForSync? ==> s'.syncFetch == s.nextId)
  }

  ghost predicate FreshIds(s: State) {
    (forall t :: t in s.timers ==> t < s.nextId) && (forall id :: id in s.flights ==> id < s.nextId)
  }

  lemma BeginsAFlight(s: State, purpose: Purpose, env: Env)
    requires FreshIds(s)
    ensures var s' := BeginFetch(s, purpose, env);
            && s' == s.(creds := s'.creds, flights := s'.flights, nextId := s.nextId + 1)
            && s'.flights.Keys == s.flights.Keys + {s.nextId}
            && (forall id :: id in s.flights ==> s'.flights[id] == s.flights[id])
            && s'.flights[s.nextId].purpose == purpose && s'.flights[s.nextId].beganAt == s.creds.clock
  {
    ReadsKeepClock(s.creds, env);
    hide ReadCredentials;
  }

  lemma ReadsKeepClock(c: CC.State, env: Env)
    ensures ReadCredentials(c, env).0.clock == c.clock
  {
  }

  /** A round: pause lifted, timer cancelled, one fetch more. */
  lemma RoundIs(s: State, env: Env)
    requires FreshIds(s)
    ensures var s' := SyncRound(s, env);
            && s' == s.(pendingResync := false, syncNowActive := true, waitingForCredentials := false,
                        subscribed := false, pollTimer := None, timers := s'.timers, flights := s'.flights,
                        creds := s'.creds, nextId := s.nextId + 1, syncFetch := s.nextId)
            && s'.timers == (if s.pollTimer.Some? then s.timers - {s.pollTimer.value} else s.timers)
            && s'.flights.Keys == s.flights.Keys + {s.nextId}
            && (forall id :: id in s.flights ==> s'.flights[id] == s.flights[id])
            && s'.flights[s.nextId].purpose == ForSync && s'.flights[s.nextId].beganAt == s.creds.clock
  {
    var s1 := ClearTimer(ClearCredentialWatch(s.(pendingResync := false, syncNowActive := true)));
    BeginsAFlight(s1, ForSync, env);
    hide BeginFetch;
  }

  lemma SyncCallExact(s: State, s1: State, e: Event, env: Env)
    requires FreshIds(s1) && CallsSync(s, e) && !e.FetchSettles? && !e.Start? && !e.Stop?
    requires s1 == s.(timers := s.timers - Fired(e), creds := s1.creds, lastSyncCall := s1.lastSyncCall)
    requires s1.creds.clock == s.creds.clock + 1
    requires Begins(s, e) != Some(ForPoll)
    ensures IsExact(s, e, SyncNowSpec(s1, env))
  {
    var s2 := s1.(lastSyncCall := s1.creds.clock);
    RoundIs(s2, env);
    hide SyncRound;
  }

  lemma QuietExact(s: State, e: Event, s': State)
    requires !e.FetchSettles? && !e.Start? && !e.Stop? && !CallsSync(s, e) && Begins(s, e).None?
    requires s' == s.(timers := s.timers - Fired(e), creds := s'.creds)
    ensures IsExact(s, e, s')
  {
  }

  lemma TimerExact(s: State, t: nat, env: Env)
    requires FreshIds(s)
    ensures IsExact(s, TimerFires(t, env), Step(s, TimerFires(t, env)))
  {
    var e := TimerFires(t, env);
    var s1 := Tick(s).(timers := s.timers - {t});
    hide IsExact, SyncNowSpec, BeginFetch;
    if CallsSync(s, e) {
      SyncCallExact(s, s1, e, env);
    } else if Begins(s, e) == Some(ForPoll) {
      PollBeginsExact(s, t, env);
    } else {
      assert t !in s.timers ==> s.timers - {t} == s.timers;
      QuietExact(s, e, s1);
    }
  }

  lemma PollBeginsExact(s: State, t: nat, env: Env)
    requires FreshIds(s) && t in s.timers && s.timers[t].kind.Poll? && s.started
    ensures IsExact(s, TimerFires(t, env), Step(s, TimerFires(t, env)))
  {
    var s1 := Tick(s).(timers := s.timers - {t});
    BeginsAFlight(s1, ForPoll, env);
    hide BeginFetch;
  }

  lemma InvalidateExact(s: State, env: Env)
    requires FreshIds(s)
    ensures IsExact(s, CredentialsChange(env), Step(s, CredentialsChange(env)))
  {
    var e := CredentialsChange(env);
    var s1 := Tick(s).(creds := CC.Invalidated(Tick(s).creds));
    assert s.timers - Fired(e) == s.timers;
    hide IsExact, SyncNowSpec;
    if CallsSync(s, e) {
      SyncCallExact(s, s1, e, env);
    } else {
      QuietExact(s, e, s1);
    }
  }

  lemma StartExact(s: State, env: Env)
    requires FreshIds(s)
    ensures IsExact(s, Start(env), Step(s, Start(env)))
  {
    BeginsAFlight(Tick(s).(started := true), ForStart, env);
    hide BeginFetch;
  }

  lemma StopExact(s: State)
    ensures IsExact(s, Stop, Step(s, Stop))
  {
  }

  lemma StartMissingExact(s: State, id: nat, env: Env)
    requires Lands(s, FetchSettles(id, MissingCredentials, env), ForStart)
    ensures IsExact(s, FetchSettles(id, MissingCredentials, env), Step(s, FetchSettles(id, MissingCredentials, env)))
  {
    hide SyncSettled, PollSettled, PollFinally, ScheduleNextPoll, CC.GetSpec, CC.Settled;
  }

  lemma StartAnsweredExact(s: State, id: nat, result: FetchResult, env: Env)
    requires Lands(s, FetchSettles(id, result, env), ForStart) && !result.MissingCredentials?
    ensures IsExact(s, FetchSettles(id, result, env), Step(s, FetchSettles(id, result, env)))
  {
    hide SyncSettled, PollSettled, PollFinally, PauseForCredentials, CC.GetSpec, CC.Settled;
  }

  lemma PollSettledExact(s: State, id: nat, result: FetchResult, env: Env)
    requires Lands(s, FetchSettles(id, result, env), ForPoll)
    ensures IsExact(s, FetchSettles(id, result, env), Step(s, FetchSettles(id, result, env)))
  {
  }

  lemma PollFinallyExact(s: State, id: nat, result: FetchResult, env: Env)
    requires Lands(s, FetchSettles(id, result, env), PollReported)
    ensures IsExact(s, FetchSettles(id, result, env), Step(s, FetchSettles(id, result, env)))
  {
  }

  lemma AnotherRoundExact(s: State, id: nat, result: FetchResult, env: Env)
    requires FreshIds(s) && Lands(s, FetchSettles(id, result, env), ForSync) && s.started && s.pendingResync
    ensures IsExact(s, FetchSettles(id, result, env), Step(s, FetchSettles(id, result, env)))
  {
    RoundIs(SyncEnded(Tick(s), id, result), env);
    hide SyncRound;
  }

  lemma LoopEndsExact(s: State, id: nat, result: FetchResult, env: Env)
    requires Lands(s, FetchSettles(id, result, env), ForSync) && !(s.started && s.pendingResync)
    ensures IsExact(s, FetchSettles(id, result, env), Step(s, FetchSettles(id, result, env)))
  {
    hide SyncRound;
  }

  lemma StepExact(s: State, e: Event)
    requires FreshIds(s) && Valid(s)
    ensures IsExact(s, e, Step(s, e))
  {
    match e {
      case Start(env) => StartExact(s, env);
      case Stop => StopExact(s);
      case CallSyncNow(env) =>
        assert s.timers - Fired(e) == s.timers;
        SyncCallExact(s, Tick(s), e, env);
      case TimerFires(id, env) => TimerExact(s, id, env);
      case CredentialsChange(env) => InvalidateExact(s, env);
      case FetchSettles(id, result, env) =>
        if id in s.flights {
          match s.flights[id].purpose {
            case ForStart =>
              if result.MissingCredentials? {
                StartMissingExact(s, id, env);
              } else {
                StartAnsweredExact(s, id, result, env);
              }
            case ForSync =>
              if s.started && s.pendingResync {
                AnotherRoundExact(s, id, result, env);
              } else {
                LoopEndsExact(s, id, result, env);
              }
            case ForPoll => PollSettledExact(s, id, result, env);
            case PollReported => PollFinallyExact(s, id, result, env);
          }
        }
      case _ =>
        assert s.timers - Fired(e) == s.timers;
        QuietExact(s, e, Step(s, e));
    }
  }

  // ----- every run -----

  function At(initial: int, max: int, ttl: int, es: seq<Event>, i: nat): State
    requires i <= |es|
  {
    Run(Step, Initial(initial, max, ttl), es[..i])
  }

  lemma StepsAreExact(initial: int, max: int, ttl: int, es: seq<Event>, i: nat)
    requires i < |es|
    ensures IsExact(At(initial, max, ttl, es, i), es[i], At(initial, max, ttl, es, i + 1))
    ensures At(initial, max, ttl, es, i).maxIntervalMs == max
    ensures FreshIds(At(initial, max, ttl, es, i))
    ensures Valid(At(initial, max, ttl, es, i)) && Valid(At(initial, max, ttl, es, i + 1))
  {
    Reachable(initial, max, ttl, es[..i]);
    Reachable(initial, max, ttl, es[..i + 1]);
    DelaysBounded(initial, max, ttl, es[..i]);
    MaxIsFixed(initial, max, ttl, es[..i]);
    RunStep(Step, Initial(initial, max, ttl), es, i);
    hide Step, Run, IsExact, Valid;
    StepExact(At(initial, max, ttl, es, i), es[i]);
  }

  lemma {:induction false} MaxIsFixed(initial: int, max: int, ttl: int, es: seq<Event>)
    ensures Run(Step, Initial(initial, max, ttl), es).maxIntervalMs == max
  {
    hide Step;
    if es != [] {
      MaxIsFixed(initial, max, ttl, es[..|es| - 1]);
      StepInterval(Run(Step, Initial(initial, max, ttl), es[..|es| - 1]), es[|es| - 1]);
    }
  }

  predicate HandleKnown(s: State) {
    s.pollTimer.Some? ==> s.pollTimer.value < s.nextId
  }

  lemma {:induction false} HandleIsOld(initial: int, max: int, ttl: int, es: seq<Event>, i: nat)
    requires i <= |es|
    ensures HandleKnown(At(initial, max, ttl, es, i))
  {
    if i > 0 {
      HandleIsOld(initial, max, ttl, es, i - 1);
      StepsAreExact(initial, max, ttl, es, i - 1);
    }
    hide Valid, Step;
  }

  ghost predicate Names(s: State, timer: Timer) {
    s.pollTimer.Some? && s.pollTimer.value in s.timers && s.timers[s.pollTimer.value] == timer
  }

  /** A step begins a wait for credentials exactly when it finds them missing: a start or a
      poll settles so, or a `syncNow` does while started with no further round asked for.
      Such a step leaves the safety net under the handle and the timer it named is gone. */
  lemma PausesExactlyWhenMissing(initial: int, max: int, ttl: int, es: seq<Event>, i: nat)
    requires i < |es|
    ensures var s := At(initial, max, ttl, es, i);
            var s' := At(initial, max, ttl, es, i + 1);
            && (!s.waitingForCredentials ==> (s'.waitingForCredentials <==> FindsMissing(s, es[i])))
            && (s'.waitingForCredentials && !s.waitingForCredentials ==>
                  && Names(s', Timer(Recheck, max)) && s'.pollTimer != s.pollTimer
                  && (s.pollTimer.Some? ==> s.pollTimer.value !in s'.timers))
  {
    StepsAreExact(initial, max, ttl, es, i);
    HandleIsOld(initial, max, ttl, es, i);
    hide Valid;
  }

  /** A start, or a `syncNow` loop that ends while started, that did not find credentials
      missing leaves a poll due after the current interval under the handle. */
  lemma PollsAfterAnswer(initial: int, max: int, ttl: int, es: seq<Event>, i: nat)
    requires i < |es| && es[i].FetchSettles?
    requires var s := At(initial, max, ttl, es, i); Lands(s, es[i], ForStart) || EndsLoop(s, es[i])
    ensures var s' := At(initial, max, ttl, es, i + 1);
            && (!es[i].result.MissingCredentials? ==> Names(s', Timer(Poll, s'.currentIntervalMs)))
            && (es[i].result.Success? ==> Names(s', Timer(Poll, max)))
            && (EndsLoop(At(initial, max, ttl, es, i), es[i]) ==>
                  !s'.syncNowActive && (s'.waitingForCredentials <==> es[i].result.MissingCredentials?))
  {
    StepsAreExact(initial, max, ttl, es, i);
    RunStep(Step, Initial(initial, max, ttl), es, i);
    hide Valid, Step, Run;
    StepInterval(At(initial, max, ttl, es, i), es[i]);
  }

  /** While started and waiting, a credential change, a due safety net or a call of `syncNow`
      ends the wait, cancels the handle's timer and begins one fetch, which `syncNow` awaits. */
  lemma WakesAtOnce(initial: int, max: int, ttl: int, es: seq<Event>, i: nat)
    requires i < |es|
    requires var s := At(initial, max, ttl, es, i);
             && s.started && s.waitingForCredentials && !s.syncNowActive
             && (|| es[i].CredentialsChange? || es[i].CallSyncNow?
                 || (es[i].TimerFires? && es[i].id in s.timers && s.timers[es[i].id].kind.Recheck?))
    ensures var s := At(initial, max, ttl, es, i);
            var s' := At(initial, max, ttl, es, i + 1);
            && !s'.waitingForCredentials && s'.syncNowActive && s'.pollTimer == None
            && s'.flights.Keys - s.flights.Keys == {s'.syncFetch} && s.flights.Keys <= s'.flights.Keys
            && s'.flights[s'.syncFetch].purpose == ForSync && s'.flights[s'.syncFetch].beganAt == i + 1
  {
    StepsAreExact(initial, max, ttl, es, i);
    Reachable(initial, max, ttl, es[..i]);
    var s := At(initial, max, ttl, es, i);
    assert s.subscribed && s.nextId !in s.flights && s.creds.clock == i;
    hide Valid, Run;
  }

  // ----- what a fetch reads -----

  predicate FeaturesOn(e: Event) {
    !e.Stop? && !e.ReadSettles? && !e.OtherGet? && e.env.platformEnabled
  }

  /** One read of the platform's address and one of the key, or none with the features off. */
  predicate ReadsBoth(creds: CC.State, sources: seq<nat>, on: bool) {
    if !on then sources == []
    else
      && |sources| == 2 && sources[0] < |creds.begun| && sources[1] < |creds.begun|
      && creds.begun[sources[0]].key == "credential/vellum/platform_base_url"
      && creds.begun[sources[1]].key == "credential/vellum/assistant_api_key"
  }

  lemma FetchReads(s: State, purpose: Purpose, env: Env)
    requires CC.Valid(s.creds)
    ensures var s' := BeginFetch(s, purpose, env);
            s.nextId in s'.flights && ReadsBoth(s'.creds, s'.flights[s.nextId].sources, env.platformEnabled)
  {
    hide CC.Valid, CC.GetSpec;
    if env.platformEnabled {
      CC.GetIsFresh(s.creds, PLATFORM_URL_KEY, false, env.now);
      CC.GetIsFresh(CC.GetSpec(s.creds, PLATFORM_URL_KEY, false, env.now).0, API_KEY_KEY, false, env.now);
    }
  }

  lemma RoundReads(s: State, env: Env)
    requires CC.Valid(s.creds) && FreshIds(s)
    ensures var s' := SyncRound(s, env);
            s.nextId in s'.flights && ReadsBoth(s'.creds, s'.flights[s.nextId].sources, env.platformEnabled)
  {
    RoundIs(s, env);
    FetchReads(ClearTimer(ClearCredentialWatch(s.(pendingResync := false, syncNowActive := true))), ForSync, env);
    hide CC.Valid, BeginFetch, ReadsBoth;
  }

  lemma TimerReads(s: State, t: nat, env: Env)
    requires CC.Valid(s.creds) && FreshIds(s) && Begins(s, TimerFires(t, env)).Some?
    ensures var s' := Step(s, TimerFires(t, env));
            s.nextId in s'.flights && ReadsBoth(s'.creds, s'.flights[s.nextId].sources, env.platformEnabled)
  {
    CC.TickKeepsValid(s.creds);
    hide CC.Valid, ReadsBoth, SyncRound, BeginFetch;
    var s' := Tick(s).(timers := s.timers - {t});
    if s.timers[t].kind.Poll? {
      FetchReads(s', ForPoll, env);
    } else {
      RoundReads(Called(s'), env);
    }
  }

  lemma ChangeReads(s: State, env: Env)
    requires CC.Valid(s.creds) && FreshIds(s) && Begins(s, CredentialsChange(env)).Some?
    ensures var s' := Step(s, CredentialsChange(env));
            s.nextId in s'.flights && ReadsBoth(s'.creds, s'.flights[s.nextId].sources, env.platformEnabled)
  {
    CC.TickKeepsValid(s.creds);
    CC.InvalidatedKeepsValid(Tick(s).creds);
    hide CC.Valid, ReadsBoth, SyncRound;
    RoundReads(Called(Tick(s).(creds := CC.Invalidated(Tick(s).creds))), env);
  }

  lemma AnotherRoundReads(s: State, id: nat, result: FetchResult, env: Env)
    requires CC.Valid(s.creds) && FreshIds(s) && Begins(s, FetchSettles(id, result, env)).Some?
    ensures var s' := Step(s, FetchSettles(id, result, env));
            s.nextId in s'.flights && ReadsBoth(s'.creds, s'.flights[s.nextId].sources, env.platformEnabled)
  {
    CC.TickKeepsValid(s.creds);
    hide CC.Valid, ReadsBoth, SyncRound;
    RoundReads(SyncEnded(Tick(s), id, result), env);
  }

  lemma StepReads(s: State, e: Event)
    requires Valid(s) && FreshIds(s) && Begins(s, e).Some?
    ensures var s' := Step(s, e);
            s.nextId in s'.flights && ReadsBoth(s'.creds, s'.flights[s.nextId].sources, FeaturesOn(e))
  {
    CC.TickKeepsValid(s.creds);
    match e {
      case TimerFires(id, env) =>
        hide Step;
        TimerReads(s, id, env);
      case CredentialsChange(env) =>
        hide Step;
        ChangeReads(s, env);
      case FetchSettles(id, result, env) =>
        hide Step;
        AnotherRoundReads(s, id, result, env);
      case Start(env) =>
        hide ReadsBoth, BeginFetch;
        FetchReads(Tick(s).(started := true), ForStart, env);
      case CallSyncNow(env) =>
        hide ReadsBoth, SyncRound;
        RoundReads(Called(Tick(s)), env);
    }
  }

  function Called(s: State): State {
    s.(lastSyncCall := s.creds.clock)
  }

  /** In every run, each fetch that begins is answered, through the cache, by a read of the
      platform's address and a read of the key; with the platform features off, by none. */
  lemma FetchesReadBoth(initial: int, max: int, ttl: int, es: seq<Event>, i: nat)
    requires i < |es| && Begins(At(initial, max, ttl, es, i), es[i]).Some?
    ensures var s := At(initial, max, ttl, es, i);
            var s' := At(initial, max, ttl, es, i + 1);
            && s'.flights.Keys - s.flights.Keys == {s.nextId}
            && ReadsBoth(s'.creds, s'.flights[s.nextId].sources, FeaturesOn(es[i]))
  {
    StepsAreExact(initial, max, ttl, es, i);
    RunStep(Step, Initial(initial, max, ttl), es, i);
    var s := At(initial, max, ttl, es, i);
    assert s.nextId !in s.flights;
    hide Valid, Run, Step, ReadsBoth, TimersExact;
    StepReads(s, es[i]);
  }
}
