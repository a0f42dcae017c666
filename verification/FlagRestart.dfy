/** Stopping and starting the flag synchroniser again: when that is safe, with fetches
    that come to what their credential reads let them come to. */
module FlagRestart {
  import opened InsertionMap
  import opened Runs
  import opened FlagSync
  import opened Text
  import CC = CredentialCache

  // ----- what a fetch can come to -----

  /** The process environment: the platform-features switch, and whether it names a platform. */
  datatype Process = Process(platformEnabled: bool, hasUrl: bool)

  /** Whether a fetch finds a platform to ask, given the credential it read for its URL:
      a blank one falls back on the environment, trailing slashes do not count. */
  predicate FindsUrl(p: Process, url: CC.Value) {
    var trimmed := if url.Some? then Trim(url.value) else "";
    if trimmed == "" then p.hasUrl else exists i :: 0 <= i < |trimmed| && trimmed[i] != '/'
  }

  predicate ReadsSettled(creds: CC.State, sources: seq<nat>) {
    forall i :: 0 <= i < |sources| ==> sources[i] < |creds.begun| && creds.begun[sources[i]].result.Some?
  }

  predicate SomeReadThrew(creds: CC.State, sources: seq<nat>) {
    exists i :: 0 <= i < |sources| && sources[i] < |creds.begun| && creds.begun[sources[i]].result == Some(CC.Thrown)
  }

  /** The outcomes `fetchAndCache` has: with the platform switched off, missing credentials;
      with a failed read, an error; and once both reads have values, missing credentials
      without a platform URL, and with one whatever the request comes to. */
  predicate CanCome(p: Process, creds: CC.State, f: Flight, result: FetchResult) {
    if f.sources == [] then result.MissingCredentials?
    else if SomeReadThrew(creds, f.sources) then result.Error?
    else
      && ReadsSettled(creds, f.sources)
      && (result.MissingCredentials? <==> !FindsUrl(p, creds.begun[f.sources[0]].result.value.value))
  }

  /** The event is one that the code can meet: the switch is that of the process, and a
      fetch settles as its reads let it. */
  predicate CanHappen(p: Process, s: State, e: Event) {
    match e
    case Start(env) => env.platformEnabled == p.platformEnabled
    case CallSyncNow(env) => env.platformEnabled == p.platformEnabled
    case TimerFires(_, env) => env.platformEnabled == p.platformEnabled
    case CredentialsChange(env) => env.platformEnabled == p.platformEnabled
    case FetchSettles(id, result, env) =>
      && env.platformEnabled == p.platformEnabled
      && (id in s.flights && !s.flights[id].purpose.PollReported? ==> CanCome(p, s.creds, s.flights[id], result))
    case _ => true
  }

  predicate IsRun(p: Process, s: State, es: seq<Event>) {
    es == [] || (IsRun(p, s, es[..|es| - 1]) && CanHappen(p, Run(Step, s, es[..|es| - 1]), es[|es| - 1]))
  }

  lemma {:induction false} RunCons(p: Process, s: State, e: Event, es: seq<Event>)
    ensures Run(Step, s, [e] + es) == Run(Step, Step(s, e), es)
    ensures IsRun(p, s, [e] + es) <==> CanHappen(p, s, e) && IsRun(p, Step(s, e), es)
    decreases es
  {
    hide Step, CanHappen;
    if es == [] {
      assert [e] + es == [e] && [e][..0] == [];
      assert IsRun(p, s, []) && Run(Step, s, []) == s;
    } else {
      RunCons(p, s, e, es[..|es| - 1]);
      assert ([e] + es)[..|es|] == [e] + es[..|es| - 1];
    }
  }

  // ----- without the safety net -----

  /** Started, paused, and without the safety net or a `syncNow` to lift the pause. */
  ghost predicate Doomed(s: State) {
    && s.started && s.waitingForCredentials && !s.syncNowActive
    && (forall t :: t in s.timers ==> t < s.nextId && s.timers[t].kind.Poll?)
    && (forall id :: id in s.flights ==> id < s.nextId && !s.flights[id].purpose.ForSync?)
    && (forall id :: id in s.flights ==>
          forall i :: 0 <= i < |s.flights[id].sources| ==> s.flights[id].sources[i] < |s.creds.begun|)
  }

  function With(flights: map<nat, Flight>, purpose: Purpose): set<nat> {
    set id | id in flights && flights[id].purpose == purpose
  }

  function Unsettled(begun: seq<CC.Read>): nat {
    if begun == [] then 0
    else Unsettled(begun[..|begun| - 1]) + if begun[|begun| - 1].result.None? then 1 else 0
  }

  /** What is left to deliver: a start's fetch may leave a poll timer, a poll timer is worth
      its poll and that poll's two reads, a poll its `.finally`. */
  function Weight(s: State): nat {
    6 * |With(s.flights, ForStart)| + 5 * |s.timers.Keys| + 2 * |With(s.flights, ForPoll)|
    + |With(s.flights, PollReported)| + Unsettled(s.creds.begun)
  }

  lemma UnsettledAppend(begun: seq<CC.Read>, read: CC.Read)
    ensures Unsettled(begun + [read]) == Unsettled(begun) + if read.result.None? then 1 else 0
  {
    assert (begun + [read])[..|begun|] == begun;
  }

  lemma {:induction false} UnsettledUpdate(begun: seq<CC.Read>, r: nat, read: CC.Read)
    requires r < |begun| && begun[r].result.None? && read.result.Some?
    ensures Unsettled(begun[r := read]) == Unsettled(begun) - 1
  {
    var last := |begun| - 1;
    if r == last {
      assert begun[r := read][..last] == begun[..last];
    } else {
      UnsettledUpdate(begun[..last], r, read);
      assert begun[r := read][..last] == begun[..last][r := read];
    }
  }

  /** A `get` begins at most one read. */
  lemma GetBegins(c: CC.State, key: string, now: int)
    ensures var (c', a) := CC.GetSpec(c, key, false, now);
            && |c.begun| <= |c'.begun| && Unsettled(c'.begun) <= Unsettled(c.begun) + 1
            && (CC.Valid(c) ==> a.source < |c'.begun|)
  {
    var c' := CC.GetSpec(c, key, false, now).0;
    if c'.begun != c.begun {
      UnsettledAppend(c.begun, c'.begun[|c.begun|]);
    }
  }

  lemma ReadsBegin(c: CC.State, env: Env)
    requires CC.Valid(c)
    ensures var (c', sources) := ReadCredentials(c, env);
            && |c.begun| <= |c'.begun| && Unsettled(c'.begun) <= Unsettled(c.begun) + 2
            && forall i :: 0 <= i < |sources| ==> sources[i] < |c'.begun|
  {
    hide CC.GetSpec;
    if env.platformEnabled {
      CC.GetIsFresh(c, PLATFORM_URL_KEY, false, env.now);
      GetBegins(c, PLATFORM_URL_KEY, env.now);
      GetBegins(CC.GetSpec(c, PLATFORM_URL_KEY, false, env.now).0, API_KEY_KEY, env.now);
    }
  }

  lemma ReadSettling(s: State, r: nat, now: int)
    requires Doomed(s) && r < |s.creds.begun| && s.creds.begun[r].result.None?
    ensures var s' := Step(s, ReadSettles(r, CC.ReadResult.Value(None), now)); Doomed(s') && Weight(s') < Weight(s)
  {
    var s' := Step(s, ReadSettles(r, CC.ReadResult.Value(None), now));
    UnsettledUpdate(s.creds.begun, r, s'.creds.begun[r]);
  }

  lemma DoomedTimerFires(s: State, t: nat, env: Env)
    requires Doomed(s) && CC.Valid(s.creds) && t in s.timers
    ensures var s' := Step(s, TimerFires(t, env));
            && Doomed(s') && s'.timers.Keys == s.timers.Keys - {t}
            && With(s'.flights, ForPoll) == With(s.flights, ForPoll) + {s.nextId}
            && With(s'.flights, ForStart) == With(s.flights, ForStart)
            && With(s'.flights, PollReported) == With(s.flights, PollReported)
            && Unsettled(s'.creds.begun) <= Unsettled(s.creds.begun) + 2
  {
    hide ReadCredentials, CC.Valid, Unsettled;
    CC.TickKeepsValid(s.creds);
    ReadsBegin(CC.Tick(s.creds), env);
    var s' := Step(s, TimerFires(t, env));
    assert s'.flights == s.flights[s.nextId := s'.flights[s.nextId]];
    assert s'.timers == s.timers - {t};
  }

  lemma DoomedStartSettles(s: State, id: nat, result: FetchResult, env: Env)
    requires Doomed(s) && id in s.flights && s.flights[id].purpose.ForStart? && !result.Success?
    ensures var s' := Step(s, FetchSettles(id, result, env));
            && Doomed(s') && s'.creds.begun == s.creds.begun && s'.flights == s.flights - {id}
            && s'.timers.Keys == s.timers.Keys + if result.Error? then {s.nextId} else {}
  {
  }

  lemma DoomedPollSettles(s: State, id: nat, result: FetchResult, env: Env)
    requires Doomed(s) && id in s.flights && !s.flights[id].purpose.ForStart?
    ensures var s' := Step(s, FetchSettles(id, result, env));
            && Doomed(s') && s'.creds.begun == s.creds.begun && s'.timers == s.timers
            && s'.flights == if s.flights[id].purpose.ForPoll?
                             then s.flights[id := s.flights[id].(purpose := PollReported)] else s.flights - {id}
  {
  }

  lemma FlightLeaves(flights: map<nat, Flight>, id: nat)
    requires id in flights
    ensures forall p :: With(flights - {id}, p) == With(flights, p) - {id}
    ensures var reported := flights[id := flights[id].(purpose := PollReported)];
            && With(reported, ForPoll) == With(flights, ForPoll) - {id}
            && With(reported, ForStart) == With(flights, ForStart) - {id}
            && With(reported, PollReported) == With(flights, PollReported) + {id}
  {
  }

  /** So every delivery lightens the rest. */
  lemma FetchSettling(s: State, id: nat, result: FetchResult, env: Env)
    requires Doomed(s) && id in s.flights && !result.Success?
    ensures var s' := Step(s, FetchSettles(id, result, env)); Doomed(s') && Weight(s') < Weight(s)
  {
    hide Step, Doomed, Unsettled;
    FlightLeaves(s.flights, id);
    assert forall p :: id in With(s.flights, p) <==> s.flights[id].purpose == p;
    NotForSync(s, id);
    if s.flights[id].purpose.ForStart? {
      DoomedStartSettles(s, id, result, env);
    } else {
      DoomedPollSettles(s, id, result, env);
    }
    hide With;
  }

  lemma NotForSync(s: State, id: nat)
    requires Doomed(s) && id in s.flights
    ensures !s.flights[id].purpose.ForSync?
  {
  }

  lemma TimerFiring(s: State, t: nat, env: Env)
    requires Doomed(s) && CC.Valid(s.creds) && t in s.timers
    ensures var s' := Step(s, TimerFires(t, env)); Doomed(s') && Weight(s') < Weight(s)
  {
    hide Step, Doomed, Unsettled, With;
    DoomedTimerFires(s, t, env);
  }

  /** What a fetch comes to once its reads are in, if the request itself fails. */
  function Outcome(p: Process, creds: CC.State, f: Flight): FetchResult
    requires ReadsSettled(creds, f.sources)
  {
    if f.sources == [] then MissingCredentials
    else if SomeReadThrew(creds, f.sources) then Error
    else if FindsUrl(p, creds.begun[f.sources[0]].result.value.value) then Error
    else MissingCredentials
  }

  lemma OutcomeCanCome(p: Process, s: State, id: nat, env: Env)
    requires id in s.flights && ReadsSettled(s.creds, s.flights[id].sources)
    requires env.platformEnabled == p.platformEnabled
    ensures var result := Outcome(p, s.creds, s.flights[id]);
            !result.Success? && CanHappen(p, s, FetchSettles(id, result, env))
  {
  }

  lemma AlwaysCan(p: Process, s: State, env: Env)
    requires env.platformEnabled == p.platformEnabled
    ensures forall r, value, now :: CanHappen(p, s, ReadSettles(r, value, now))
    ensures forall t :: CanHappen(p, s, TimerFires(t, env))
  {
  }

  lemma AllReadsIn(s: State, id: nat)
    requires Doomed(s) && id in s.flights
    requires forall r :: 0 <= r < |s.creds.begun| ==> s.creds.begun[r].result.Some?
    ensures ReadsSettled(s.creds, s.flights[id].sources)
  {
  }

  lemma StepCreds(s: State, e: Event)
    requires Valid(s)
    ensures Valid(Step(s, e)) && CC.Valid(s.creds)
  {
    StepKeepsValid(s, e);
    hide Step, CC.Valid;
  }

  predicate IsStart(e: Event) {
    e.Start?
  }

  /** Let every read find nothing, every poll timer fire and every fetch come to what it
      then can: in the end nothing is due. */
  lemma {:induction false} DoomedStalls(p: Process, s: State, now: int) returns (es: seq<Event>)
    requires Doomed(s) && Valid(s)
    ensures IsRun(p, s, es) && forall i :: 0 <= i < |es| ==> !IsStart(es[i])
    ensures var s' := Run(Step, s, es); s'.started && !Progressing(s')
    decreases Weight(s)
  {
    hide *;
    var env := Env(now, p.platformEnabled);
    AlwaysCan(p, s, env);
    if r :| 0 <= r < |s.creds.begun| && s.creds.begun[r].result.None? {
      ReadSettling(s, r, now);
      es := AndThen(p, s, ReadSettles(r, CC.ReadResult.Value(None), now), now);
    } else if t :| t in s.timers {
      StepCreds(s, Stop);
      TimerFiring(s, t, env);
      es := AndThen(p, s, TimerFires(t, env), now);
    } else if id :| id in s.flights {
      AllReadsIn(s, id);
      OutcomeCanCome(p, s, id, env);
      FetchSettling(s, id, Outcome(p, s.creds, s.flights[id]), env);
      es := AndThen(p, s, FetchSettles(id, Outcome(p, s.creds, s.flights[id]), env), now);
    } else {
      NothingIsDue(p, s);
      es := [];
    }
  }

  lemma {:induction false} AndThen(p: Process, s: State, e: Event, now: int) returns (es: seq<Event>)
    requires Doomed(Step(s, e)) && Valid(s) && Weight(Step(s, e)) < Weight(s)
    requires !e.Start? && CanHappen(p, s, e)
    ensures IsRun(p, s, es) && forall i :: 0 <= i < |es| ==> !IsStart(es[i])
    ensures var s' := Run(Step, s, es); s'.started && !Progressing(s')
    decreases Weight(s), 0
  {
    hide *;
    StepCreds(s, e);
    var rest := DoomedStalls(p, Step(s, e), now);
    es := [e] + rest;
    RunCons(p, s, e, rest);
    StartIs(e);
  }

  lemma StartIs(e: Event)
    ensures IsStart(e) <==> e.Start?
  {
  }

  lemma NothingIsDue(p: Process, s: State)
    requires Doomed(s) && (forall t :: t !in s.timers) && (forall id :: id !in s.flights)
    ensures Run(Step, s, []) == s && IsRun(p, s, []) && s.started && !Progressing(s)
  {
  }

  // ----- the condition -----

  /** Runs without a further `start` keep an armed state alive. */
  lemma {:induction false} StaysAlive(s: State, es: seq<Event>, bound: int)
    requires Alive(s) && TimersOk(s, bound)
    requires forall i :: 0 <= i < |es| ==> !IsStart(es[i])
    ensures Alive(Run(Step, s, es)) && TimersOk(Run(Step, s, es), bound)
  {
    hide Handle, Alive;
    if es != [] {
      StaysAlive(s, es[..|es| - 1], bound);
      var s' := Run(Step, s, es[..|es| - 1]);
      TickKeepsAlive(s');
      HandleKeepsAlive(Tick(s'), es[|es| - 1]);
      HandleKeepsTimers(Tick(s'), es[|es| - 1], bound);
    }
  }

  lemma TickKeepsAlive(s: State)
    ensures Alive(Tick(s)) == Alive(s)
  {
  }

  ghost predicate NeverStalls(s: State) {
    forall es: seq<Event> :: (forall i :: 0 <= i < |es| ==> !IsStart(es[i])) ==>
      var s' := Run(Step, s, es); s'.started ==> Progressing(s')
  }

  /** The same of the continuations that can happen. */
  ghost predicate NeverStallsIn(p: Process, s: State) {
    forall es: seq<Event> :: IsRun(p, s, es) && (forall i :: 0 <= i < |es| ==> !IsStart(es[i])) ==>
      var s' := Run(Step, s, es); s'.started ==> Progressing(s')
  }

  /** In every reachable state, however often it was started and stopped and whatever is
      still in flight: a `start` that follows never stalls before the next one, however
      things go on, exactly when a pause it finds has its safety timer. Without it there
      is a continuation that stalls in which every fetch comes to what its reads allow;
      with it there is none even among those that could not happen. */
  lemma {:induction false} RestartIsSafeExactly(initial: int, max: int, ttl: int, es: seq<Event>, p: Process, env: Env)
    requires !Run(Step, Initial(initial, max, ttl), es).started
    ensures var s := Run(Step, Initial(initial, max, ttl), es);
            && (NeverStallsIn(p, Step(s, Start(env))) <==> RecheckArmed(s))
            && (NeverStalls(Step(s, Start(env))) <==> RecheckArmed(s))
  {
    hide *;
    var s := Run(Step, Initial(initial, max, ttl), es);
    DelaysBounded(initial, max, ttl, es);
    Reachable(initial, max, ttl, es);
    if RecheckArmed(s) {
      ArmedNeverStalls(s, env, if initial < max then max else initial);
      AllAndSome(p, Step(s, Start(env)));
    } else {
      UnarmedIsDoomed(s, env, if initial < max then max else initial);
      StepCreds(s, Start(env));
      var rest := DoomedStalls(p, Step(s, Start(env)), env.now);
      StallsOnce(p, Step(s, Start(env)), rest);
    }
  }

  lemma AllAndSome(p: Process, s: State)
    requires NeverStalls(s)
    ensures NeverStallsIn(p, s)
  {
    hide IsRun, Progressing, Step;
  }

  lemma StallsOnce(p: Process, s: State, es: seq<Event>)
    requires IsRun(p, s, es) && forall i :: 0 <= i < |es| ==> !IsStart(es[i])
    requires var s' := Run(Step, s, es); s'.started && !Progressing(s')
    ensures !NeverStalls(s) && !NeverStallsIn(p, s)
  {
  }

  lemma ArmedNeverStalls(s: State, env: Env, bound: int)
    requires !s.started && RecheckArmed(s) && TimersOk(s, bound)
    ensures NeverStalls(Step(s, Start(env)))
  {
    hide Handle, Progressing;
    TickKeepsAlive(s);
    assert Alive(s);
    HandleKeepsAlive(Tick(s), Start(env));
    HandleKeepsTimers(Tick(s), Start(env), bound);
    var s1 := Step(s, Start(env));
    forall es: seq<Event> | forall i :: 0 <= i < |es| ==> !IsStart(es[i])
      ensures var s' := Run(Step, s1, es); s'.started ==> Progressing(s')
    {
      StaysAlive(s1, es, bound);
    }
  }

  lemma UnarmedIsDoomed(s: State, env: Env, bound: int)
    requires Valid(s) && TimersOk(s, bound) && !RecheckArmed(s)
    ensures Doomed(Step(s, Start(env)))
  {
    hide ReadCredentials, CC.Valid;
    StepCreds(s, Start(env));
    CC.TickKeepsValid(s.creds);
    ReadsBegin(CC.Tick(s.creds), env);
    forall t | t in s.timers ensures t < s.nextId && s.timers[t].kind.Poll? {
      assert !HasTimer(s, Recheck);
    }
    forall id | id in s.flights
      ensures id < s.nextId && !s.flights[id].purpose.ForSync? && FlightKnown(s, s.flights[id])
    {
    }
    var s' := Step(s, Start(env));
    assert s'.flights == s.flights[s.nextId := s'.flights[s.nextId]] && s'.timers == s.timers;
    forall id, i | id in s'.flights && 0 <= i < |s'.flights[id].sources|
      ensures s'.flights[id].sources[i] < |s'.creds.begun|
    {
      if id != s.nextId {
        assert s.flights[id].sources[i] in s.flights[id].sources;
      }
    }
  }

  // ----- a run that stalls -----

  /** With nothing else due, a `start` whose fetch finds no credentials, whatever its reads
      did to the cache, makes progress exactly when the safety net is armed. */
  lemma RestartNeedsArmedRecheck(s: State, env: Env, creds: CC.State, later: Env)
    requires !s.started && !s.syncNowActive && s.flights == map[] && !HasTimer(s, Poll)
    requires forall t :: t in s.timers ==> t < s.nextId
    ensures var s1 := Step(s, Start(env)).(creds := creds);
            var s' := Step(s1, FetchSettles(s.nextId, MissingCredentials, later));
            s'.started && (Progressing(s') <==> RecheckArmed(s))
  {
    hide CC.GetSpec;
    var started := Step(s, Start(env)).(creds := creds);
    assert started.flights.Keys == {s.nextId};
    var landed := Land(Tick(started), s.nextId);
    assert landed.flights == map[];
    if !s.waitingForCredentials {
      PauseKeepsAlive(landed);
    }
    assert landed.timers == s.timers;
    assert HasTimer(landed, Recheck) <==> HasTimer(s, Recheck);
    assert HasTimer(landed, Poll) <==> HasTimer(s, Poll);
  }

  /** A poll that reports "missing credentials" after `stop`, whatever its reads did to the
      cache, leaves the pause behind, and its safety timer then fires in vain. */
  lemma {:induction false} LatePollLeavesStalePause(s: State, poll: nat, creds: CC.State, env: Env, later: Env)
    requires s.flights.Keys == {poll} && s.flights[poll].purpose.ForPoll? && !s.syncNowActive && s.timers == map[]
    ensures var missing := FetchSettles(poll, MissingCredentials, env);
            var s' := Step(Step(Step(Step(s, Stop).(creds := creds), missing), missing), TimerFires(s.nextId, later));
            && s'.flights == map[] && s'.timers == map[] && s'.nextId == s.nextId + 1
            && s'.waitingForCredentials && !s'.started && !s'.syncNowActive
            && s'.creds == creds.(clock := creds.clock + 3)
  {
    var missing := FetchSettles(poll, MissingCredentials, env);
    var s1 := Step(s, Stop).(creds := creds);
    assert s1.flights == s.flights && s1.timers == map[] && !s1.started && !s1.waitingForCredentials;
    var s2 := Step(s1, missing);
    assert s2.flights.Keys == {poll} && s2.flights[poll].purpose.PollReported?;
    assert s2.timers == map[s.nextId := Timer(Recheck, s.maxIntervalMs)];
    assert !s2.started && s2.waitingForCredentials && s2.nextId == s.nextId + 1;
    LateFinally(s2, poll, s.nextId, env, later);
  }

  lemma LateFinally(s: State, poll: nat, recheck: nat, env: Env, later: Env)
    requires s.flights.Keys == {poll} && s.flights[poll].purpose.PollReported? && !s.started && s.waitingForCredentials
    requires s.timers.Keys == {recheck} && s.timers[recheck].kind.Recheck?
    ensures var s' := Step(Step(s, FetchSettles(poll, MissingCredentials, env)), TimerFires(recheck, later));
            && s'.flights == map[] && s'.timers == map[] && s'.nextId == s.nextId
            && s'.waitingForCredentials && !s'.started && s'.syncNowActive == s.syncNowActive
            && s'.creds == s.creds.(clock := s.creds.clock + 2)
  {
    var s1 := Step(s, FetchSettles(poll, MissingCredentials, env));
    assert s1.flights == map[] && s1.timers == s.timers;
  }

  /** No read is in flight, and what the cache holds has expired. */
  ghost predicate IsQuiet(c: CC.State, n: nat, now: int) {
    c.inflight == map[] && |c.begun| == n && forall key :: key in c.cache ==> c.cache[key].expiresAt <= now
  }

  /** The two reads of a fetch are in flight, and nothing else. */
  ghost predicate IsReading(c: CC.State, n: nat, now: int) {
    && c.inflight == map[PLATFORM_URL_KEY := n, API_KEY_KEY := n + 1]
    && |c.begun| == n + 2
    && c.begun[n] == CC.Read(PLATFORM_URL_KEY, c.generation, c.begun[n].beganAt, None)
    && c.begun[n + 1] == CC.Read(API_KEY_KEY, c.generation, c.begun[n + 1].beganAt, None)
    && forall key :: key in c.cache ==> c.cache[key].expiresAt <= now
  }

  lemma ReadsGoOut(c: CC.State, n: nat, env: Env)
    requires IsQuiet(c, n, env.now) && env.platformEnabled
    ensures var (c', sources) := ReadCredentials(c, env);
            sources == [n, n + 1] && IsReading(c', n, env.now) && c'.ttl == c.ttl
  {
  }

  /** One of the two reads is in; the other is not. */
  ghost predicate IsHalfRead(c: CC.State, n: nat, r: CC.ReadResult, later: int) {
    && c.inflight == map[API_KEY_KEY := n + 1]
    && |c.begun| == n + 2 && c.begun[n].result == Some(r)
    && c.begun[n + 1] == CC.Read(API_KEY_KEY, c.generation, c.begun[n + 1].beganAt, None)
    && forall key :: key in c.cache ==> c.cache[key].expiresAt <= later
  }

  lemma FirstComesIn(c: CC.State, n: nat, r: CC.ReadResult, now: int, later: int)
    requires IsReading(c, n, now) && now <= later && now + c.ttl <= later
    ensures var c' := CC.Settled(CC.Tick(c), n, r, now); IsHalfRead(c', n, r, later) && c'.ttl == c.ttl
  {
    var c' := CC.Settled(CC.Tick(c), n, r, now);
    assert c'.inflight == map[API_KEY_KEY := n + 1];
  }

  lemma SecondComesIn(c: CC.State, n: nat, r: CC.ReadResult, now: int, later: int)
    requires IsHalfRead(c, n, r, later) && now + c.ttl <= later
    ensures var c' := CC.Settled(CC.Tick(c), n + 1, r, now);
            && IsQuiet(c', n + 2, later) && c'.ttl == c.ttl
            && c'.begun[n].result == Some(r) && c'.begun[n + 1].result == Some(r)
  {
    var c' := CC.Settled(CC.Tick(c), n + 1, r, now);
    assert c'.inflight == map[];
  }

  lemma ReadsComeIn(s: State, n: nat, r: CC.ReadResult, now: int, later: int)
    requires IsReading(s.creds, n, now) && now <= later && now + s.creds.ttl <= later
    ensures var s' := Step(Step(s, ReadSettles(n, r, now)), ReadSettles(n + 1, r, now));
            && s' == s.(creds := s'.creds) && IsQuiet(s'.creds, n + 2, later) && s'.creds.ttl == s.creds.ttl
            && s'.creds.begun[n].result == Some(r) && s'.creds.begun[n + 1].result == Some(r)
  {
    hide CC.Settled, IsReading, IsHalfRead, IsQuiet;
    FirstComesIn(s.creds, n, r, now, later);
    SecondComesIn(Step(s, ReadSettles(n, r, now)).creds, n, r, now, later);
  }

  predicate IsStep(p: Process, s: State, a: Event, b: Event) {
    CanHappen(p, s, a) && CanHappen(p, Step(s, a), b)
  }

  lemma RunAndTwo(p: Process, s: State, es: seq<Event>, a: Event, b: Event)
    requires IsRun(p, s, es) && IsStep(p, Run(Step, s, es), a, b)
    ensures IsRun(p, s, es + [a, b]) && Run(Step, s, es + [a, b]) == Step(Step(Run(Step, s, es), a), b)
  {
    hide Step, CanHappen;
    RunTwo(Step, s, es, a, b);
    assert (es + [a, b])[..|es| + 1] == es + [a];
    assert (es + [a])[..|es|] == es;
  }

  lemma StepsAre(p: Process, s: State, a: Event, b: Event)
    requires CanHappen(p, s, a) && CanHappen(p, Step(s, a), b)
    ensures IsStep(p, s, a, b)
  {
  }

  const NOTHING := CC.ReadResult.Value(None)

  /** The process of the run: the platform switched on, no URL in the environment. */
  const SWITCHED_ON := Process(true, false)

  /** Started; both reads fail, so does the fetch, and a poll is due in ten seconds. */
  lemma StartFails(s: State) returns (s': State)
    requires s == Initial(10000, 300000, 2000)
    ensures var start, failed := Start(Env(0, true)), FetchSettles(0, Error, Env(6, true));
            var thrown0, thrown1 := ReadSettles(0, CC.Thrown, 5), ReadSettles(1, CC.Thrown, 5);
            && IsStep(SWITCHED_ON, s, start, thrown0)
            && IsStep(SWITCHED_ON, Step(Step(s, start), thrown0), thrown1, failed)
            && s' == Step(Step(Step(Step(s, start), thrown0), thrown1), failed)
    ensures s'.flights == map[] && s'.timers == map[1 := Timer(Poll, 10000)] && s'.nextId == 2
    ensures s'.started && !s'.waitingForCredentials && !s'.syncNowActive
    ensures IsQuiet(s'.creds, 2, 10006) && s'.creds.ttl == 2000
  {
    var start := Start(Env(0, true));
    ReadsGoOut(CC.Tick(s.creds), 0, Env(0, true));
    hide ReadCredentials, CC.Settled, IsStep;
    var s1 := Step(s, start);
    assert s1.flights == map[0 := s1.flights[0]] && s1.flights[0].purpose.ForStart? && s1.flights[0].sources == [0, 1];
    ReadsComeIn(s1, 0, CC.Thrown, 5, 10006);
    var s3 := Step(Step(s1, ReadSettles(0, CC.Thrown, 5)), ReadSettles(1, CC.Thrown, 5));
    assert SomeReadThrew(s3.creds, [0, 1]) by { assert [0, 1][0] == 0; }
    StepsAre(SWITCHED_ON, s, start, ReadSettles(0, CC.Thrown, 5));
    StepsAre(SWITCHED_ON, Step(s1, ReadSettles(0, CC.Thrown, 5)), ReadSettles(1, CC.Thrown, 5),
             FetchSettles(0, Error, Env(6, true)));
    s' := Step(s3, FetchSettles(0, Error, Env(6, true)));
    assert s'.flights == map[];
  }

  /** The poll asks for its credentials, the synchroniser is stopped, and there are none. */
  lemma PollFindsNothing(s: State) returns (s': State)
    requires s.flights == map[] && s.timers == map[1 := Timer(Poll, 10000)] && s.nextId == 2
    requires s.started && !s.waitingForCredentials && !s.syncNowActive
    requires IsQuiet(s.creds, 2, 10006) && s.creds.ttl == 2000
    ensures var fires := TimerFires(1, Env(10006, true));
            var none0, none1 := ReadSettles(2, NOTHING, 10010), ReadSettles(3, NOTHING, 10010);
            && IsStep(SWITCHED_ON, s, fires, Stop)
            && IsStep(SWITCHED_ON, Step(Step(s, fires), Stop), none0, none1)
            && s' == Step(Step(Step(Step(s, fires), Stop), none0), none1)
            && s' == Step(Step(s, fires), Stop).(creds := s'.creds)
    ensures var polling := Step(s, TimerFires(1, Env(10006, true)));
            && polling.flights.Keys == {2} && polling.flights[2].purpose.ForPoll?
            && polling.flights[2].sources == [2, 3]
            && polling.timers == map[] && polling.nextId == 3 && !polling.syncNowActive
    ensures IsQuiet(s'.creds, 4, 12010) && s'.creds.ttl == 2000
    ensures s'.creds.begun[2].result == Some(NOTHING) && s'.creds.begun[3].result == Some(NOTHING)
  {
    hide CC.Settled, IsStep, BeginFetch;
    var fires := TimerFires(1, Env(10006, true));
    var none0, none1 := ReadSettles(2, NOTHING, 10010), ReadSettles(3, NOTHING, 10010);
    PollBegins(s);
    var s2 := Step(Step(s, fires), Stop);
    assert IsReading(s2.creds, 2, 10010);
    ReadsComeIn(s2, 2, NOTHING, 10010, 12010);
    StepsAre(SWITCHED_ON, s, fires, Stop);
    StepsAre(SWITCHED_ON, s2, none0, none1);
    s' := Step(Step(s2, none0), none1);
  }

  lemma PollBegins(s: State)
    requires s.flights == map[] && s.timers == map[1 := Timer(Poll, 10000)] && s.nextId == 2
    requires s.started && !s.waitingForCredentials && !s.syncNowActive
    requires IsQuiet(s.creds, 2, 10006) && s.creds.ttl == 2000
    ensures var polling := Step(s, TimerFires(1, Env(10006, true)));
            && polling.flights.Keys == {2} && polling.flights[2].purpose.ForPoll?
            && polling.flights[2].sources == [2, 3]
            && polling.timers == map[] && polling.nextId == 3 && !polling.syncNowActive
            && IsReading(polling.creds, 2, 10006) && polling.creds.ttl == 2000
  {
    ReadsGoOut(CC.Tick(s.creds), 2, Env(10006, true));
    hide ReadCredentials, IsReading;
    var polling := Step(s, TimerFires(1, Env(10006, true)));
    assert polling.timers == map[] && polling.flights == map[2 := polling.flights[2]];
  }

  lemma NothingCanCome(creds: CC.State, f: Flight, n: nat)
    requires f.sources == [n, n + 1] && n + 1 < |creds.begun|
    requires creds.begun[n].result == Some(NOTHING) && creds.begun[n + 1].result == Some(NOTHING)
    ensures CanCome(SWITCHED_ON, creds, f, MissingCredentials)
  {
    assert f.sources[0] == n && f.sources[1] == n + 1;
  }

  /** The poll reports that, its `.finally` runs, and the safety timer fires in vain. */
  lemma PollReports(s: State, polling: State) returns (s': State)
    requires polling.flights.Keys == {2} && polling.flights[2].purpose.ForPoll? && polling.flights[2].sources == [2, 3]
    requires polling.timers == map[] && polling.nextId == 3 && !polling.syncNowActive
    requires s == Step(polling, Stop).(creds := s.creds) && IsQuiet(s.creds, 4, 12010) && s.creds.ttl == 2000
    requires s.creds.begun[2].result == Some(NOTHING) && s.creds.begun[3].result == Some(NOTHING)
    ensures var missing := FetchSettles(2, MissingCredentials, Env(10011, true));
            var fires := TimerFires(3, Env(310012, true));
            && IsStep(SWITCHED_ON, s, missing, missing)
            && CanHappen(SWITCHED_ON, Step(Step(s, missing), missing), fires)
            && s' == Step(Step(Step(s, missing), missing), fires)
    ensures s'.flights == map[] && s'.timers == map[] && s'.nextId == 4
    ensures s'.waitingForCredentials && !s'.started && !s'.syncNowActive
    ensures IsQuiet(s'.creds, 4, 400000) && s'.creds.ttl == 2000
  {
    var missing, fires := FetchSettles(2, MissingCredentials, Env(10011, true)), TimerFires(3, Env(310012, true));
    LatePollLeavesStalePause(polling, 2, s.creds, Env(10011, true), Env(310012, true));
    assert s.flights == polling.flights;
    NothingCanCome(s.creds, s.flights[2], 2);
    hide CanCome, IsStep;
    var s1 := Step(s, missing);
    assert s1.flights[2].purpose.PollReported?;
    StepsAre(SWITCHED_ON, s, missing, missing);
    s' := Step(Step(s1, missing), fires);
  }

  /** Started again, with credentials still missing: nothing is due any more. */
  lemma RestartFindsNothing(s: State) returns (s': State)
    requires s.flights == map[] && s.timers == map[] && s.nextId == 4
    requires s.waitingForCredentials && !s.started && !s.syncNowActive
    requires IsQuiet(s.creds, 4, 400000) && s.creds.ttl == 2000
    ensures var start, missing := Start(Env(400000, true)), FetchSettles(4, MissingCredentials, Env(400011, true));
            var none0, none1 := ReadSettles(4, NOTHING, 400010), ReadSettles(5, NOTHING, 400010);
            && CanHappen(SWITCHED_ON, s, start)
            && IsStep(SWITCHED_ON, Step(s, start), none0, none1)
            && CanHappen(SWITCHED_ON, Step(Step(Step(s, start), none0), none1), missing)
            && s' == Step(Step(Step(Step(s, start), none0), none1), missing)
    ensures s'.started && !Progressing(s')
  {
    var start, missing := Start(Env(400000, true)), FetchSettles(4, MissingCredentials, Env(400011, true));
    var none0, none1 := ReadSettles(4, NOTHING, 400010), ReadSettles(5, NOTHING, 400010);
    ReadsGoOut(CC.Tick(s.creds), 4, Env(400000, true));
    hide ReadCredentials, CC.Settled, IsStep, CanCome;
    var s1 := Step(s, start);
    assert s1.flights == map[4 := s1.flights[4]] && s1.flights[4].purpose.ForStart? && s1.flights[4].sources == [4, 5];
    assert IsReading(s1.creds, 4, 400010);
    ReadsComeIn(s1, 4, NOTHING, 400010, 402010);
    StepsAre(SWITCHED_ON, s1, none0, none1);
    var s3 := Step(Step(s1, none0), none1);
    NothingCanCome(s3.creds, s3.flights[4], 4);
    RestartNeedsArmedRecheck(s, Env(400000, true), s3.creds, Env(400011, true));
    s' := Step(s3, missing);
  }

  lemma RunAndOne(p: Process, s: State, es: seq<Event>, a: Event)
    requires IsRun(p, s, es) && CanHappen(p, Run(Step, s, es), a)
    ensures IsRun(p, s, es + [a]) && Run(Step, s, es + [a]) == Step(Run(Step, s, es), a)
  {
    hide Step, CanHappen;
    assert (es + [a])[..|es|] == es;
  }

  /** Hence a run with a restart can stall, with every event one that can happen: no
      fetch, no timer, and still waiting. */
  lemma RestartCanStall() returns (es: seq<Event>)
    ensures es == [
              Start(Env(0, true)), ReadSettles(0, CC.Thrown, 5), ReadSettles(1, CC.Thrown, 5),
              FetchSettles(0, Error, Env(6, true)),
              TimerFires(1, Env(10006, true)), Stop,
              ReadSettles(2, NOTHING, 10010), ReadSettles(3, NOTHING, 10010),
              FetchSettles(2, MissingCredentials, Env(10011, true)),
              FetchSettles(2, MissingCredentials, Env(10011, true)),
              TimerFires(3, Env(310012, true)),
              Start(Env(400000, true)), ReadSettles(4, NOTHING, 400010), ReadSettles(5, NOTHING, 400010),
              FetchSettles(4, MissingCredentials, Env(400011, true))]
    ensures IsRun(SWITCHED_ON, Initial(10000, 300000, 2000), es)
    ensures var s := Run(Step, Initial(10000, 300000, 2000), es); s.started && !Progressing(s)
  {
    hide *;
    var p, s0 := SWITCHED_ON, Initial(10000, 300000, 2000);
    EmptyRun(p, s0);
    var s4 := StartFails(s0);
    RunAndTwo(p, s0, [], Start(Env(0, true)), ReadSettles(0, CC.Thrown, 5));
    es := [] + [Start(Env(0, true)), ReadSettles(0, CC.Thrown, 5)];
    RunAndTwo(p, s0, es, ReadSettles(1, CC.Thrown, 5), FetchSettles(0, Error, Env(6, true)));
    es := es + [ReadSettles(1, CC.Thrown, 5), FetchSettles(0, Error, Env(6, true))];
    var s8 := PollFindsNothing(s4);
    RunAndTwo(p, s0, es, TimerFires(1, Env(10006, true)), Stop);
    es := es + [TimerFires(1, Env(10006, true)), Stop];
    RunAndTwo(p, s0, es, ReadSettles(2, NOTHING, 10010), ReadSettles(3, NOTHING, 10010));
    es := es + [ReadSettles(2, NOTHING, 10010), ReadSettles(3, NOTHING, 10010)];
    var missing := FetchSettles(2, MissingCredentials, Env(10011, true));
    var s11 := PollReports(s8, Step(s4, TimerFires(1, Env(10006, true))));
    RunAndTwo(p, s0, es, missing, missing);
    es := es + [missing, missing];
    RunAndOne(p, s0, es, TimerFires(3, Env(310012, true)));
    es := es + [TimerFires(3, Env(310012, true))];
    var s15 := RestartFindsNothing(s11);
    RunAndOne(p, s0, es, Start(Env(400000, true)));
    es := es + [Start(Env(400000, true))];
    RunAndTwo(p, s0, es, ReadSettles(4, NOTHING, 400010), ReadSettles(5, NOTHING, 400010));
    es := es + [ReadSettles(4, NOTHING, 400010), ReadSettles(5, NOTHING, 400010)];
    RunAndOne(p, s0, es, FetchSettles(4, MissingCredentials, Env(400011, true)));
    es := es + [FetchSettles(4, MissingCredentials, Env(400011, true))];
  }

  lemma EmptyRun(p: Process, s: State)
    ensures IsRun(p, s, []) && Run(Step, s, []) == s
  {
  }
}
