/** The sliding-window limiter of failed authentications, against the complete
    failure history it stands for. */
module AuthRateLimiter {
  import opened InsertionMap
  import opened Runs

  const MAX_TRACKED_IPS := 50000

  datatype State = State(failures: Map<string, seq<int>>, maxFailures: int, windowMs: int)

  /** The `shift` loop: drop time stamps from the front while they have expired. */
  function DropExpired(timestamps: seq<int>, cutoff: int): seq<int> {
    if timestamps != [] && timestamps[0] <= cutoff then DropExpired(timestamps[1..], cutoff) else timestamps
  }

  lemma {:induction false} DropExpiredFacts(timestamps: seq<int>, cutoff: int)
    ensures var r := DropExpired(timestamps, cutoff);
            && |r| <= |timestamps| && r == timestamps[|timestamps| - |r|..]
            && (r != [] ==> r[0] > cutoff)
            && (forall i :: 0 <= i < |timestamps| - |r| ==> timestamps[i] <= cutoff)
            && DropExpired(r, cutoff) == r
  {
    if timestamps != [] && timestamps[0] <= cutoff {
      var rest := timestamps[1..];
      DropExpiredFacts(rest, cutoff);
      assert forall i :: 0 < i < |timestamps| ==> timestamps[i] == rest[i - 1];
    }
  }

  /** What `evictStale` makes of one address: its unexpired time stamps, or nothing. */
  function Unexpired(cutoff: int): seq<int> -> Option<seq<int>> {
    timestamps => if DropExpired(timestamps, cutoff) == [] then None else Some(DropExpired(timestamps, cutoff))
  }

  lemma UnexpiredSettles(cutoff: int)
    ensures forall v :: SettlesAtOnce(Unexpired(cutoff), v)
  {
    forall v ensures SettlesAtOnce(Unexpired(cutoff), v) {
      DropExpiredFacts(v, cutoff);
    }
  }

  function EvictStale(m: Map<string, seq<int>>, cutoff: int): Map<string, seq<int>> {
    Revise(m, Unexpired(cutoff))
  }

  /** Room for one more IP: evict the stale ones, then drop the oldest if that was not enough. */
  function MakeRoom(m: Map<string, seq<int>>, cutoff: int): (r: Map<string, seq<int>>)
    ensures |m| <= MAX_TRACKED_IPS ==> |r| < MAX_TRACKED_IPS
  {
    if |m| < MAX_TRACKED_IPS then m
    else
      var unexpired := EvictStale(m, cutoff);
      if |unexpired| >= MAX_TRACKED_IPS then Tail(unexpired) else unexpired
  }

  function RecordSpec(s: State, ip: string, now: int): State {
    match Get(s.failures, ip)
    case Some(timestamps) => s.(failures := Put(s.failures, ip, timestamps + [now]))
    case None => s.(failures := Put(MakeRoom(s.failures, now - s.windowMs), ip, [now]))
  }

  function IsBlockedSpec(s: State, ip: string, now: int): (State, bool) {
    match Get(s.failures, ip)
    case None => (s, false)
    case Some(timestamps) =>
      var recent := DropExpired(timestamps, now - s.windowMs);
      if recent == [] then (s.(failures := Remove(s.failures, ip)), false)
      else (s.(failures := Put(s.failures, ip, recent)), |recent| >= s.maxFailures)
  }

  datatype Event = RecordFailure(ip: string, now: int) | Check(ip: string, now: int) | ClearIp(ip: string, now: int)

  function Step(s: State, e: Event): State {
    match e
    case RecordFailure(ip, now) => RecordSpec(s, ip, now)
    case Check(ip, now) => IsBlockedSpec(s, ip, now).0
    case ClearIp(ip, _) => s.(failures := Remove(s.failures, ip))
  }

  function Initial(maxFailures: int, windowMs: int): State {
    State([], maxFailures, windowMs)
  }

  // ----- the history it stands for -----

  /** Every failure of `ip` since it was last cleared. */
  function Log(es: seq<Event>, ip: string): seq<int> {
    if es == [] then []
    else
      var e := es[|es| - 1];
      if e.ip != ip || e.Check? then Log(es[..|es| - 1], ip)
      else if e.ClearIp? then []
      else Log(es[..|es| - 1], ip) + [e.now]
  }

  /** How many of them are newer than `cutoff`. */
  function Newer(log: seq<int>, cutoff: int): nat {
    if log == [] then 0 else Newer(log[..|log| - 1], cutoff) + if log[|log| - 1] > cutoff then 1 else 0
  }

  /** Recording a failure of another address pushed `ip` out with failures still in the window. */
  ghost predicate CapDrops(s: State, e: Event, ip: string) {
    && e.RecordFailure? && e.ip != ip && Get(s.failures, ip).Some? && Get(Step(s, e).failures, ip).None?
    && DropExpired(Get(s.failures, ip).value, e.now - s.windowMs) != []
  }

  ghost predicate DroppedSinceClear(s: State, es: seq<Event>, ip: string) {
    es != []
    && var prefix, e := es[..|es| - 1], es[|es| - 1];
       !(e.ClearIp? && e.ip == ip) && (DroppedSinceClear(s, prefix, ip) || CapDrops(Run(Step, s, prefix), e, ip))
  }

  ghost predicate NonDecreasingClock(es: seq<Event>) {
    forall i, j :: 0 <= i < j < |es| ==> es[i].now <= es[j].now
  }

  // ----- refinement -----

  function TimestampsOf(s: State, ip: string): seq<int> {
    match Get(s.failures, ip)
    case Some(timestamps) => timestamps
    case None => []
  }

  /** The time stamps kept are the end of the log; unless dropped, what is missing has expired by `now`. */
  ghost predicate Refines(timestamps: seq<int>, log: seq<int>, dropped: bool, cutoff: int) {
    && |timestamps| <= |log|
    && log[|log| - |timestamps|..] == timestamps
    && (!dropped ==> forall i :: 0 <= i < |log| - |timestamps| ==> log[i] <= cutoff)
  }

  ghost predicate Sorted(log: seq<int>, last: int) {
    && (forall i, j :: 0 <= i < j < |log| ==> log[i] <= log[j])
    && (forall i :: 0 <= i < |log| ==> log[i] <= last)
  }

  lemma {:induction false} LogIsSorted(es: seq<Event>, ip: string, last: int)
    requires NonDecreasingClock(es) && (es != [] ==> es[|es| - 1].now <= last)
    ensures Sorted(Log(es, ip), last)
  {
    if es != [] {
      LogIsSorted(es[..|es| - 1], ip, es[|es| - 1].now);
    }
  }

  lemma {:induction false} NewerSplits(log: seq<int>, n: nat, cutoff: int)
    requires n <= |log|
    requires forall i :: 0 <= i < n ==> log[i] <= cutoff
    requires forall i :: n <= i < |log| ==> log[i] > cutoff
    ensures Newer(log, cutoff) == |log| - n
  {
    if log != [] {
      var prefix := log[..|log| - 1];
      NewerSplits(prefix, if n <= |prefix| then n else |prefix|, cutoff);
    }
  }

  lemma {:induction false} NewerAtLeast(log: seq<int>, n: nat, cutoff: int)
    requires n <= |log|
    requires forall i :: n <= i < |log| ==> log[i] > cutoff
    ensures Newer(log, cutoff) >= |log| - n
  {
    if log != [] && n < |log| {
      NewerAtLeast(log[..|log| - 1], n, cutoff);
    }
  }

  lemma DropExpiredRefines(timestamps: seq<int>, log: seq<int>, dropped: bool, cutoff: int)
    requires Refines(timestamps, log, dropped, cutoff) && exists last :: Sorted(log, last)
    ensures Refines(DropExpired(timestamps, cutoff), log, dropped, cutoff)
    ensures var recent := DropExpired(timestamps, cutoff);
            |recent| <= Newer(log, cutoff) && (!dropped ==> |recent| == Newer(log, cutoff))
  {
    hide DropExpired, Newer;
    DropExpiredFacts(timestamps, cutoff);
    var recent := DropExpired(timestamps, cutoff);
    var n := |log| - |recent|;
    var last :| Sorted(log, last);
    var kept := |log| - |timestamps|;
    assert forall i :: kept <= i < |log| ==> log[i] == timestamps[i - kept];
    assert forall i :: n <= i < |log| ==> log[i] == recent[i - n];
    forall i | n <= i < |log| ensures log[i] > cutoff {
      assert log[n] == recent[0] && log[n] <= log[i];
    }
    NewerAtLeast(log, n, cutoff);
    if !dropped {
      NewerSplits(log, n, cutoff);
    }
  }

  lemma MakeRoomKeeps(m: Map<string, seq<int>>, cutoff: int, ip: string)
    ensures var r := MakeRoom(m, cutoff);
            Get(r, ip) == Get(m, ip)
            || (Get(m, ip).Some? && Get(r, ip) == Unexpired(cutoff)(Get(m, ip).value))
            || (Get(m, ip).Some? && Get(r, ip) == None)
  {
  }

  lemma {:induction false} StateRefinesLog(maxFailures: int, windowMs: int, es: seq<Event>, ip: string, now: int)
    requires NonDecreasingClock(es) && (es != [] ==> es[|es| - 1].now <= now)
    ensures var s := Run(Step, Initial(maxFailures, windowMs), es);
            && s.maxFailures == maxFailures && s.windowMs == windowMs
            && Refines(TimestampsOf(s, ip), Log(es, ip), DroppedSinceClear(Initial(maxFailures, windowMs), es, ip),
                       now - windowMs)
  {
    hide *;
    NothingLogged(maxFailures, windowMs, ip, now - windowMs);
    if es != [] {
      var e := es[|es| - 1];
      ClockOfPrefix(es);
      StateRefinesLog(maxFailures, windowMs, es[..|es| - 1], ip, e.now);
      LogIsSorted(es[..|es| - 1], ip, e.now);
      RefinesFurther(Initial(maxFailures, windowMs), es, ip, now);
    }
  }

  lemma NothingLogged(maxFailures: int, windowMs: int, ip: string, cutoff: int)
    ensures var s0 := Initial(maxFailures, windowMs);
            && s0.maxFailures == maxFailures && s0.windowMs == windowMs && Run(Step, s0, []) == s0
            && Refines(TimestampsOf(s0, ip), Log([], ip), DroppedSinceClear(s0, [], ip), cutoff)
  {
  }

  lemma ClockOfPrefix(es: seq<Event>)
    requires NonDecreasingClock(es) && es != []
    ensures var prefix := es[..|es| - 1];
            NonDecreasingClock(prefix) && (prefix != [] ==> prefix[|prefix| - 1].now <= es[|es| - 1].now)
  {
  }

  lemma RefinesFurther(s0: State, es: seq<Event>, ip: string, now: int)
    requires es != [] && es[|es| - 1].now <= now
    requires var prefix, e := es[..|es| - 1], es[|es| - 1];
             var s := Run(Step, s0, prefix);
             && s.windowMs == s0.windowMs && s.maxFailures == s0.maxFailures
             && Sorted(Log(prefix, ip), e.now)
             && Refines(TimestampsOf(s, ip), Log(prefix, ip), DroppedSinceClear(s0, prefix, ip), e.now - s.windowMs)
    ensures var s := Run(Step, s0, es);
            && s.windowMs == s0.windowMs && s.maxFailures == s0.maxFailures
            && Refines(TimestampsOf(s, ip), Log(es, ip), DroppedSinceClear(s0, es, ip), now - s0.windowMs)
  {
    hide *;
    var prefix, e := es[..|es| - 1], es[|es| - 1];
    var s := Run(Step, s0, prefix);
    var cutoff := e.now - s.windowMs;
    HistoryStep(s0, es, ip);
    var dropped := DroppedSinceClear(s0, prefix, ip);
    DropExpiredRefines(TimestampsOf(s, ip), Log(prefix, ip), dropped, cutoff);
    StepRefines(s, e, ip, Log(prefix, ip), dropped);
    LaterCutoff(TimestampsOf(Step(s, e), ip), Log(es, ip), DroppedSinceClear(s0, es, ip), cutoff, now - s0.windowMs);
  }

  lemma HistoryStep(s0: State, es: seq<Event>, ip: string)
    requires es != []
    ensures var prefix, e := es[..|es| - 1], es[|es| - 1];
            && Run(Step, s0, es) == Step(Run(Step, s0, prefix), e)
            && Log(es, ip) == (if e.ip != ip || e.Check? then Log(prefix, ip)
                               else if e.ClearIp? then [] else Log(prefix, ip) + [e.now])
            && DroppedSinceClear(s0, es, ip) ==
                 (!(e.ClearIp? && e.ip == ip)
                  && (DroppedSinceClear(s0, prefix, ip) || CapDrops(Run(Step, s0, prefix), e, ip)))
  {
    hide Step, CapDrops;
  }

  lemma LaterCutoff(timestamps: seq<int>, log: seq<int>, dropped: bool, cutoff: int, later: int)
    requires Refines(timestamps, log, dropped, cutoff) && cutoff <= later
    ensures Refines(timestamps, log, dropped, later)
  {
  }

  lemma StepRefines(s: State, e: Event, ip: string, log: seq<int>, dropped: bool)
    requires Refines(TimestampsOf(s, ip), log, dropped, e.now - s.windowMs)
    requires Refines(DropExpired(TimestampsOf(s, ip), e.now - s.windowMs), log, dropped, e.now - s.windowMs)
    ensures var log' := if e.ip != ip || e.Check? then log else if e.ClearIp? then [] else log + [e.now];
            var dropped' := !(e.ClearIp? && e.ip == ip) && (dropped || CapDrops(s, e, ip));
            Refines(TimestampsOf(Step(s, e), ip), log', dropped', e.now - s.windowMs)
    ensures Step(s, e).maxFailures == s.maxFailures && Step(s, e).windowMs == s.windowMs
  {
    var cutoff := e.now - s.windowMs;
    StepTimestamps(s, e, ip);
    hide Step, CapDrops, TimestampsOf, DropExpired;
    if e.RecordFailure? && e.ip == ip {
      var timestamps := TimestampsOf(s, ip);
      assert (log + [e.now])[|log| - |timestamps|..] == timestamps + [e.now];
    }
  }

  /** What an event does to the time stamps of `ip`. */
  lemma StepTimestamps(s: State, e: Event, ip: string)
    ensures var before, after := TimestampsOf(s, ip), TimestampsOf(Step(s, e), ip);
            var unexpired := DropExpired(before, e.now - s.windowMs);
            if e.ip != ip then
              after == before || after == unexpired || (after == [] && CapDrops(s, e, ip))
            else match e
              case RecordFailure(_, now) => after == before + [now]
              case Check(_, _) => after == unexpired
              case ClearIp(_, _) => after == []
    ensures Step(s, e).maxFailures == s.maxFailures && Step(s, e).windowMs == s.windowMs
  {
    if e.RecordFailure? {
      MakeRoomKeeps(s.failures, e.now - s.windowMs, ip);
      hide MakeRoom;
    }
  }

  // ----- what the cap takes -----

  /** The addresses with a failure newer than `cutoff`. */
  ghost function LiveIps(failures: Map<string, seq<int>>, cutoff: int): set<string> {
    set ip | ip in Keys(failures) && Get(failures, ip).Some? && DropExpired(Get(failures, ip).value, cutoff) != []
  }

  lemma {:induction false} EvictedAreNotLive(m: Map<string, seq<int>>, cutoff: int)
    ensures Keys(EvictStale(m, cutoff)) == LiveIps(m, cutoff) && |EvictStale(m, cutoff)| == |LiveIps(m, cutoff)|
  {
    hide DropExpired;
    var evicted := EvictStale(m, cutoff);
    forall ip ensures ip in Keys(evicted) <==> ip in LiveIps(m, cutoff) {
      KeysAreGot(evicted, ip);
      KeysAreGot(m, ip);
    }
    CountKeys(evicted);
  }

  /** An address is lost with failures in the window only when a new one comes while 50000
      are tracked that all have some, and then it is the one that came in first. */
  lemma {:induction false} CapDropsOldest(s: State, e: Event, ip: string) returns (i: nat)
    requires CapDrops(s, e, ip)
    ensures |s.failures| >= 50000 && Get(s.failures, e.ip).None?
    ensures |LiveIps(s.failures, e.now - s.windowMs)| >= 50000
    ensures i < |s.failures| && s.failures[i].0 == ip
    ensures forall j :: 0 <= j < i ==> DropExpired(s.failures[j].1, e.now - s.windowMs) == []
  {
    hide DropExpired;
    var cutoff := e.now - s.windowMs;
    EvictedAreNotLive(s.failures, cutoff);
    i := ReviseHead(s.failures, Unexpired(cutoff));
  }

  /** With fewer, recording a failure of one address leaves every other as it was. */
  lemma {:induction false} BelowCapNoneIsLost(s: State, e: Event, ip: string)
    requires e.RecordFailure? && e.ip != ip && |s.failures| < 50000
    ensures Get(Step(s, e).failures, ip) == Get(s.failures, ip)
  {
    hide EvictStale;
  }

  // ----- whole runs -----

  /** `isBlocked` holds exactly when the complete history since the last `clearIp`
      has at least `maxFailures` (and at least one) failures inside the window,
      provided the address was not dropped at the hard cap since; and it never
      blocks on fewer, dropped or not. */
  lemma BlockedExactlyWhenHistorySays(maxFailures: int, windowMs: int, es: seq<Event>, ip: string, now: int)
    requires NonDecreasingClock(es) && (es != [] ==> es[|es| - 1].now <= now)
    ensures var s := Run(Step, Initial(maxFailures, windowMs), es);
            var blocked := IsBlockedSpec(s, ip, now).1;
            var newer := Newer(Log(es, ip), now - windowMs);
            && (blocked ==> newer >= maxFailures && newer >= 1)
            && (!DroppedSinceClear(Initial(maxFailures, windowMs), es, ip) ==>
                  (blocked <==> newer >= maxFailures && newer >= 1))
  {
    hide *;
    StateRefinesLog(maxFailures, windowMs, es, ip, now);
    LogIsSorted(es, ip, now);
    var s := Run(Step, Initial(maxFailures, windowMs), es);
    DropExpiredRefines(TimestampsOf(s, ip), Log(es, ip), DroppedSinceClear(Initial(maxFailures, windowMs), es, ip),
                       now - windowMs);
    BlockedByTimestamps(s, ip, now);
  }

  lemma BlockedByTimestamps(s: State, ip: string, now: int)
    ensures var recent := DropExpired(TimestampsOf(s, ip), now - s.windowMs);
            IsBlockedSpec(s, ip, now).1 <==> |recent| >= s.maxFailures && |recent| >= 1
  {
  }

  /** The number of tracked addresses never exceeds the cap. */
  lemma {:induction false} TrackedIpsBounded(maxFailures: int, windowMs: int, es: seq<Event>)
    ensures |Run(Step, Initial(maxFailures, windowMs), es).failures| <= MAX_TRACKED_IPS
  {
    if es != [] {
      TrackedIpsBounded(maxFailures, windowMs, es[..|es| - 1]);
    }
  }

  // ----- the class -----

  class Limiter {
    var failures: Map<string, seq<int>>
    const maxFailures: int
    const windowMs: int

    function View(): State
      reads this
    {
      State(failures, maxFailures, windowMs)
    }

    constructor (maxFailures: int, windowMs: int)
      ensures View() == Initial(maxFailures, windowMs)
    {
      failures := [];
      this.maxFailures, this.windowMs := maxFailures, windowMs;
    }

    method EvictForOne(now: int)
      modifies this
      ensures View() == old(View()).(failures := MakeRoom(old(failures), now - windowMs))
    {
      if |failures| >= MAX_TRACKED_IPS {
        var cutoff := now - windowMs;
        UnexpiredSettles(cutoff);
        failures := ReviseAll(failures, Unexpired(cutoff));
        if |failures| >= MAX_TRACKED_IPS {
          failures := Tail(failures);
        }
      }
    }

    method RecordFailure(ip: string, now: int)
      modifies this
      ensures View() == RecordSpec(old(View()), ip, now)
    {
      var timestamps := Get(failures, ip);
      if timestamps.None? {
        EvictForOne(now);
        failures := Put(failures, ip, [now]);
      } else {
        failures := Put(failures, ip, timestamps.value + [now]);
      }
    }

    method IsBlocked(ip: string, now: int) returns (blocked: bool)
      modifies this
      ensures (View(), blocked) == IsBlockedSpec(old(View()), ip, now)
    {
      var tracked := Get(failures, ip);
      if tracked.None? {
        return false;
      }
      var timestamps := tracked.value;
      var cutoff := now - windowMs;
      while timestamps != [] && timestamps[0] <= cutoff
        invariant DropExpired(timestamps, cutoff) == DropExpired(tracked.value, cutoff)
        decreases |timestamps|
      {
        timestamps := timestamps[1..];
      }
      if timestamps == [] {
        failures := Remove(failures, ip);
        return false;
      }
      failures := Put(failures, ip, timestamps);
      return |timestamps| >= maxFailures;
    }

    method ClearIp(ip: string)
      modifies this
      ensures forall now :: View() == Step(old(View()), Event.ClearIp(ip, now))
    {
      failures := Remove(failures, ip);
    }
  }
}
