/** The once-per-cooldown throttle behind both the auth-fallback log line and the
    routing rejection notice. */
module Throttle {
  import opened InsertionMap
  import opened Runs

  /** Both classes track at most this many keys. */
  const MAX_TRACKED_KEYS := 10000

  /** The defaults: one hour for the log line; the rejection notice is fixed at five minutes. */
  const LOG_COOLDOWN_MS := 60 * 60 * 1000
  const REJECTION_NOTICE_COOLDOWN_MS := 5 * 60 * 1000

  type Stamps = Map<string, int>

  datatype State = State(stamps: Stamps, cooldownMs: int)

  function Fresh(now: int, cooldownMs: int): (string, int) -> bool {
    (key, stamp) => now - stamp < cooldownMs
  }

  /** The stable sort of the entries by time stamp. */
  function SortByTime(entries: seq<(string, int)>): (r: seq<(string, int)>)
    ensures |r| == |entries|
  {
    if entries == [] then []
    else Insert(SortByTime(entries[..|entries| - 1]), entries[|entries| - 1])
  }

  function Insert(sorted: seq<(string, int)>, e: (string, int)): (r: seq<(string, int)>)
    ensures |r| == |sorted| + 1
  {
    if sorted == [] || sorted[|sorted| - 1].1 <= e.1 then sorted + [e]
    else Insert(sorted[..|sorted| - 1], e) + [sorted[|sorted| - 1]]
  }

  lemma {:induction false} InsertPermutes(sorted: seq<(string, int)>, e: (string, int))
    ensures multiset(Insert(sorted, e)) == multiset(sorted) + multiset{e}
  {
    if !(sorted == [] || sorted[|sorted| - 1].1 <= e.1) {
      var init := sorted[..|sorted| - 1];
      InsertPermutes(init, e);
      assert sorted == init + [sorted[|sorted| - 1]];
    }
  }

  lemma {:induction false} SortPermutes(entries: seq<(string, int)>)
    ensures multiset(SortByTime(entries)) == multiset(entries)
  {
    if entries != [] {
      var init := entries[..|entries| - 1];
      SortPermutes(init);
      assert entries == init + [entries[|entries| - 1]];
      InsertPermutes(SortByTime(init), entries[|entries| - 1]);
    }
  }

  function RemoveFirst(m: Stamps, sorted: seq<(string, int)>, n: int): Stamps
    requires n <= |sorted|
    decreases n
  {
    if n <= 0 then m else Remove(RemoveFirst(m, sorted, n - 1), sorted[n - 1].0)
  }

  /** The safety valve: purge what has expired, then drop the oldest until one more fits. */
  function MakeRoom(m: Stamps, now: int, cooldownMs: int): Stamps {
    if |m| < MAX_TRACKED_KEYS then m
    else
      var purged := Keep(m, Fresh(now, cooldownMs));
      if |purged| < MAX_TRACKED_KEYS then purged
      else
        var sorted := SortByTime(purged);
        RemoveFirst(purged, sorted, |sorted| - MAX_TRACKED_KEYS + 1)
  }

  /** Stays silent while the key's last stamp is within the cooldown, else speaks and stamps it. */
  function CallSpec(s: State, key: string, now: int): (State, bool) {
    var last := Get(s.stamps, key);
    if last.Some? && now - last.value < s.cooldownMs then (s, false)
    else (s.(stamps := Put(MakeRoom(Remove(s.stamps, key), now, s.cooldownMs), key, now)), true)
  }

  datatype Event = Call(key: string, now: int)

  function Step(s: State, e: Event): State {
    CallSpec(s, e.key, e.now).0
  }

  function Initial(cooldownMs: int): State {
    State([], cooldownMs)
  }

  function Before(cooldownMs: int, es: seq<Event>, i: nat): State
    requires i <= |es|
  {
    Run(Step, Initial(cooldownMs), es[..i])
  }

  /** The answer of the i-th call of a run. */
  predicate Speaks(cooldownMs: int, es: seq<Event>, i: nat)
    requires i < |es|
  {
    CallSpec(Before(cooldownMs, es, i), es[i].key, es[i].now).1
  }

  ghost predicate NonDecreasingClock(es: seq<Event>) {
    forall i, j :: 0 <= i < j < |es| ==> es[i].now <= es[j].now
  }

  /** A call for another key pushed out a stamp that was still within the cooldown. */
  ghost predicate CapEvicts(s: State, e: Event, key: string) {
    && e.key != key && Get(s.stamps, key).Some? && e.now - Get(s.stamps, key).value < s.cooldownMs
    && Get(Step(s, e).stamps, key).None?
  }

  // ----- order and size -----

  /** The map is in time order, and nothing in it is later than `now`. */
  ghost predicate TimeOrdered(m: seq<(string, int)>, now: int) {
    && (forall i, j :: 0 <= i < j < |m| ==> m[i].1 <= m[j].1)
    && (forall i :: 0 <= i < |m| ==> m[i].1 <= now)
  }

  lemma {:induction false} SortOfOrdered(entries: seq<(string, int)>, now: int)
    requires TimeOrdered(entries, now)
    ensures SortByTime(entries) == entries
  {
    SortOfNone();
    hide *;
    if entries == [] {
    } else {
      var init, last := entries[..|entries| - 1], entries[|entries| - 1];
      assert entries == init + [last];
      InitIsOrdered(init, last, now);
      SortOfOrdered(init, now);
      SortStep(init, last);
      InsertLast(init, last);
    }
  }

  lemma SortOfNone()
    ensures SortByTime([]) == []
  {
  }

  lemma InitIsOrdered(init: seq<(string, int)>, last: (string, int), now: int)
    requires TimeOrdered(init + [last], now)
    ensures TimeOrdered(init, now)
    ensures init != [] ==> init[|init| - 1].1 <= last.1
  {
    var all := init + [last];
    assert forall i :: 0 <= i < |init| ==> all[i] == init[i];
    assert all[|init|] == last;
  }

  lemma SortStep(init: seq<(string, int)>, e: (string, int))
    ensures SortByTime(init + [e]) == Insert(SortByTime(init), e)
  {
    hide Insert;
    assert (init + [e])[..|init|] == init;
  }

  lemma InsertLast(sorted: seq<(string, int)>, e: (string, int))
    requires sorted != [] ==> sorted[|sorted| - 1].1 <= e.1
    ensures Insert(sorted, e) == sorted + [e]
  {
  }

  /** A map with fewer entries, in the same order. */
  lemma {:induction false} KeepOrdered(m: Stamps, keep: (string, int) -> bool, now: int)
    requires TimeOrdered(m, now)
    ensures TimeOrdered(Keep(m, keep), now)
    ensures forall e :: e in Keep(m, keep) ==> e in m
  {
    if m != [] {
      var tail := Tail(m);
      assert tail == m[1..];
      TailIsOrdered(m, now);
      KeepOrdered(tail, keep, now);
      if keep(m[0].0, m[0].1) {
        var rest := Keep(tail, keep);
        assert Keep(m, keep) == [m[0]] + rest by { KeepStep(m, keep); }
        hide *;
        ConsOrdered(m, rest, now);
      }
    }
  }

  lemma KeepStep(m: Stamps, keep: (string, int) -> bool)
    requires m != [] && keep(m[0].0, m[0].1)
    ensures Keep(m, keep) == [m[0]] + Keep(Tail(m), keep)
  {
    var r := Keep(m, keep);
    assert r == [r[0]] + r[1..];
  }

  lemma {:induction false} RemoveOrdered(m: Stamps, key: string, now: int)
    requires TimeOrdered(m, now)
    ensures TimeOrdered(Remove(m, key), now)
    ensures forall e :: e in Remove(m, key) ==> e in m
  {
    if m != [] {
      var tail := Tail(m);
      assert tail == m[1..];
      TailIsOrdered(m, now);
      if m[0].0 != key {
        RemoveOrdered(tail, key, now);
        var rest := Remove(tail, key);
        assert Remove(m, key) == [m[0]] + rest by { RemoveStep(m, key); }
        hide *;
        ConsOrdered(m, rest, now);
      }
    }
  }

  lemma RemoveStep(m: Stamps, key: string)
    requires m != [] && m[0].0 != key
    ensures Remove(m, key) == [m[0]] + Remove(Tail(m), key)
  {
    var r := Remove(m, key);
    assert r == [r[0]] + r[1..];
  }

  lemma TailIsOrdered(m: seq<(string, int)>, now: int)
    requires m != [] && TimeOrdered(m, now)
    ensures TimeOrdered(m[1..], now)
  {
  }

  /** The head of an ordered map goes before any of its later entries. */
  lemma ConsOrdered(m: seq<(string, int)>, rest: seq<(string, int)>, now: int)
    requires m != [] && TimeOrdered(m, now) && TimeOrdered(rest, now)
    requires forall e :: e in rest ==> e in m[1..]
    ensures TimeOrdered([m[0]] + rest, now)
    ensures forall e :: e in [m[0]] + rest ==> e in m
  {
    forall i | 0 <= i < |rest| ensures m[0].1 <= rest[i].1 && rest[i] in m {
      assert rest[i] in m[1..];
    }
  }

  lemma {:induction false} KeepSame(m: Stamps, keep: (string, int) -> bool)
    requires |Keep(m, keep)| == |m|
    ensures Keep(m, keep) == m && forall x :: Get(m, x).Some? ==> keep(x, Get(m, x).value)
  {
    if m != [] {
      if keep(m[0].0, m[0].1) {
        KeepSame(Tail(m), keep);
      }
    }
  }

  /** On a map within the cap the valve removes exactly one entry, and in a map in
      time order that is the one inserted first, when none has expired. */
  lemma {:induction false} ValveRemovesOldest(m: Stamps, now: int, cooldownMs: int)
    requires |m| == MAX_TRACKED_KEYS
    ensures var purged := Keep(m, Fresh(now, cooldownMs));
            && |MakeRoom(m, now, cooldownMs)| < MAX_TRACKED_KEYS
            && (|purged| < MAX_TRACKED_KEYS ==> MakeRoom(m, now, cooldownMs) == purged)
            && (|purged| == MAX_TRACKED_KEYS ==>
                  && purged == m && (forall x :: Get(m, x).Some? ==> now - Get(m, x).value < cooldownMs)
                  && MakeRoom(m, now, cooldownMs) == Remove(m, SortByTime(m)[0].0)
                  && (TimeOrdered(m, now) ==> MakeRoom(m, now, cooldownMs) == Tail(m)))
  {
    var purged := Keep(m, Fresh(now, cooldownMs));
    if |purged| == MAX_TRACKED_KEYS {
      KeepSame(m, Fresh(now, cooldownMs));
      var sorted := SortByTime(m);
      assert RemoveFirst(m, sorted, 0) == m;
      assert RemoveFirst(m, sorted, 1) == Remove(m, sorted[0].0);
      SortPermutes(m);
      assert sorted[0] in multiset(sorted);
      assert sorted[0] in m;
      var i :| 0 <= i < |m| && m[i] == sorted[0];
      GetAt(m, i);
      if TimeOrdered(m, now) {
        SortOfOrdered(m, now);
      }
    }
  }

  // ----- whole runs -----

  ghost predicate Valid(s: State, now: int) {
    |s.stamps| <= MAX_TRACKED_KEYS && TimeOrdered(s.stamps, now)
  }

  lemma RoomIsOrdered(m: Stamps, now: int, cooldownMs: int)
    requires |m| <= MAX_TRACKED_KEYS && TimeOrdered(m, now)
    ensures TimeOrdered(MakeRoom(m, now, cooldownMs), now) && |MakeRoom(m, now, cooldownMs)| < MAX_TRACKED_KEYS
  {
    if |m| == MAX_TRACKED_KEYS {
      ValveRemovesOldest(m, now, cooldownMs);
      KeepOrdered(m, Fresh(now, cooldownMs), now);
      TailIsOrdered(m, now);
      assert Tail(m) == m[1..];
      hide *;
    }
  }

  lemma CallKeepsOrder(s: State, key: string, now: int)
    requires Valid(s, now)
    ensures Valid(CallSpec(s, key, now).0, now)
  {
    var removed := Remove(s.stamps, key);
    RemoveOrdered(s.stamps, key, now);
    RoomIsOrdered(removed, now, s.cooldownMs);
    RoomOmits(removed, now, s.cooldownMs, key);
    hide MakeRoom, Fresh, Get, Put, Remove;
    var room := MakeRoom(removed, now, s.cooldownMs);
    PutOrder(room, key, now);
    hide *;
    LatestLast(room, key, now);
    CallIs(s, key, now);
  }

  lemma LatestLast(room: seq<(string, int)>, key: string, now: int)
    requires TimeOrdered(room, now)
    ensures TimeOrdered(room + [(key, now)], now)
  {
  }

  lemma CallIs(s: State, key: string, now: int)
    ensures CallSpec(s, key, now).0 == s
            || CallSpec(s, key, now).0
               == s.(stamps := Put(MakeRoom(Remove(s.stamps, key), now, s.cooldownMs), key, now))
  {
    hide MakeRoom, Get, Put, Remove;
  }

  lemma RoomOmits(m: Stamps, now: int, cooldownMs: int, key: string)
    requires |m| <= MAX_TRACKED_KEYS && Get(m, key).None?
    ensures Get(MakeRoom(m, now, cooldownMs), key).None?
  {
    if |m| == MAX_TRACKED_KEYS {
      ValveRemovesOldest(m, now, cooldownMs);
    }
  }

  lemma LaterValid(s: State, now: int, later: int)
    requires Valid(s, now) && now <= later
    ensures Valid(s, later)
  {
  }

  /** In every reachable state the map is within the cap and in time-stamp order. */
  lemma {:induction false} Reachable(cooldownMs: int, es: seq<Event>, now: int)
    requires NonDecreasingClock(es) && (es != [] ==> es[|es| - 1].now <= now)
    ensures Valid(Run(Step, Initial(cooldownMs), es), now)
            && Run(Step, Initial(cooldownMs), es).cooldownMs == cooldownMs
  {
    if es != [] {
      var e := es[|es| - 1];
      Reachable(cooldownMs, es[..|es| - 1], e.now);
      var s := Run(Step, Initial(cooldownMs), es[..|es| - 1]);
      CallKeepsOrder(s, e.key, e.now);
      hide MakeRoom, Valid;
      LaterValid(CallSpec(s, e.key, e.now).0, e.now, now);
    }
  }

  lemma CallKeepsSize(s: State, key: string, now: int)
    requires |s.stamps| <= MAX_TRACKED_KEYS
    ensures |CallSpec(s, key, now).0.stamps| <= MAX_TRACKED_KEYS
  {
    var removed := Remove(s.stamps, key);
    if |removed| == MAX_TRACKED_KEYS {
      ValveRemovesOldest(removed, now, s.cooldownMs);
    }
    hide Fresh;
  }

  /** The size bound needs no assumption about the clock. */
  lemma {:induction false} SizeIsBounded(cooldownMs: int, es: seq<Event>)
    ensures |Run(Step, Initial(cooldownMs), es).stamps| <= MAX_TRACKED_KEYS
  {
    if es != [] {
      var e := es[|es| - 1];
      SizeIsBounded(cooldownMs, es[..|es| - 1]);
      CallKeepsSize(Run(Step, Initial(cooldownMs), es[..|es| - 1]), e.key, e.now);
      hide CallSpec;
    }
  }

  /** A stamp is lost within its cooldown only when a call finds 10000 other keys with
      stamps in theirs, and no stamp is then earlier. */
  lemma {:induction false} CapEvictsEarliest(s: State, e: Event, key: string)
    requires |s.stamps| <= 10000 && CapEvicts(s, e, key)
    ensures var others := Remove(s.stamps, e.key);
            && |others| == 10000
            && forall x :: Get(others, x).Some? ==>
                 e.now - Get(others, x).value < s.cooldownMs && Get(others, key).value <= Get(others, x).value
  {
    var others := Remove(s.stamps, e.key);
    if |others| == MAX_TRACKED_KEYS {
      ValveRemovesOldest(others, e.now, s.cooldownMs);
      SortedStartsEarliest(others);
    }
  }

  /** Below the cap, a call leaves the stamps of all other keys alone. */
  lemma {:induction false} BelowCapNoneIsLost(s: State, e: Event, key: string)
    requires e.key != key && |s.stamps| < 10000
    ensures Get(Step(s, e).stamps, key) == Get(s.stamps, key)
  {
    hide SortByTime, Keep;
  }

  lemma {:induction false} InsertFirst(sorted: seq<(string, int)>, e: (string, int))
    requires forall i :: 0 <= i < |sorted| ==> sorted[0].1 <= sorted[i].1
    ensures Insert(sorted, e)[0] == if sorted != [] && sorted[0].1 <= e.1 then sorted[0] else e
    ensures forall i :: 0 <= i < |Insert(sorted, e)| ==> Insert(sorted, e)[0].1 <= Insert(sorted, e)[i].1
  {
    if !(sorted == [] || sorted[|sorted| - 1].1 <= e.1) {
      InsertFirst(sorted[..|sorted| - 1], e);
    }
  }

  lemma {:induction false} SortedFirst(entries: seq<(string, int)>)
    ensures forall i :: 0 <= i < |SortByTime(entries)| ==> SortByTime(entries)[0].1 <= SortByTime(entries)[i].1
  {
    hide Insert;
    if entries != [] {
      SortedFirst(entries[..|entries| - 1]);
      InsertFirst(SortByTime(entries[..|entries| - 1]), entries[|entries| - 1]);
    }
  }

  lemma SortedStartsEarliest(m: Stamps)
    requires m != []
    ensures var first := SortByTime(m)[0];
            Get(m, first.0) == Some(first.1) && forall x :: Get(m, x).Some? ==> first.1 <= Get(m, x).value
  {
    var sorted := SortByTime(m);
    SortedFirst(m);
    SortPermutes(m);
    assert sorted[0] in multiset(sorted);
    var i :| 0 <= i < |m| && m[i] == sorted[0];
    GetAt(m, i);
    hide SortByTime;
    forall x | Get(m, x).Some? ensures sorted[0].1 <= Get(m, x).value {
      GetIsNone(m, x);
      var j :| 0 <= j < |m| && m[j].0 == x;
      GetAt(m, j);
      assert m[j] in multiset(m);
      assert m[j] in multiset(sorted);
      var k :| 0 <= k < |sorted| && sorted[k] == m[j];
    }
  }

  /** What one call does to the stamp of any key. */
  lemma CallStamps(s: State, e: Event, key: string)
    requires |s.stamps| <= MAX_TRACKED_KEYS
    ensures var spoke := CallSpec(s, e.key, e.now).1;
            && (e.key == key && spoke ==> Get(Step(s, e).stamps, key) == Some(e.now))
            && (e.key == key && !spoke ==> Get(Step(s, e).stamps, key) == Get(s.stamps, key))
            && (e.key != key ==> || Get(Step(s, e).stamps, key) == Get(s.stamps, key)
                                 || Get(Step(s, e).stamps, key).None?)
    ensures e.key == key && CallSpec(s, e.key, e.now).1 && Get(s.stamps, key).Some?
            ==> e.now - Get(s.stamps, key).value >= s.cooldownMs
    ensures Step(s, e).cooldownMs == s.cooldownMs
  {
    var removed := Remove(s.stamps, e.key);
    if |removed| == MAX_TRACKED_KEYS {
      ValveRemovesOldest(removed, e.now, s.cooldownMs);
    }
  }

  lemma StampStep(s: State, e: Event, key: string, t: int)
    requires |s.stamps| <= MAX_TRACKED_KEYS && t <= e.now
    requires Get(s.stamps, key).Some? && Get(s.stamps, key).value >= t
    ensures || (Get(Step(s, e).stamps, key).Some? && Get(Step(s, e).stamps, key).value >= t)
            || CapEvicts(s, e, key)
            || e.now - t >= s.cooldownMs
  {
    CallStamps(s, e, key);
    hide Step, CallSpec;
  }

  /** Since call i spoke, its key has been stamped no earlier than then, unless the
      stamp was pushed out at the cap or a cooldown has passed. */
  lemma {:induction false} StampSince(cooldownMs: int, es: seq<Event>, i: nat, j: nat)
    requires i < j <= |es| && Speaks(cooldownMs, es, i)
    requires forall k :: i < k < j ==> es[i].now <= es[k].now < es[i].now + cooldownMs
    requires forall k :: i < k < j ==> !CapEvicts(Before(cooldownMs, es, k), es[k], es[i].key)
    ensures Get(Before(cooldownMs, es, j).stamps, es[i].key).Some?
    ensures Get(Before(cooldownMs, es, j).stamps, es[i].key).value >= es[i].now
    decreases j
  {
    hide *;
    if i == j - 1 {
      SpokeStamps(cooldownMs, es, i);
    } else {
      StampSince(cooldownMs, es, i, j - 1);
      StateBefore(cooldownMs, es, j - 1);
      StampStep(Before(cooldownMs, es, j - 1), es[j - 1], es[i].key, es[i].now);
    }
  }

  lemma StateBefore(cooldownMs: int, es: seq<Event>, k: nat)
    requires k < |es|
    ensures Before(cooldownMs, es, k + 1) == Step(Before(cooldownMs, es, k), es[k])
    ensures |Before(cooldownMs, es, k).stamps| <= MAX_TRACKED_KEYS && Before(cooldownMs, es, k).cooldownMs == cooldownMs
  {
    hide Step;
    RunStep(Step, Initial(cooldownMs), es, k);
    SizeIsBounded(cooldownMs, es[..k]);
    ReachableCooldown(cooldownMs, es[..k]);
  }

  lemma SpokeStamps(cooldownMs: int, es: seq<Event>, i: nat)
    requires i < |es| && Speaks(cooldownMs, es, i)
    ensures Get(Before(cooldownMs, es, i + 1).stamps, es[i].key) == Some(es[i].now)
  {
    StateBefore(cooldownMs, es, i);
    CallStamps(Before(cooldownMs, es, i), es[i], es[i].key);
    hide Step, CallSpec;
  }

  lemma {:induction false} ReachableCooldown(cooldownMs: int, es: seq<Event>)
    ensures Run(Step, Initial(cooldownMs), es).cooldownMs == cooldownMs
  {
    if es != [] {
      ReachableCooldown(cooldownMs, es[..|es| - 1]);
    }
  }

  /** Two true answers for one key lie at least a cooldown apart, unless its stamp was
      pushed out at the cap between them. */
  lemma {:induction false} AnswersAreSpaced(cooldownMs: int, es: seq<Event>, i: nat, j: nat)
    requires NonDecreasingClock(es) && i < j < |es| && es[i].key == es[j].key
    requires Speaks(cooldownMs, es, i) && Speaks(cooldownMs, es, j)
    ensures || es[j].now - es[i].now >= cooldownMs
            || exists k :: i < k < j && CapEvicts(Before(cooldownMs, es, k), es[k], es[i].key)
  {
    if es[j].now - es[i].now < cooldownMs
       && forall k :: i < k < j ==> !CapEvicts(Before(cooldownMs, es, k), es[k], es[i].key) {
      StampSince(cooldownMs, es, i, j);
      StateBefore(cooldownMs, es, j);
      CallStamps(Before(cooldownMs, es, j), es[j], es[j].key);
      hide Step, CallSpec;
    }
  }

  /** Every stamp is the time of a true answer for its key. */
  lemma {:induction false} StampsComeFromAnswers(cooldownMs: int, es: seq<Event>, j: nat, key: string) returns (i: nat)
    requires j <= |es| && Get(Before(cooldownMs, es, j).stamps, key).Some?
    ensures i < j && es[i].key == key && Speaks(cooldownMs, es, i)
    ensures es[i].now == Get(Before(cooldownMs, es, j).stamps, key).value
  {
    assert j > 0;
    var s := Before(cooldownMs, es, j - 1);
    SizeIsBounded(cooldownMs, es[..j - 1]);
    RunStep(Step, Initial(cooldownMs), es, j - 1);
    CallStamps(s, es[j - 1], key);
    hide Step, CallSpec;
    if es[j - 1].key == key && Speaks(cooldownMs, es, j - 1) {
      i := j - 1;
    } else {
      i := StampsComeFromAnswers(cooldownMs, es, j - 1, key);
    }
  }

  /** A call is only silenced by a true answer for the same key within the cooldown. */
  lemma SilenceHasCause(cooldownMs: int, es: seq<Event>, j: nat) returns (i: nat)
    requires j < |es| && !Speaks(cooldownMs, es, j)
    ensures i < j && es[i].key == es[j].key && Speaks(cooldownMs, es, i) && es[j].now - es[i].now < cooldownMs
  {
    ReachableCooldown(cooldownMs, es[..j]);
    i := StampsComeFromAnswers(cooldownMs, es, j, es[j].key);
  }

  // ----- the classes -----

  /** `AuthFallbackLogThrottle.shouldLog` and `RejectionRateLimiter.shouldSend` are this
      one method; the latter's object is made by `ForRejections`. */
  class CooldownThrottle {
    var stamps: Stamps
    const cooldownMs: int

    function View(): State
      reads this
    {
      State(stamps, cooldownMs)
    }

    constructor (cooldownMs: int := LOG_COOLDOWN_MS)
      ensures View() == Initial(cooldownMs)
    {
      stamps := [];
      this.cooldownMs := cooldownMs;
    }

    constructor ForRejections()
      ensures View() == Initial(REJECTION_NOTICE_COOLDOWN_MS)
    {
      stamps := [];
      cooldownMs := REJECTION_NOTICE_COOLDOWN_MS;
    }

    method ShouldSpeak(key: string, now: int) returns (speak: bool)
      requires |stamps| <= MAX_TRACKED_KEYS
      modifies this
      ensures (View(), speak) == CallSpec(old(View()), key, now)
      ensures |stamps| <= MAX_TRACKED_KEYS
    {
      CallKeepsSize(View(), key, now);
      var last := Get(stamps, key);
      if last.Some? {
        if now - last.value < cooldownMs {
          return false;
        }
        stamps := Remove(stamps, key);
      } else {
        RemoveAbsent(stamps, key);
      }
      Relieve(now);
      stamps := Put(stamps, key, now);
      return true;
    }

    /** The safety valve. */
    method Relieve(now: int)
      modifies this
      ensures View() == old(View()).(stamps := MakeRoom(old(stamps), now, cooldownMs))
    {
      hide Keep, SortByTime, RemoveFirst;
      if |stamps| < MAX_TRACKED_KEYS {
        return;
      }
      stamps := Purge(stamps, Fresh(now, cooldownMs));
      if |stamps| >= MAX_TRACKED_KEYS {
        DropOldest();
      }
    }

    method DropOldest()
      requires |stamps| >= MAX_TRACKED_KEYS
      modifies this
      ensures var sorted := SortByTime(old(stamps));
              View() == old(View()).(stamps := RemoveFirst(old(stamps), sorted, |sorted| - MAX_TRACKED_KEYS + 1))
    {
      var sorted := SortByTime(stamps);
      for i := 0 to |sorted| - MAX_TRACKED_KEYS + 1
        invariant stamps == RemoveFirst(old(stamps), sorted, i)
      {
        stamps := Remove(stamps, sorted[i].0);
      }
    }
  }
}
