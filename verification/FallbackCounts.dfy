/** The auth-fallback counts: a tracker bumped on the request path, and a reporter
    that drains it, ships the batch and merges it back when shipping fails. */
module FallbackCounts {
  import opened InsertionMap
  import opened Runs
  import opened Text

  const MAX_TRACKED_KEYS := 10000

  datatype Count = Count(guard: string, path: string, failureKind: string, count: int)

  datatype Batch = Batch(windowStart: int, windowEnd: int, counts: seq<Count>)

  function Key(guard: string, path: string, failureKind: string): string {
    guard + " " + path + " " + failureKind
  }

  function KeyOf(c: Count): string {
    Key(c.guard, c.path, c.failureKind)
  }

  /** A ledger: an amount per key, nothing yet being zero. */
  type Ledger = map<string, int>

  function At(m: Ledger, key: string): int {
    if key in m then m[key] else 0
  }

  function Bump(m: Ledger, key: string, delta: int): Ledger {
    m[key := At(m, key) + delta]
  }

  /** `dropped` is bookkeeping: what `add` threw away at the key cap. */
  datatype Tracker = Tracker(counts: Map<string, Count>, windowStartedAt: int, warnedAtCap: bool, dropped: Ledger)

  function Add(t: Tracker, c: Count): Tracker {
    var key := KeyOf(c);
    match Get(t.counts, key)
    case Some(existing) => t.(counts := Put(t.counts, key, existing.(count := existing.count + c.count)))
    case None =>
      if |t.counts| >= MAX_TRACKED_KEYS then t.(warnedAtCap := true, dropped := Bump(t.dropped, key, c.count))
      else t.(counts := Put(t.counts, key, c))
  }

  function Merge(t: Tracker, counts: seq<Count>): Tracker
    decreases counts
  {
    if counts == [] then t else Merge(Add(t, counts[0]), counts[1..])
  }

  function Values(m: seq<(string, Count)>): (r: seq<Count>)
    ensures |r| == |m| && forall i :: 0 <= i < |m| ==> r[i] == m[i].1
  {
    seq(|m|, i requires 0 <= i < |m| => m[i].1)
  }

  function Drain(t: Tracker, now: int): (Tracker, Batch) {
    var batch := Batch(t.windowStartedAt, now, Values(t.counts));
    if t.counts == [] then (t, batch)
    else (t.(counts := [], windowStartedAt := now, warnedAtCap := false), batch)
  }

  // ----- the reporter and the daemon -----

  /** What a POST comes to for the reporter: accepted and its body read, accepted but the
      body read failed, refused, or no answer before the timeout. */
  datatype Outcome = Delivered | BodyReadFailed | Rejected | NoAnswer

  /** What the reporter made of a flush; all but the first two merge its batch back. */
  datatype Status = InFlight | Acknowledged | Refused | Unconfirmed

  /** A flush by the order it began, and whether the daemon has stored its batch. */
  datatype Flight = Flight(batch: Batch, stored: bool, status: Status)

  /** `windows` is bookkeeping. */
  datatype State = State(tracker: Tracker, flights: seq<Flight>, windows: seq<(int, int)>)

  function FlushSpec(s: State, now: int): State {
    var (tracker, batch) := Drain(s.tracker, now);
    if batch.counts == [] then s.(tracker := tracker)
    else s.(tracker := tracker, flights := s.flights + [Flight(batch, false, InFlight)],
            windows := s.windows + [(batch.windowStart, batch.windowEnd)])
  }

  function Landed(f: Flight, outcome: Outcome): Flight {
    match outcome
    case Delivered => f.(stored := true, status := Acknowledged)
    case BodyReadFailed => f.(stored := true, status := Unconfirmed)
    case Rejected => f.(status := Refused)
    case NoAnswer => f.(status := Unconfirmed)
  }

  function FlushSettledSpec(s: State, id: nat, outcome: Outcome): State {
    if id >= |s.flights| || !s.flights[id].status.InFlight? then s
    else
      var landed := s.(flights := s.flights[id := Landed(s.flights[id], outcome)]);
      if outcome.Delivered? then landed
      else landed.(tracker := Merge(s.tracker, s.flights[id].batch.counts))
  }

  /** The daemon stores a batch at most once: while the POST is under way, or late,
      after the reporter has given up waiting; never after refusing it. */
  function StoreSpec(s: State, id: nat): State {
    if id >= |s.flights| || s.flights[id].status.Refused? then s
    else s.(flights := s.flights[id := s.flights[id].(stored := true)])
  }

  datatype Event =
    | Increment(guard: string, path: string, failureKind: string)
    | Flush(now: int)
    | DaemonStores(id: nat)
    | FlushSettles(id: nat, outcome: Outcome)

  function Step(s: State, e: Event): State {
    match e
    case Increment(guard, path, failureKind) => s.(tracker := Add(s.tracker, Count(guard, path, failureKind, 1)))
    case Flush(now) => FlushSpec(s, now)
    case DaemonStores(id) => StoreSpec(s, id)
    case FlushSettles(id, outcome) => FlushSettledSpec(s, id, outcome)
  }

  function Initial(now: int): State {
    State(Tracker([], now, false, map[]), [], [])
  }

  // ----- amounts -----

  /** How much a list of counts holds for a key. */
  function Held(counts: seq<Count>, key: string): int {
    if counts == [] then 0
    else (if KeyOf(counts[0]) == key then counts[0].count else 0) + Held(counts[1..], key)
  }

  /** What the flushes that `pick` selects hold for a key. */
  function Total(flights: seq<Flight>, pick: Flight -> bool, key: string): int {
    if flights == [] then 0
    else
      var last := flights[|flights| - 1];
      Total(flights[..|flights| - 1], pick, key) + if pick(last) then Held(last.batch.counts, key) else 0
  }

  const UnderWay := (f: Flight) => f.status.InFlight?
  const Confirmed := (f: Flight) => f.status.Acknowledged?
  const Stored := (f: Flight) => f.stored
  const Unstored := (f: Flight) => f.status.InFlight? && !f.stored

  /** The daemon has the batch, and the reporter has merged it back. */
  const Repeated := (f: Flight) => f.stored && (f.status.Refused? || f.status.Unconfirmed?)

  function Buffered(t: Tracker, key: string): int {
    Held(Values(t.counts), key)
  }

  /** Every entry sits under its own composite key. */
  ghost predicate Keyed(t: Tracker) {
    forall key :: Get(t.counts, key).Some? ==> KeyOf(Get(t.counts, key).value) == key
  }

  lemma {:induction false} HeldPut(m: Map<string, Count>, key: string, c: Count, k: string)
    requires KeyOf(c) == key && forall x :: Get(m, x).Some? ==> KeyOf(Get(m, x).value) == x
    ensures Held(Values(Put(m, key, c)), k)
            == Held(Values(m), k)
               + if k == key then c.count - (if Get(m, key).Some? then Get(m, key).value.count else 0) else 0
  {
    var r := Put(m, key, c);
    if m == [] {
      assert Values(r) == [c];
    } else {
      assert Get(m, m[0].0) == Some(m[0].1);
      assert Values(m)[1..] == Values(Tail(m));
      if m[0].0 == key {
        assert Values(r)[1..] == Values(Tail(m)) && Values(r)[0] == c;
      } else {
        HeldPut(Tail(m), key, c, k);
        assert Values(r)[1..] == Values(Put(Tail(m), key, c)) && Values(r)[0] == m[0].1;
      }
    }
  }

  /** A count put under its own key replaces what the key held before. */
  lemma PutConserves(t: Tracker, c: Count, k: string)
    requires Keyed(t)
    ensures var t' := t.(counts := Put(t.counts, KeyOf(c), c));
            && Keyed(t') && |t.counts| <= |t'.counts|
            && Buffered(t', k) == Buffered(t, k) + if k != KeyOf(c) then 0 else
                 c.count - (if Get(t.counts, KeyOf(c)).Some? then Get(t.counts, KeyOf(c)).value.count else 0)
  {
    HeldPut(t.counts, KeyOf(c), c, k);
    hide Held, Values, Put, Get, Key;
  }

  /** `add` buffers its amount or, at the key cap, drops it; nothing else moves. */
  lemma AddConserves(t: Tracker, c: Count, k: string)
    requires Keyed(t)
    ensures Keyed(Add(t, c))
    ensures var t' := Add(t, c);
            Buffered(t', k) + At(t'.dropped, k)
            == Buffered(t, k) + At(t.dropped, k) + if k == KeyOf(c) then c.count else 0
    ensures At(Add(t, c).dropped, k) != At(t.dropped, k) ==> |t.counts| >= MAX_TRACKED_KEYS && Get(t.counts, k).None?
    ensures |t.counts| <= |Add(t, c).counts|
  {
    var existing := Get(t.counts, KeyOf(c));
    var bumped := if existing.Some? then existing.value.(count := existing.value.count + c.count) else c;
    assert KeyOf(bumped) == KeyOf(c);
    PutConserves(t, bumped, k);
    hide Keyed, Buffered, KeyOf, Put, Get;
    SameCounts(t, Add(t, c), k);
  }

  lemma SameCounts(t: Tracker, t': Tracker, k: string)
    ensures t'.counts == t.counts ==> Buffered(t', k) == Buffered(t, k) && Keyed(t') == Keyed(t)
  {
    hide Held, KeyOf;
  }

  lemma {:induction false} MergeConserves(t: Tracker, counts: seq<Count>, k: string)
    requires Keyed(t)
    ensures Keyed(Merge(t, counts))
    ensures var t' := Merge(t, counts);
            Buffered(t', k) + At(t'.dropped, k) == Buffered(t, k) + At(t.dropped, k) + Held(counts, k)
    ensures At(Merge(t, counts).dropped, k) != At(t.dropped, k) ==> |Merge(t, counts).counts| >= MAX_TRACKED_KEYS
    ensures |t.counts| <= |Merge(t, counts).counts| && Merge(t, counts).windowStartedAt == t.windowStartedAt
    decreases counts
  {
    if counts != [] {
      AddConserves(t, counts[0], k);
      hide Buffered, Keyed;
      MergeConserves(Add(t, counts[0]), counts[1..], k);
    }
  }

  lemma {:induction false} TotalUpdate(flights: seq<Flight>, id: nat, f: Flight, pick: Flight -> bool, k: string)
    requires id < |flights| && f.batch == flights[id].batch
    ensures Total(flights[id := f], pick, k)
            == Total(flights, pick, k)
               + (if pick(f) then Held(f.batch.counts, k) else 0)
               - (if pick(flights[id]) then Held(f.batch.counts, k) else 0)
  {
    var last := |flights| - 1;
    if id == last {
      assert flights[id := f][..last] == flights[..last];
    } else {
      TotalUpdate(flights[..last], id, f, pick, k);
      assert flights[id := f][..last] == flights[..last][id := f];
    }
  }

  lemma TotalAppend(flights: seq<Flight>, f: Flight, pick: Flight -> bool, k: string)
    ensures Total(flights + [f], pick, k) == Total(flights, pick, k) + if pick(f) then Held(f.batch.counts, k) else 0
  {
    assert (flights + [f])[..|flights|] == flights;
  }

  /** Where, to the reporter's knowledge, everything ever counted under `k` now is. */
  function Accounted(s: State, k: string): int {
    Buffered(s.tracker, k) + Total(s.flights, UnderWay, k) + Total(s.flights, Confirmed, k) + At(s.tracker.dropped, k)
  }

  lemma FlushConserves(s: State, now: int, k: string)
    requires Keyed(s.tracker)
    ensures var s' := FlushSpec(s, now);
            Keyed(s'.tracker) && Accounted(s', k) == Accounted(s, k) && s'.tracker.dropped == s.tracker.dropped
  {
    var f := Flight(Drain(s.tracker, now).1, false, InFlight);
    TotalAppend(s.flights, f, UnderWay, k);
    TotalAppend(s.flights, f, Confirmed, k);
    assert Values([]) == [];
  }

  lemma StoreConserves(s: State, id: nat, k: string)
    ensures Accounted(StoreSpec(s, id), k) == Accounted(s, k)
  {
    if id < |s.flights| {
      var f := s.flights[id].(stored := true);
      TotalUpdate(s.flights, id, f, UnderWay, k);
      TotalUpdate(s.flights, id, f, Confirmed, k);
    }
  }

  lemma FlushSettledConserves(s: State, id: nat, outcome: Outcome, k: string)
    requires Keyed(s.tracker)
    ensures var s' := FlushSettledSpec(s, id, outcome);
            && Keyed(s'.tracker) && Accounted(s', k) == Accounted(s, k)
  {
    if id < |s.flights| && s.flights[id].status.InFlight? {
      var f := Landed(s.flights[id], outcome);
      TotalUpdate(s.flights, id, f, UnderWay, k);
      TotalUpdate(s.flights, id, f, Confirmed, k);
      MergeConserves(s.tracker, s.flights[id].batch.counts, k);
      hide Keyed, Merge, Held, Total, At, Buffered;
    }
  }

  lemma StepConserves(s: State, e: Event, k: string)
    requires Keyed(s.tracker)
    ensures Keyed(Step(s, e).tracker)
    ensures Accounted(Step(s, e), k)
            == Accounted(s, k) + if e.Increment? && Key(e.guard, e.path, e.failureKind) == k then 1 else 0
  {
    hide FlushSpec, FlushSettledSpec, StoreSpec, Keyed;
    match e {
      case Increment(guard, path, failureKind) =>
        AddConserves(s.tracker, Count(guard, path, failureKind, 1), k);
      case Flush(now) => FlushConserves(s, now, k);
      case DaemonStores(id) =>
        StoreConserves(s, id, k);
        StoreLeavesTracker(s, id);
      case FlushSettles(id, outcome) => FlushSettledConserves(s, id, outcome, k);
    }
  }

  lemma StoreLeavesTracker(s: State, id: nat)
    ensures StoreSpec(s, id).tracker == s.tracker
  {
  }

  // ----- whole runs -----

  /** How often `increment` was called with a given triple, or with any triple under a key. */
  function Increments(es: seq<Event>, guard: string, path: string, failureKind: string): nat {
    if es == [] then 0
    else
      Increments(es[..|es| - 1], guard, path, failureKind)
      + if es[|es| - 1] == Increment(guard, path, failureKind) then 1 else 0
  }

  function IncrementsUnder(es: seq<Event>, key: string): nat {
    if es == [] then 0
    else
      var e := es[|es| - 1];
      IncrementsUnder(es[..|es| - 1], key) + if e.Increment? && Key(e.guard, e.path, e.failureKind) == key then 1 else 0
  }

  /** Conservation per key: every increment is buffered, held by an unfinished flush,
      acknowledged, or was dropped at the key cap, however flushes overlap and fail. */
  lemma {:induction false} CountsAreConserved(now: int, es: seq<Event>, key: string)
    ensures var s := Run(Step, Initial(now), es);
            && Keyed(s.tracker)
            && IncrementsUnder(es, key) ==
                 Buffered(s.tracker, key) + Total(s.flights, UnderWay, key)
                 + Total(s.flights, Confirmed, key) + At(s.tracker.dropped, key)
  {
    if es == [] {
      assert Values([]) == [];
    } else {
      CountsAreConserved(now, es[..|es| - 1], key);
      hide Step, Keyed, Held, Total, Buffered;
      StepConserves(Run(Step, Initial(now), es[..|es| - 1]), es[|es| - 1], key);
    }
  }

  /** Merging drops an amount only at an `add` of its key that finds the map full. */
  lemma {:induction false} MergeDropsAtCap(t: Tracker, counts: seq<Count>, k: string) returns (n: nat)
    requires At(Merge(t, counts).dropped, k) != At(t.dropped, k)
    ensures n < |counts| && KeyOf(counts[n]) == k
    ensures var t' := Merge(t, counts[..n]); |t'.counts| >= MAX_TRACKED_KEYS && Get(t'.counts, k).None?
    decreases counts
  {
    if counts == [] {
      assert false;
    } else if At(Add(t, counts[0]).dropped, k) != At(t.dropped, k) {
      assert counts[..0] == [];
      n := 0;
    } else {
      var m := MergeDropsAtCap(Add(t, counts[0]), counts[1..], k);
      n := m + 1;
      assert counts[..n][1..] == counts[1..][..m];
    }
  }

  /** In a step of any run, an amount is dropped only when a count of that key, and no
      entry for it, meets a full map: the counted request itself, or count `n` of the
      batch being merged back. */
  lemma {:induction false} DropsOnlyAtCap(now: int, es: seq<Event>, e: Event, key: string) returns (n: nat)
    requires var s := Run(Step, Initial(now), es); At(Step(s, e).tracker.dropped, key) != At(s.tracker.dropped, key)
    ensures var s := Run(Step, Initial(now), es);
            match e
            case Increment(guard, path, failureKind) =>
              && Key(guard, path, failureKind) == key
              && |s.tracker.counts| >= 10000 && Get(s.tracker.counts, key).None?
            case FlushSettles(id, outcome) =>
              && id < |s.flights| && n < |s.flights[id].batch.counts| && KeyOf(s.flights[id].batch.counts[n]) == key
              && var t := Merge(s.tracker, s.flights[id].batch.counts[..n]);
                 |t.counts| >= 10000 && Get(t.counts, key).None?
            case _ => false
  {
    var s := Run(Step, Initial(now), es);
    n := 0;
    match e {
      case FlushSettles(id, outcome) =>
        hide Merge;
        n := MergeDropsAtCap(s.tracker, s.flights[id].batch.counts, key);
      case _ =>
    }
  }

  // ----- what the daemon ends up with -----

  /** Every count held anywhere is at least one. */
  ghost predicate AllPositive(counts: seq<Count>) {
    forall i :: 0 <= i < |counts| ==> counts[i].count >= 1
  }

  ghost predicate Positive(s: State) {
    && (forall key :: Get(s.tracker.counts, key).Some? ==> Get(s.tracker.counts, key).value.count >= 1)
    && (forall id :: 0 <= id < |s.flights| ==> AllPositive(s.flights[id].batch.counts))
  }

  /** Nothing is acknowledged that the daemon has not stored. */
  ghost predicate AcknowledgedAreStored(s: State) {
    forall id :: 0 <= id < |s.flights| && s.flights[id].status.Acknowledged? ==> s.flights[id].stored
  }

  lemma {:induction false} MergePositive(t: Tracker, counts: seq<Count>)
    requires forall key :: Get(t.counts, key).Some? ==> Get(t.counts, key).value.count >= 1
    requires AllPositive(counts)
    ensures forall key :: Get(Merge(t, counts).counts, key).Some? ==> Get(Merge(t, counts).counts, key).value.count >= 1
    decreases counts
  {
    if counts != [] {
      MergePositive(Add(t, counts[0]), counts[1..]);
    }
  }

  lemma ValuesPositive(m: Map<string, Count>)
    requires forall key :: Get(m, key).Some? ==> Get(m, key).value.count >= 1
    ensures AllPositive(Values(m))
  {
    forall i | 0 <= i < |m| ensures m[i].1.count >= 1 {
      GetAt(m, i);
    }
  }

  lemma StepKeepsPositive(s: State, e: Event)
    requires Positive(s)
    ensures Positive(Step(s, e))
  {
    match e {
      case Flush(_) => ValuesPositive(s.tracker.counts);
      case FlushSettles(id, outcome) =>
        if id < |s.flights| {
          MergePositive(s.tracker, s.flights[id].batch.counts);
          hide Merge, AllPositive;
        }
      case _ =>
    }
  }

  lemma StepKeepsStored(s: State, e: Event)
    requires AcknowledgedAreStored(s)
    ensures AcknowledgedAreStored(Step(s, e))
  {
    hide Merge, Drain, Add;
  }

  lemma {:induction false} Reachable(now: int, es: seq<Event>)
    ensures var s := Run(Step, Initial(now), es); Positive(s) && AcknowledgedAreStored(s)
  {
    hide Step;
    if es != [] {
      hide Positive, AcknowledgedAreStored;
      Reachable(now, es[..|es| - 1]);
      StepKeepsPositive(Run(Step, Initial(now), es[..|es| - 1]), es[|es| - 1]);
      StepKeepsStored(Run(Step, Initial(now), es[..|es| - 1]), es[|es| - 1]);
    }
  }

  /** The daemon's own total for a key. */
  function DaemonTotal(s: State, k: string): int {
    Total(s.flights, Stored, k)
  }

  /** What it should be: what was counted, less what has not been delivered yet or was dropped. */
  function Due(s: State, es: seq<Event>, k: string): int {
    IncrementsUnder(es, k) - Buffered(s.tracker, k) - Total(s.flights, Unstored, k) - At(s.tracker.dropped, k)
  }

  lemma {:induction false} StoredSplits(flights: seq<Flight>, k: string)
    requires forall id :: 0 <= id < |flights| && flights[id].status.Acknowledged? ==> flights[id].stored
    ensures Total(flights, Stored, k) + Total(flights, Unstored, k)
            == Total(flights, UnderWay, k) + Total(flights, Confirmed, k) + Total(flights, Repeated, k)
  {
    if flights != [] {
      StoredSplits(flights[..|flights| - 1], k);
    }
  }

  /** For every key and every run, whatever gets lost on the way: the daemon's total
      exceeds what is due by exactly what it stored and the reporter merged back. */
  lemma {:induction false} DaemonExceedsByRepeated(now: int, es: seq<Event>, key: string)
    ensures var s := Run(Step, Initial(now), es);
            DaemonTotal(s, key) == Due(s, es, key) + Total(s.flights, Repeated, key)
  {
    hide Step, Total, Held, Buffered;
    CountsAreConserved(now, es, key);
    Reachable(now, es);
    StoredSplits(Run(Step, Initial(now), es).flights, key);
  }

  predicate Holds(counts: seq<Count>, key: string) {
    exists i :: 0 <= i < |counts| && KeyOf(counts[i]) == key
  }

  lemma {:induction false} HeldWhenHolds(counts: seq<Count>, key: string)
    requires AllPositive(counts)
    ensures Held(counts, key) >= 0 && (Held(counts, key) > 0 <==> Holds(counts, key))
  {
    if counts != [] {
      var rest := counts[1..];
      HeldWhenHolds(rest, key);
      assert forall i :: 0 <= i < |rest| ==> rest[i] == counts[i + 1];
      if Holds(counts, key) && KeyOf(counts[0]) != key {
        var i :| 0 <= i < |counts| && KeyOf(counts[i]) == key;
        assert rest[i - 1] == counts[i];
      }
    }
  }

  /** Flush `id` holds the key, and failed for the reporter after the daemon had stored it. */
  predicate FailedAfterStored(s: State, id: nat, key: string)
    requires id < |s.flights|
  {
    Repeated(s.flights[id]) && Holds(s.flights[id].batch.counts, key)
  }

  lemma {:induction false} RepeatedWhenFailed(flights: seq<Flight>, key: string)
    requires forall id :: 0 <= id < |flights| ==> AllPositive(flights[id].batch.counts)
    ensures Total(flights, Repeated, key) >= 0
    ensures Total(flights, Repeated, key) > 0 <==>
            exists id :: 0 <= id < |flights| && Repeated(flights[id]) && Holds(flights[id].batch.counts, key)
  {
    hide AllPositive, Holds, Held;
    if flights != [] {
      var init, last := flights[..|flights| - 1], flights[|flights| - 1];
      RepeatedWhenFailed(init, key);
      HeldWhenHolds(last.batch.counts, key);
      assert forall id :: 0 <= id < |init| ==> init[id] == flights[id];
      if Repeated(last) && Holds(last.batch.counts, key) {
        assert flights[|init|] == last;
      }
      forall id | 0 <= id < |flights| && Repeated(flights[id]) && Holds(flights[id].batch.counts, key)
        ensures id == |init| || (Repeated(init[id]) && Holds(init[id].batch.counts, key))
      {
      }
    }
  }

  /** So a key is double-counted exactly when some flush holding it failed after the
      daemon had stored its batch; no other loss or overlap does it. */
  lemma {:induction false} DoubleCountedExactly(now: int, es: seq<Event>, key: string)
    ensures var s := Run(Step, Initial(now), es);
            && DaemonTotal(s, key) >= Due(s, es, key)
            && (DaemonTotal(s, key) > Due(s, es, key) <==>
                exists id :: 0 <= id < |s.flights| && FailedAfterStored(s, id, key))
  {
    hide Step, Total, Held, Buffered, Holds, Due, DaemonTotal;
    var s := Run(Step, Initial(now), es);
    DaemonExceedsByRepeated(now, es, key);
    Reachable(now, es);
    RepeatedWhenFailed(s.flights, key);
    assert forall id :: 0 <= id < |s.flights| ==>
             (FailedAfterStored(s, id, key) <==> Repeated(s.flights[id]) && Holds(s.flights[id].batch.counts, key));
  }

  /** One request, a POST that the daemon stores but whose answer is lost, and a second
      POST that goes through: for any triple the daemon has then counted two. */
  lemma LostAnswerIsCountedTwice(guard: string, path: string, failureKind: string)
    ensures var es := [Increment(guard, path, failureKind), Flush(1), DaemonStores(0), FlushSettles(0, NoAnswer),
                       Flush(2), FlushSettles(1, Delivered)];
            var key := Key(guard, path, failureKind);
            IncrementsUnder(es, key) == 1 && DaemonTotal(Run(Step, Initial(0), es), key) == 2
  {
    hide *;
    var count := Count(guard, path, failureKind, 1);
    var first := [Increment(guard, path, failureKind), Flush(1)];
    var retried := first + [DaemonStores(0), FlushSettles(0, NoAnswer)];
    assert [] + first == first;
    RunTwo(Step, Initial(0), [], first[0], first[1]);
    RunTwo(Step, Initial(0), first, DaemonStores(0), FlushSettles(0, NoAnswer));
    RunTwo(Step, Initial(0), retried, Flush(2), FlushSettles(1, Delivered));
    IncrementsInTwo([], first[0], first[1], KeyOf(count));
    IncrementsInTwo(first, DaemonStores(0), FlushSettles(0, NoAnswer), KeyOf(count));
    IncrementsInTwo(retried, Flush(2), FlushSettles(1, Delivered), KeyOf(count));
    NothingYet(count);
    assert retried + [Flush(2), FlushSettles(1, Delivered)]
           == [Increment(guard, path, failureKind), Flush(1), DaemonStores(0), FlushSettles(0, NoAnswer),
               Flush(2), FlushSettles(1, Delivered)];
    var s2 := CountedAndSent(Initial(0), guard, path, failureKind);
    var s4 := StoredAndLost(s2, count);
    SentAgain(s4, count);
  }

  lemma NothingYet(count: Count)
    ensures Run(Step, Initial(0), []) == Initial(0) && IncrementsUnder([], KeyOf(count)) == 0
    ensures KeyOf(count) == Key(count.guard, count.path, count.failureKind)
  {
  }

  lemma CountedAndSent(s: State, guard: string, path: string, failureKind: string) returns (s': State)
    requires s == Initial(0)
    ensures s' == Step(Step(s, Increment(guard, path, failureKind)), Flush(1))
    ensures s'.tracker.counts == [] && s'.tracker.windowStartedAt == 1
    ensures s'.flights == [Flight(Batch(0, 1, [Count(guard, path, failureKind, 1)]), false, InFlight)]
  {
    CountAndFlush(s.tracker, Count(guard, path, failureKind, 1), 1);
    hide Add, Drain;
    s' := Step(Step(s, Increment(guard, path, failureKind)), Flush(1));
  }

  lemma StoredAndLost(s: State, count: Count) returns (s': State)
    requires s.flights == [Flight(Batch(0, 1, [count]), false, InFlight)]
    ensures s' == Step(Step(s, DaemonStores(0)), FlushSettles(0, NoAnswer))
    ensures s'.flights == [Flight(Batch(0, 1, [count]), true, Unconfirmed)] && s'.tracker == Add(s.tracker, count)
  {
    MergeOne(s.tracker, count);
    hide Add, Merge;
    s' := Step(Step(s, DaemonStores(0)), FlushSettles(0, NoAnswer));
  }

  lemma MergeOne(t: Tracker, count: Count)
    ensures Merge(t, [count]) == Add(t, count)
  {
    hide Add;
    assert Merge(Add(t, count), []) == Add(t, count);
  }

  lemma SentAgain(s: State, count: Count)
    requires s.flights == [Flight(Batch(0, 1, [count]), true, Unconfirmed)] && count.count == 1
    requires exists t: Tracker :: t.counts == [] && s.tracker == Add(t, count)
    ensures DaemonTotal(Step(Step(s, Flush(2)), FlushSettles(1, Delivered)), KeyOf(count)) == 2
  {
    var t: Tracker :| t.counts == [] && s.tracker == Add(t, count);
    CountAndFlush(t, count, 2);
    hide Add, Drain, KeyOf;
    var f := Flight(Drain(s.tracker, 2).1, true, Acknowledged);
    var s' := Step(Step(s, Flush(2)), FlushSettles(1, Delivered));
    assert s'.flights == s.flights + [f];
    TotalAppend([], s.flights[0], Stored, KeyOf(count));
    assert [] + s.flights == s.flights;
    TotalAppend(s.flights, f, Stored, KeyOf(count));
    assert [count][1..] == [];
  }

  lemma CountAndFlush(t: Tracker, count: Count, now: int)
    requires t.counts == []
    ensures Add(t, count).counts == [(KeyOf(count), count)] && Add(t, count).windowStartedAt == t.windowStartedAt
    ensures var (t', batch) := Drain(Add(t, count), now);
            t'.counts == [] && t'.windowStartedAt == now && batch == Batch(t.windowStartedAt, now, [count])
  {
  }

  lemma IncrementsInTwo(es: seq<Event>, a: Event, b: Event, key: string)
    ensures IncrementsUnder(es + [a, b], key)
            == IncrementsUnder(es, key)
               + (if a.Increment? && Key(a.guard, a.path, a.failureKind) == key then 1 else 0)
               + (if b.Increment? && Key(b.guard, b.path, b.failureKind) == key then 1 else 0)
  {
    assert (es + [a, b])[..|es| + 1] == es + [a];
    assert (es + [a])[..|es|] == es;
  }

  predicate SpaceFree(s: string) {
    ' ' !in s
  }

  lemma CutAtSpace(a: string, rest: string)
    requires SpaceFree(a)
    ensures var s := a + " " + rest; IndexOf(s, ' ') == |a| && s[..|a|] == a && s[|a| + 1..] == rest
  {
    var s := a + " " + rest;
    assert s[..|a|] == a;
    IndexOfUnique(s, ' ', |a|);
  }

  /** On parts without spaces, the composite key tells triples apart. */
  lemma KeyIsInjective(g1: string, p1: string, f1: string, g2: string, p2: string, f2: string)
    requires SpaceFree(g1) && SpaceFree(p1) && SpaceFree(g2) && SpaceFree(p2)
    ensures Key(g1, p1, f1) == Key(g2, p2, f2) <==> g1 == g2 && p1 == p2 && f1 == f2
  {
    if Key(g1, p1, f1) == Key(g2, p2, f2) {
      assert Key(g1, p1, f1) == g1 + " " + (p1 + " " + f1) && Key(g2, p2, f2) == g2 + " " + (p2 + " " + f2);
      CutAtSpace(g1, p1 + " " + f1);
      CutAtSpace(g2, p2 + " " + f2);
      CutAtSpace(p1, f1);
      CutAtSpace(p2, f2);
      hide IndexOf;
    }
  }

  /** Another triple with the same key as one with a space in some part. */
  lemma Twin(g: string, p: string, f: string) returns (g2: string, p2: string, f2: string)
    requires !(SpaceFree(g) && SpaceFree(p) && SpaceFree(f))
    ensures Key(g2, p2, f2) == Key(g, p, f) && !(g2 == g && p2 == p && f2 == f)
  {
    hide IndexOf;
    if !SpaceFree(g) {
      var i := IndexOf(g, ' ');
      g2, p2, f2 := g[..i], g[i + 1..] + " " + p, f;
      assert g == g2 + " " + g[i + 1..];
      assert g2 + " " + (g[i + 1..] + " " + p) + " " + f == (g2 + " " + g[i + 1..]) + " " + p + " " + f;
    } else if !SpaceFree(p) {
      var i := IndexOf(p, ' ');
      g2, p2, f2 := g, p[..i], p[i + 1..] + " " + f;
      assert p == p2 + " " + p[i + 1..];
      assert g + " " + p2 + " " + (p[i + 1..] + " " + f) == g + " " + (p2 + " " + p[i + 1..]) + " " + f;
    } else {
      var i := IndexOf(f, ' ');
      g2, p2, f2 := g, p + " " + f[..i], f[i + 1..];
      assert f == f[..i] + " " + f2;
      assert g + " " + (p + " " + f[..i]) + " " + f2 == g + " " + p + " " + (f[..i] + " " + f2);
    }
  }

  lemma SpacesOfKey(g: string, p: string, f: string)
    ensures var key := Key(g, p, f);
            && |key| == |g| + |p| + |f| + 2 && key[|g|] == ' ' && key[|g| + 1 + |p|] == ' '
            && key[..|g|] == g && key[|g| + 1..|g| + 1 + |p|] == p && key[|g| + |p| + 2..] == f
    ensures SpaceFree(g) && SpaceFree(p) && SpaceFree(f) ==>
            forall i :: 0 <= i < |Key(g, p, f)| && Key(g, p, f)[i] == ' ' ==> i == |g| || i == |g| + 1 + |p|
  {
  }

  /** A triple is told apart from all others exactly when none of its parts has a space. */
  lemma KeyTellsApart(g: string, p: string, f: string)
    ensures (forall g2, p2, f2 :: Key(g2, p2, f2) == Key(g, p, f) ==> g2 == g && p2 == p && f2 == f)
            <==> SpaceFree(g) && SpaceFree(p) && SpaceFree(f)
  {
    if SpaceFree(g) && SpaceFree(p) && SpaceFree(f) {
      SpacesOfKey(g, p, f);
      forall g2, p2, f2 | Key(g2, p2, f2) == Key(g, p, f) ensures g2 == g && p2 == p && f2 == f {
        SpacesOfKey(g2, p2, f2);
      }
    } else {
      var g2, p2, f2 := Twin(g, p, f);
    }
  }

  /** So with space-free guards and paths the conserved amounts are those of each triple. */
  lemma {:induction false} KeyCountsTriple(es: seq<Event>, guard: string, path: string, failureKind: string)
    requires SpaceFree(guard) && SpaceFree(path)
    requires forall i :: 0 <= i < |es| && es[i].Increment? ==> SpaceFree(es[i].guard) && SpaceFree(es[i].path)
    ensures IncrementsUnder(es, Key(guard, path, failureKind)) == Increments(es, guard, path, failureKind)
  {
    if es != [] {
      var e := es[|es| - 1];
      KeyCountsTriple(es[..|es| - 1], guard, path, failureKind);
      if e.Increment? {
        KeyIsInjective(e.guard, e.path, e.failureKind, guard, path, failureKind);
      }
    }
  }

  /** The windows of the shipped batches tile time without gap or overlap. */
  ghost predicate Tiled(s: State, start: int) {
    && (forall i :: 0 <= i < |s.windows| - 1 ==> s.windows[i].1 == s.windows[i + 1].0)
    && (if s.windows == [] then s.tracker.windowStartedAt == start
        else s.windows[0].0 == start && s.tracker.windowStartedAt == s.windows[|s.windows| - 1].1)
  }

  lemma StepTiles(s: State, e: Event, start: int)
    requires Tiled(s, start)
    ensures Tiled(Step(s, e), start)
  {
    if e.FlushSettles? && e.id < |s.flights| {
      MergeKeepsWindow(s.tracker, s.flights[e.id].batch.counts);
      hide Merge;
    }
  }

  lemma {:induction false} MergeKeepsWindow(t: Tracker, counts: seq<Count>)
    ensures Merge(t, counts).windowStartedAt == t.windowStartedAt
    decreases counts
  {
    if counts != [] {
      MergeKeepsWindow(Add(t, counts[0]), counts[1..]);
    }
  }

  lemma {:induction false} WindowsTile(now: int, es: seq<Event>)
    ensures Tiled(Run(Step, Initial(now), es), now)
  {
    if es != [] {
      WindowsTile(now, es[..|es| - 1]);
      hide Step, Tiled;
      StepTiles(Run(Step, Initial(now), es[..|es| - 1]), es[|es| - 1], now);
    }
  }

  // ----- the classes -----

  class AuthFallbackCountTracker {
    var counts: Map<string, Count>
    var windowStartedAt: int
    var warnedAtCap: bool
    var dropped: Ledger

    function View(): Tracker
      reads this
    {
      Tracker(counts, windowStartedAt, warnedAtCap, dropped)
    }

    constructor (now: int)
      ensures View() == Tracker([], now, false, map[])
    {
      counts, windowStartedAt, warnedAtCap, dropped := [], now, false, map[];
    }

    method AddCount(guard: string, path: string, failureKind: string, delta: int)
      modifies this
      ensures View() == Add(old(View()), Count(guard, path, failureKind, delta))
    {
      var key := Key(guard, path, failureKind);
      var existing := Get(counts, key);
      if existing.Some? {
        counts := Put(counts, key, existing.value.(count := existing.value.count + delta));
        return;
      }
      if |counts| >= MAX_TRACKED_KEYS {
        warnedAtCap := true;
        dropped := Bump(dropped, key, delta);
        return;
      }
      counts := Put(counts, key, Count(guard, path, failureKind, delta));
    }

    method DrainCounts(now: int) returns (batch: Batch)
      modifies this
      ensures (View(), batch) == Drain(old(View()), now)
    {
      batch := Batch(windowStartedAt, now, Values(counts));
      if counts == [] {
        return;
      }
      counts := [];
      windowStartedAt := now;
      warnedAtCap := false;
    }

    method MergeCounts(batch: seq<Count>)
      modifies this
      ensures View() == Merge(old(View()), batch)
    {
      for i := 0 to |batch|
        invariant Merge(View(), batch[i..]) == Merge(old(View()), batch)
      {
        assert batch[i..][1..] == batch[i + 1..];
        AddCount(batch[i].guard, batch[i].path, batch[i].failureKind, batch[i].count);
      }
    }
  }

  class AuthFallbackReporter {
    const tracker: AuthFallbackCountTracker
    /** The `flush` calls so far; `stored` and `windows` are the bookkeeping of `State`. */
    var flights: seq<Flight>
    var windows: seq<(int, int)>

    function View(): State
      reads this, tracker
    {
      State(tracker.View(), flights, windows)
    }

    constructor (tracker: AuthFallbackCountTracker)
      ensures this.tracker == tracker && View() == State(tracker.View(), [], [])
    {
      this.tracker := tracker;
      flights, windows := [], [];
    }

    /** `flush` up to the POST; the timer and `stop` both call it. */
    method Flush(now: int)
      modifies this, tracker
      ensures View() == FlushSpec(old(View()), now)
    {
      var batch := tracker.DrainCounts(now);
      if batch.counts == [] {
        return;
      }
      flights := flights + [Flight(batch, false, InFlight)];
      windows := windows + [(batch.windowStart, batch.windowEnd)];
    }

    /** The rest of `flush` number `id`. */
    method FlushSettled(id: nat, outcome: Outcome)
      modifies this, tracker
      ensures View() == FlushSettledSpec(old(View()), id, outcome)
    {
      if id >= |flights| || !flights[id].status.InFlight? {
        return;
      }
      var counts := flights[id].batch.counts;
      flights := flights[id := Landed(flights[id], outcome)];
      if !outcome.Delivered? {
        tracker.MergeCounts(counts);
      }
    }
  }
}
