/** The Telegram update_id cache: a TTL map of bounded size, a reservation
    sentinel per in-flight update, and a high-water mark that never goes down. */
module UpdateDedup {
  import opened InsertionMap
  import opened Runs

  /** `highWaterMark`, which starts at -Infinity. */
  datatype Mark = NegInfinity | At(id: int)

  predicate AtOrBelow(id: int, mark: Mark) {
    mark.At? && id <= mark.id
  }

  datatype Entry = Entry(body: string, status: int, expiresAt: int, processing: bool)

  datatype Answer = Reserved | Duplicate | AlreadyProcessed

  datatype State = State(entries: Map<int, Entry>, mark: Mark, ttl: int, maxSize: int) {
    predicate Live(id: int, now: int) {
      Get(entries, id).Some? && now <= Get(entries, id).value.expiresAt
    }
  }

  const Unexpired := (now: int) => (id: int, e: Entry) => now <= e.expiresAt

  /** Purge what has expired if the map is full, then drop the oldest entry if it still is. */
  function MakeRoom(m: Map<int, Entry>, now: int, maxSize: int): (r: Map<int, Entry>)
    ensures |m| < maxSize ==> r == m
    ensures 1 <= maxSize && |m| <= maxSize ==> |r| < maxSize
    ensures forall x :: Get(r, x).Some? ==> Get(r, x) == Get(m, x)
    ensures forall x :: Get(m, x).Some? && now <= Get(m, x).value.expiresAt && Get(r, x).None?
                        ==> |Keep(m, Unexpired(now))| >= maxSize && Keep(m, Unexpired(now))[0].0 == x
  {
    var purged := if |m| >= maxSize then Keep(m, Unexpired(now)) else m;
    if |purged| >= maxSize && purged != [] then
      assert |m| >= maxSize;
      Tail(purged)
    else purged
  }

  function ReserveSpec(s: State, id: int, now: int): (State, Answer) {
    if s.Live(id, now) then (s, Duplicate)
    else
      var cleaned := Remove(s.entries, id);
      if AtOrBelow(id, s.mark) then (s.(entries := cleaned), AlreadyProcessed)
      else
        var room := MakeRoom(cleaned, now, s.maxSize);
        (s.(entries := Put(room, id, Entry("", 0, now + s.ttl, true))), Reserved)
  }

  function UnreserveSpec(s: State, id: int): State {
    match Get(s.entries, id)
    case Some(e) => if e.processing then s.(entries := Remove(s.entries, id)) else s
    case None => s
  }

  function FinalizeSpec(s: State, id: int, body: string, status: int, now: int): State {
    var room := MakeRoom(s.entries, now, s.maxSize);
    s.(mark := if AtOrBelow(id, s.mark) then s.mark else At(id),
       entries := Put(room, id, Entry(body, status, now + s.ttl, false)))
  }

  function LookupSpec(s: State, id: int, now: int): (State, Option<(string, int)>) {
    match Get(s.entries, id)
    case None => (s, None)
    case Some(e) =>
      if now > e.expiresAt then (s.(entries := Remove(s.entries, id)), None)
      else if e.processing then (s, None)
      else (s, Some((e.body, e.status)))
  }

  /** The calls of one process, each with the clock reading it took. */
  datatype Event =
    | Reserve(id: int, now: int)
    | Unreserve(id: int, now: int)
    | Finalize(id: int, body: string, status: int, now: int)
    | Lookup(id: int, now: int)
    | Sweep(now: int)

  function Step(s: State, e: Event): State {
    match e
    case Reserve(id, now) => ReserveSpec(s, id, now).0
    case Unreserve(id, _) => UnreserveSpec(s, id)
    case Finalize(id, body, status, now) => FinalizeSpec(s, id, body, status, now)
    case Lookup(id, now) => LookupSpec(s, id, now).0
    case Sweep(now) => s.(entries := Keep(s.entries, Unexpired(now)))
  }

  function Initial(ttl: int, maxSize: int): State {
    State([], NegInfinity, ttl, maxSize)
  }

  /** State before the i-th event of a run. */
  function Before(s: State, es: seq<Event>, i: nat): State
    requires i <= |es|
  {
    Run(Step, s, es[..i])
  }

  ghost predicate NonDecreasingClock(es: seq<Event>) {
    forall i, j :: 0 <= i < j < |es| ==> es[i].now <= es[j].now
  }

  /** A call about another id made a live entry of `id` disappear. */
  ghost predicate CapacityEvicts(s: State, e: Event, id: int) {
    (e.Reserve? || e.Finalize?) && e.id != id && s.Live(id, e.now) && Get(Step(s, e).entries, id).None?
  }

  // ----- whole runs -----

  lemma StepMark(s: State, e: Event)
    ensures Step(s, e).mark == if e.Finalize? && !AtOrBelow(e.id, s.mark) then At(e.id) else s.mark
    ensures Step(s, e).ttl == s.ttl && Step(s, e).maxSize == s.maxSize
  {
  }

  lemma {:induction false} MarkOnlyRises(s: State, es: seq<Event>, i: nat, j: nat, id: int)
    requires i <= j <= |es| && AtOrBelow(id, Before(s, es, i).mark)
    ensures AtOrBelow(id, Before(s, es, j).mark)
    decreases j
  {
    hide Step;
    if i < j {
      MarkOnlyRises(s, es, i, j - 1, id);
      RunStep(Step, s, es, j - 1);
      StepMark(Before(s, es, j - 1), es[j - 1]);
    }
  }

  /** Once `set(u)` has happened, no update at or below u is ever reserved again:
      not after expiry, not after eviction, whatever the clock does. */
  lemma NeverReservedAgain(s: State, es: seq<Event>, i: nat, j: nat)
    requires i < j < |es| && es[i].Finalize? && es[j].Reserve? && es[j].id <= es[i].id
    ensures ReserveSpec(Before(s, es, j), es[j].id, es[j].now).1 != Reserved
  {
    RunStep(Step, s, es, i);
    StepMark(Before(s, es, i), es[i]);
    MarkOnlyRises(s, es, i + 1, j, es[j].id);
  }

  lemma {:induction false} ConfigurationFixed(s: State, es: seq<Event>, j: nat)
    requires j <= |es|
    ensures Before(s, es, j).ttl == s.ttl && Before(s, es, j).maxSize == s.maxSize
  {
    hide Step;
    if j > 0 {
      ConfigurationFixed(s, es, j - 1);
      RunStep(Step, s, es, j - 1);
      StepMark(Before(s, es, j - 1), es[j - 1]);
    }
  }

  /** No clock reading of the calls after `i` up to `j` is past the TTL of what the call at
      `i` stored; with a non-decreasing clock, that is one comparison. */
  ghost predicate WithinTtl(s: State, es: seq<Event>, i: nat, j: nat)
    requires i <= j < |es|
  {
    forall m :: i < m <= j ==> es[m].now <= es[i].now + s.ttl
  }

  lemma WithinTtlAtOnce(s: State, es: seq<Event>, i: nat, j: nat)
    requires i < j < |es| && NonDecreasingClock(es)
    ensures WithinTtl(s, es, i, j) <==> es[j].now <= es[i].now + s.ttl
  {
  }

  /** A reservation stays exclusive: until it is unreserved, capacity-evicted, or a clock
      reading is past its TTL or that of a response stored for it, every retry is told
      "duplicate", also when a higher update has moved the mark past it. */
  lemma {:induction false} LiveReservationIsDuplicate(s: State, es: seq<Event>, i: nat, j: nat)
    requires i < j < |es| && WithinTtl(s, es, i, j)
    requires es[i].Reserve? && ReserveSpec(Before(s, es, i), es[i].id, es[i].now).1 == Reserved
    requires es[j].Reserve? && es[j].id == es[i].id
    requires forall k :: i < k < j && es[k].Finalize? && es[k].id == es[i].id ==> WithinTtl(s, es, k, j)
    requires forall k :: i < k < j ==> !(es[k].Unreserve? && es[k].id == es[i].id)
    requires forall k :: i < k < j ==> !CapacityEvicts(Before(s, es, k), es[k], es[i].id)
    ensures ReserveSpec(Before(s, es, j), es[j].id, es[j].now).1 == Duplicate
  {
    RunStep(Step, s, es, i);
    ConfigurationFixed(s, es, i);
    var id := es[i].id;
    assert HeldFor(Before(s, es, i + 1), es, i + 1, j, id);
    hide Step, ReserveSpec;
    StaysHeldFor(s, es, i + 1, j, id);
    HeldIsDuplicate(Before(s, es, j), id, es[j].now);
  }

  /** No reading of the calls from `i` to `j` is past the expiry of the entry now held. */
  ghost predicate HeldFor(s: State, es: seq<Event>, i: nat, j: nat, id: int)
    requires i <= j < |es|
  {
    Get(s.entries, id).Some? && forall m :: i <= m <= j ==> es[m].now <= Get(s.entries, id).value.expiresAt
  }

  lemma StepKeepsEntry(s: State, e: Event, id: int)
    requires s.Live(id, e.now) && !(e.Unreserve? && e.id == id) && !CapacityEvicts(s, e, id)
    ensures Get(Step(s, e).entries, id)
            == if e.Finalize? && e.id == id then Some(Entry(e.body, e.status, e.now + s.ttl, false))
               else Get(s.entries, id)
  {
  }

  lemma {:induction false} StaysHeldFor(s: State, es: seq<Event>, i: nat, j: nat, id: int)
    requires i <= j < |es| && HeldFor(Before(s, es, i), es, i, j, id)
    requires forall k :: i <= k < j && es[k].Finalize? && es[k].id == id ==> WithinTtl(s, es, k, j)
    requires forall k :: i <= k < j ==> !(es[k].Unreserve? && es[k].id == id)
    requires forall k :: i <= k < j ==> !CapacityEvicts(Before(s, es, k), es[k], id)
    ensures HeldFor(Before(s, es, j), es, j, j, id)
    decreases j - i
  {
    hide Step, CapacityEvicts;
    if i < j {
      RunStep(Step, s, es, i);
      ConfigurationFixed(s, es, i);
      StepKeepsEntry(Before(s, es, i), es[i], id);
      StaysHeldFor(s, es, i + 1, j, id);
    }
  }

  lemma HeldIsDuplicate(s: State, id: int, now: int)
    requires s.Live(id, now)
    ensures ReserveSpec(s, id, now).1 == Duplicate
  {
  }

  /** Two "reserved" answers for one id need a cause in between: its unreserve, a capacity
      eviction of its entry, or a clock reading past its TTL. */
  lemma {:induction false} SecondReservationHasCause(s: State, es: seq<Event>, i: nat, j: nat)
    requires i < j < |es|
    requires es[i].Reserve? && ReserveSpec(Before(s, es, i), es[i].id, es[i].now).1 == Reserved
    requires es[j].Reserve? && ReserveSpec(Before(s, es, j), es[j].id, es[j].now).1 == Reserved
    requires es[j].id == es[i].id
    ensures || !WithinTtl(s, es, i, j)
            || exists k :: i < k < j && ((es[k].Unreserve? && es[k].id == es[i].id)
                                         || CapacityEvicts(Before(s, es, k), es[k], es[i].id))
  {
    if WithinTtl(s, es, i, j)
       && forall k :: i < k < j ==> !((es[k].Unreserve? && es[k].id == es[i].id)
                                      || CapacityEvicts(Before(s, es, k), es[k], es[i].id)) {
      hide ReserveSpec, CapacityEvicts;
      forall k | i < k < j && es[k].Finalize? ensures es[k].id != es[i].id {
        if es[k].id == es[i].id {
          NeverReservedAgain(s, es, k, j);
        }
      }
      LiveReservationIsDuplicate(s, es, i, j);
    }
  }

  lemma {:induction false} StaysStored(s: State, es: seq<Event>, i: nat, j: nat, id: int, stored: Entry)
    requires i <= j <= |es| && Get(Before(s, es, i).entries, id) == Some(stored) && !stored.processing
    requires forall k :: i <= k < j ==> es[k].now <= stored.expiresAt
    requires forall k :: i <= k < j ==> !(es[k].Finalize? && es[k].id == id)
    requires forall k :: i <= k < j ==> !CapacityEvicts(Before(s, es, k), es[k], id)
    ensures Get(Before(s, es, j).entries, id) == Some(stored)
    decreases j
  {
    hide Step;
    if i < j {
      StaysStored(s, es, i, j - 1, id, stored);
      RunStep(Step, s, es, j - 1);
      StepKeepsStored(Before(s, es, j - 1), es[j - 1], id);
    }
  }

  lemma StepKeepsStored(s: State, e: Event, id: int)
    requires s.Live(id, e.now) && !Get(s.entries, id).value.processing
    requires !(e.Finalize? && e.id == id) && !CapacityEvicts(s, e, id)
    ensures Get(Step(s, e).entries, id) == Get(s.entries, id)
  {
  }

  /** A stored response answers every lookup through its TTL unless a later `set`
      overwrites it or it is capacity-evicted; `unreserve` cannot remove it. */
  lemma StoredResponseIsServed(s: State, es: seq<Event>, i: nat, j: nat)
    requires i < j < |es| && WithinTtl(s, es, i, j)
    requires es[i].Finalize? && es[j].Lookup? && es[j].id == es[i].id
    requires forall k :: i < k < j ==> !(es[k].Finalize? && es[k].id == es[i].id)
    requires forall k :: i < k < j ==> !CapacityEvicts(Before(s, es, k), es[k], es[i].id)
    ensures LookupSpec(Before(s, es, j), es[j].id, es[j].now).1 == Some((es[i].body, es[i].status))
  {
    hide Step, LookupSpec;
    var stored := Entry(es[i].body, es[i].status, es[i].now + s.ttl, false);
    RunStep(Step, s, es, i);
    ConfigurationFixed(s, es, i);
    FinalizeStores(Before(s, es, i), es[i]);
    StaysStored(s, es, i + 1, j, es[i].id, stored);
    LookupServes(Before(s, es, j), es[j].id, es[j].now, stored);
  }

  lemma FinalizeStores(s: State, e: Event)
    requires e.Finalize?
    ensures Get(Step(s, e).entries, e.id) == Some(Entry(e.body, e.status, e.now + s.ttl, false))
  {
  }

  lemma LookupServes(s: State, id: int, now: int, stored: Entry)
    requires Get(s.entries, id) == Some(stored) && !stored.processing && now <= stored.expiresAt
    ensures LookupSpec(s, id, now).1 == Some((stored.body, stored.status))
  {
  }

  /** The map never outgrows `maxSize`; a `maxSize` below 1 still admits one entry. */
  lemma {:induction false} SizeIsBounded(ttl: int, maxSize: int, es: seq<Event>)
    ensures |Run(Step, Initial(ttl, maxSize), es).entries| <= if maxSize >= 1 then maxSize else 1
  {
    hide Step;
    if es != [] {
      SizeIsBounded(ttl, maxSize, es[..|es| - 1]);
      ConfigurationFixed(Initial(ttl, maxSize), es, |es| - 1);
      StepKeepsSize(Before(Initial(ttl, maxSize), es, |es| - 1), es[|es| - 1]);
    }
  }

  lemma StepKeepsSize(s: State, e: Event)
    requires |s.entries| <= if s.maxSize >= 1 then s.maxSize else 1
    ensures |Step(s, e).entries| <= if s.maxSize >= 1 then s.maxSize else 1
  {
  }

  /** A capacity eviction happens only when the unexpired entries alone fill the map, and
      takes the first inserted of those. */
  lemma {:induction false} EvictionTakesOldest(s: State, e: Event, id: int) returns (i: nat)
    requires CapacityEvicts(s, e, id)
    ensures var cleaned := if e.Reserve? then Remove(s.entries, e.id) else s.entries;
            && |Keep(cleaned, Unexpired(e.now))| >= s.maxSize
            && i < |cleaned| && cleaned[i].0 == id && e.now <= cleaned[i].1.expiresAt
            && forall j :: 0 <= j < i ==> cleaned[j].1.expiresAt < e.now
  {
    var cleaned := if e.Reserve? then Remove(s.entries, e.id) else s.entries;
    i := KeepHead(cleaned, Unexpired(e.now));
  }

  /** An unreserved update can be reserved again exactly when it is still above the mark. */
  lemma ReservableAfterUnreserve(s: State, id: int, now: int)
    requires Get(s.entries, id).Some? && Get(s.entries, id).value.processing
    ensures ReserveSpec(UnreserveSpec(s, id), id, now).1 == Reserved <==> !AtOrBelow(id, s.mark)
  {
  }

  /** Whether the mark has reached `id` is decided by what has been finalised since. */
  lemma {:induction false} MarkReaches(s: State, es: seq<Event>, i: nat, j: nat, id: int)
    requires i <= j <= |es|
    ensures AtOrBelow(id, Before(s, es, j).mark) <==>
            || AtOrBelow(id, Before(s, es, i).mark)
            || exists k :: i <= k < j && es[k].Finalize? && id <= es[k].id
    decreases j
  {
    hide Step;
    if i < j {
      MarkReaches(s, es, i, j - 1, id);
      RunStep(Step, s, es, j - 1);
      StepMark(Before(s, es, j - 1), es[j - 1]);
    }
  }

  /** Over a run: a reservation that is given up while it is held can be made again at once
      exactly when neither its own nor a higher update was finalised meanwhile. */
  lemma {:induction false} RetryAfterUnreserve(s: State, es: seq<Event>, i: nat, j: nat)
    requires i < j && j + 1 < |es|
    requires es[i].Reserve? && ReserveSpec(Before(s, es, i), es[i].id, es[i].now).1 == Reserved
    requires es[j].Unreserve? && es[j].id == es[i].id && es[j + 1].Reserve? && es[j + 1].id == es[i].id
    requires Get(Before(s, es, j).entries, es[i].id).Some? && Get(Before(s, es, j).entries, es[i].id).value.processing
    ensures ReserveSpec(Before(s, es, j + 1), es[j + 1].id, es[j + 1].now).1 == Reserved <==>
            forall k :: i < k < j ==> !(es[k].Finalize? && es[i].id <= es[k].id)
  {
    RunStep(Step, s, es, j);
    ReservableAfterUnreserve(Before(s, es, j), es[i].id, es[j + 1].now);
    MarkReaches(s, es, i, j, es[i].id);
    hide Before;
  }

  /** It need not be: a higher update finalised meanwhile shuts the lower one out. */
  lemma UnreservedLowerIdIsLost()
    ensures var es := [Reserve(1, 0), Reserve(2, 0), Finalize(2, "ok", 200, 1), Unreserve(1, 2)];
            var s := Run(Step, Initial(300000, 10000), es);
            ReserveSpec(s, 1, 3).1 == AlreadyProcessed
  {
    var s0 := Initial(300000, 10000);
    var es := [Reserve(1, 0), Reserve(2, 0), Finalize(2, "ok", 200, 1), Unreserve(1, 2)];
    assert es[..3] == [Reserve(1, 0), Reserve(2, 0), Finalize(2, "ok", 200, 1)];
    assert es[..4] == es;
    RunStep(Step, s0, es, 2);
    StepMark(Before(s0, es, 2), es[2]);
    MarkOnlyRises(s0, es, 3, 4, 1);
    RunStep(Step, s0, es, 3);
  }

  // ----- no refusal without a cause -----

  /** The i-th event of a run stored the entry of `id`. */
  ghost predicate Stores(s: State, es: seq<Event>, i: nat, id: int)
    requires i < |es|
  {
    && (es[i].Finalize? || (es[i].Reserve? && ReserveSpec(Before(s, es, i), id, es[i].now).1 == Reserved))
    && es[i].id == id
  }

  lemma StepEntry(s: State, e: Event, id: int)
    ensures Get(Step(s, e).entries, id).Some? && Get(Step(s, e).entries, id) != Get(s.entries, id) ==>
              && (e.Finalize? || (e.Reserve? && ReserveSpec(s, id, e.now).1 == Reserved)) && e.id == id
    ensures e.Finalize? && e.id == id ==>
              Get(Step(s, e).entries, id) == Some(Entry(e.body, e.status, e.now + s.ttl, false))
    ensures e.Reserve? && e.id == id && ReserveSpec(s, id, e.now).1 == Reserved ==>
              Get(Step(s, e).entries, id) == Some(Entry("", 0, e.now + s.ttl, true))
  {
  }

  /** Every entry was stored by the last event that stored one for its id. */
  lemma {:induction false} EntryHasCause(ttl: int, maxSize: int, es: seq<Event>, id: int) returns (i: nat)
    requires Get(Run(Step, Initial(ttl, maxSize), es).entries, id).Some?
    ensures i < |es| && Stores(Initial(ttl, maxSize), es, i, id)
    ensures Get(Run(Step, Initial(ttl, maxSize), es).entries, id).value
            == if es[i].Finalize? then Entry(es[i].body, es[i].status, es[i].now + ttl, false)
               else Entry("", 0, es[i].now + ttl, true)
  {
    hide Step;
    var s0 := Initial(ttl, maxSize);
    if es == [] {
      assert false;
    } else {
      var prefix := es[..|es| - 1];
      var s := Run(Step, s0, prefix);
      StepEntry(s, es[|es| - 1], id);
      ConfigurationFixed(s0, es, |es| - 1);
      if Get(Run(Step, s0, es).entries, id) == Get(s.entries, id) {
        i := EntryHasCause(ttl, maxSize, prefix, id);
        assert prefix[..i] == es[..i];
      } else {
        i := |es| - 1;
      }
    }
  }

  /** A "duplicate" answer goes back to a reservation or response of that id within its TTL. */
  lemma {:induction false} DuplicateHasCause(ttl: int, maxSize: int, es: seq<Event>, id: int, now: int) returns (i: nat)
    requires ReserveSpec(Run(Step, Initial(ttl, maxSize), es), id, now).1 == Duplicate
    ensures i < |es| && Stores(Initial(ttl, maxSize), es, i, id) && now <= es[i].now + ttl
  {
    i := EntryHasCause(ttl, maxSize, es, id);
  }

  /** A served response is the one that a `set` of that id stored within the TTL. */
  lemma {:induction false} ServedResponseWasStored(ttl: int, maxSize: int, es: seq<Event>, id: int, now: int)
    returns (i: nat)
    requires LookupSpec(Run(Step, Initial(ttl, maxSize), es), id, now).1.Some?
    ensures i < |es| && es[i].Finalize? && es[i].id == id && now <= es[i].now + ttl
    ensures LookupSpec(Run(Step, Initial(ttl, maxSize), es), id, now).1 == Some((es[i].body, es[i].status))
  {
    i := EntryHasCause(ttl, maxSize, es, id);
  }

  /** The mark is the id of some finalised update. */
  lemma {:induction false} MarkHasCause(ttl: int, maxSize: int, es: seq<Event>) returns (i: nat)
    requires Run(Step, Initial(ttl, maxSize), es).mark.At?
    ensures i < |es| && es[i].Finalize? && Run(Step, Initial(ttl, maxSize), es).mark == At(es[i].id)
  {
    hide Step;
    if es == [] {
      assert false;
    } else {
      var s := Run(Step, Initial(ttl, maxSize), es[..|es| - 1]);
      StepMark(s, es[|es| - 1]);
      if Run(Step, Initial(ttl, maxSize), es).mark == s.mark {
        i := MarkHasCause(ttl, maxSize, es[..|es| - 1]);
      } else {
        i := |es| - 1;
      }
    }
  }

  /** An "already processed" answer means that this or a higher update was finalised. */
  lemma {:induction false} AlreadyProcessedHasCause(ttl: int, maxSize: int, es: seq<Event>, id: int, now: int)
    returns (i: nat)
    requires ReserveSpec(Run(Step, Initial(ttl, maxSize), es), id, now).1 == AlreadyProcessed
    ensures i < |es| && es[i].Finalize? && id <= es[i].id
  {
    i := MarkHasCause(ttl, maxSize, es);
  }

  // ----- the class -----

  class DedupCache {
    var cache: Map<int, Entry>
    var highWaterMark: Mark
    const ttlMs: int
    const maxSize: int

    function View(): State
      reads this
    {
      State(cache, highWaterMark, ttlMs, maxSize)
    }

    constructor (ttlMs: int, maxSize: int)
      ensures View() == Initial(ttlMs, maxSize)
    {
      this.cache, this.highWaterMark := [], NegInfinity;
      this.ttlMs, this.maxSize := ttlMs, maxSize;
    }

    method EvictExpired(now: int)
      modifies this
      ensures View() == Step(old(View()), Sweep(now))
    {
      cache := Purge(cache, Unexpired(now));
    }

    method EvictForOne(now: int)
      modifies this
      ensures View() == old(View()).(entries := MakeRoom(old(cache), now, maxSize))
    {
      if |cache| >= maxSize {
        EvictExpired(now);
      }
      if |cache| >= maxSize && cache != [] {
        cache := Tail(cache);
      }
    }

    method Get(updateId: int, now: int) returns (r: Option<(string, int)>)
      modifies this
      ensures (View(), r) == LookupSpec(old(View()), updateId, now)
    {
      var entry := InsertionMap.Get(cache, updateId);
      if entry.None? {
        return None;
      }
      if now > entry.value.expiresAt {
        cache := Remove(cache, updateId);
        return None;
      }
      if entry.value.processing {
        return None;
      }
      return Some((entry.value.body, entry.value.status));
    }

    method Reserve(updateId: int, now: int) returns (r: Answer)
      modifies this
      ensures (View(), r) == ReserveSpec(old(View()), updateId, now)
    {
      hide MakeRoom, Keep, Put;
      var existing := InsertionMap.Get(cache, updateId);
      if existing.Some? && now <= existing.value.expiresAt {
        return Duplicate;
      }
      if existing.Some? {
        cache := Remove(cache, updateId);
      } else {
        RemoveAbsent(cache, updateId);
      }
      if AtOrBelow(updateId, highWaterMark) {
        return AlreadyProcessed;
      }
      EvictForOne(now);
      cache := Put(cache, updateId, Entry("", 0, now + ttlMs, true));
      return Reserved;
    }

    method Unreserve(updateId: int)
      modifies this
      ensures View() == UnreserveSpec(old(View()), updateId)
    {
      var entry := InsertionMap.Get(cache, updateId);
      if entry.Some? && entry.value.processing {
        cache := Remove(cache, updateId);
      }
    }

    method Set(updateId: int, body: string, status: int, now: int)
      modifies this
      ensures View() == FinalizeSpec(old(View()), updateId, body, status, now)
    {
      if !AtOrBelow(updateId, highWaterMark) {
        highWaterMark := At(updateId);
      }
      EvictForOne(now);
      cache := Put(cache, updateId, Entry(body, status, now + ttlMs, false));
    }
  }
}
