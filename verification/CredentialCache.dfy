/** The credential cache: a TTL map with in-flight coalescing, whose generation
    counter keeps reads that began before an invalidation out of the cache. */
module CredentialCache {
  import opened InsertionMap
  import opened Runs

  /** What `readCredential` resolved to; a missing credential is `None`. */
  type Value = Option<string>

  datatype ReadResult = Value(value: Value) | Thrown

  /** One call of `readCredential`. `beganAt` is the logical time of the event that
      made it; the promise it returned is known by its place in `State.begun`. */
  datatype Read = Read(key: string, generation: nat, beganAt: nat, result: Option<ReadResult>)

  /** `source` is bookkeeping: the read the value came from. */
  datatype Entry = Entry(value: Value, expiresAt: int, source: nat)

  datatype State = State(
    cache: map<string, Entry>,
    inflight: map<string, nat>,
    generation: nat,
    begun: seq<Read>,
    clock: nat,
    invalidatedAt: nat,
    ttl: int)

  /** What `get` hands its caller: a cached value, or the promise of a read. */
  datatype Answer = Cached(value: Value, source: nat) | Awaits(source: nat)

  /** Logical time moves on with every event. */
  function Tick(s: State): State {
    s.(clock := s.clock + 1)
  }

  function Fetch(s: State, key: string): (State, Answer) {
    if key in s.inflight then (s, Awaits(s.inflight[key]))
    else
      var id := |s.begun|;
      (s.(begun := s.begun + [Read(key, s.generation, s.clock, None)], inflight := s.inflight[key := id]), Awaits(id))
  }

  function GetSpec(s: State, key: string, force: bool, now: int): (State, Answer) {
    if !force && key in s.cache && now < s.cache[key].expiresAt then
      (s, Cached(s.cache[key].value, s.cache[key].source))
    else Fetch(s, key)
  }

  function Invalidated(s: State): State {
    s.(generation := s.generation + 1, cache := map[], inflight := map[], invalidatedAt := s.clock)
  }

  /** The continuation of one `readCredential` call. */
  function Settled(s: State, id: nat, result: ReadResult, now: int): State {
    if id >= |s.begun| || s.begun[id].result.Some? then s
    else
      var read := s.begun[id];
      var s' := s.(begun := s.begun[id := read.(result := Some(result))]);
      if read.generation != s.generation then s'
      else if result.Thrown? then s'.(inflight := s.inflight - {read.key})
      else s'.(inflight := s.inflight - {read.key},
               cache := s.cache[read.key := Entry(result.value, now + s.ttl, id)])
  }

  datatype Event =
    | CallGet(key: string, force: bool, now: int)
    | Invalidate
    | ReadSettles(id: nat, result: ReadResult, now: int)

  function Step(s: State, e: Event): State {
    match e
    case CallGet(key, force, now) => GetSpec(Tick(s), key, force, now).0
    case Invalidate => Invalidated(Tick(s))
    case ReadSettles(id, result, now) => Settled(Tick(s), id, result, now)
  }

  function Initial(ttl: int): State {
    State(map[], map[], 0, [], 0, 0, ttl)
  }

  // ----- the invariant -----

  ghost predicate Unsettled(s: State, id: nat) {
    id < |s.begun| && s.begun[id].result.None? && s.begun[id].generation == s.generation
  }

  /** When the reads began, in terms of generations and of the latest invalidation. */
  ghost predicate ReadsOk(s: State) {
    && s.invalidatedAt <= s.clock
    && forall id :: 0 <= id < |s.begun| ==>
         && s.begun[id].beganAt <= s.clock
         && s.begun[id].generation <= s.generation
         && (s.begun[id].generation == s.generation ==> s.begun[id].beganAt >= s.invalidatedAt)
         && (s.begun[id].generation < s.generation ==> s.begun[id].beganAt <= s.invalidatedAt)
  }

  /** The in-flight map is exactly the unsettled reads of the current generation. */
  ghost predicate InflightOk(s: State) {
    && (forall key :: key in s.inflight ==> Unsettled(s, s.inflight[key]) && s.begun[s.inflight[key]].key == key)
    && (forall id: nat :: Unsettled(s, id) ==> s.begun[id].key in s.inflight && s.inflight[s.begun[id].key] == id)
  }

  /** Cached values come from settled reads of the current generation. */
  ghost predicate CacheOk(s: State) {
    forall key :: key in s.cache ==>
      var e := s.cache[key];
      && e.source < |s.begun| && s.begun[e.source].key == key
      && s.begun[e.source].generation == s.generation
      && s.begun[e.source].result == Some(ReadResult.Value(e.value))
  }

  ghost predicate Valid(s: State) {
    ReadsOk(s) && InflightOk(s) && CacheOk(s)
  }

  /** Reads are only ever added and settled; when and for what they began is fixed. */
  ghost predicate Extends(s: State, s': State) {
    && |s.begun| <= |s'.begun|
    && forall id :: 0 <= id < |s.begun| ==>
         && s'.begun[id].beganAt == s.begun[id].beganAt && s'.begun[id].key == s.begun[id].key
         && s'.begun[id].generation == s.begun[id].generation
  }

  lemma GetIsFresh(s: State, key: string, force: bool, now: int)
    requires Valid(s)
    ensures var (s', a) := GetSpec(s, key, force, now);
            && Valid(s') && Extends(s, s') && s'.clock == s.clock && s'.invalidatedAt == s.invalidatedAt
            && a.source < |s'.begun| && s'.begun[a.source].key == key
            && s'.begun[a.source].beganAt >= s.invalidatedAt
            && (a.Cached? ==> s'.begun[a.source].result == Some(ReadResult.Value(a.value)))
  {
  }

  lemma SettledKeepsInflight(s: State, id: nat, result: ReadResult, now: int)
    requires InflightOk(s)
    ensures InflightOk(Settled(s, id, result, now))
  {
    var s' := Settled(s, id, result, now);
    if id < |s.begun| && s.begun[id].result.None? {
      assert s.begun[id].generation == s.generation ==> Unsettled(s, id);
      forall other: nat ensures Unsettled(s', other) <==> Unsettled(s, other) && other != id {
      }
    }
  }

  lemma SettledKeepsValid(s: State, id: nat, result: ReadResult, now: int)
    requires Valid(s)
    ensures var s' := Settled(s, id, result, now);
            Valid(s') && Extends(s, s') && s'.clock == s.clock && s'.invalidatedAt == s.invalidatedAt
  {
    SettledKeepsInflight(s, id, result, now);
    hide InflightOk;
  }

  lemma InvalidatedKeepsValid(s: State)
    requires Valid(s)
    ensures Valid(Invalidated(s)) && Extends(s, Invalidated(s))
  {
  }

  lemma StepKeepsValid(s: State, e: Event)
    requires Valid(s)
    ensures Valid(Step(s, e)) && Extends(s, Step(s, e)) && Step(s, e).clock == s.clock + 1
    ensures Step(s, e).invalidatedAt == if e.Invalidate? then s.clock + 1 else s.invalidatedAt
  {
    assert Valid(Tick(s));
    match e {
      case CallGet(key, force, now) => GetIsFresh(Tick(s), key, force, now);
      case Invalidate => InvalidatedKeepsValid(Tick(s));
      case ReadSettles(id, result, now) => SettledKeepsValid(Tick(s), id, result, now);
    }
  }

  // ----- whole runs -----

  lemma {:induction false} Reachable(ttl: int, es: seq<Event>)
    ensures var s := Run(Step, Initial(ttl), es);
            && Valid(s) && s.clock == |es|
            && (forall i :: 0 <= i < |es| && es[i].Invalidate? ==> s.invalidatedAt >= i + 1)
            && (s.invalidatedAt > 0 ==> s.invalidatedAt <= |es| && es[s.invalidatedAt - 1].Invalidate?)
  {
    hide Step, Valid;
    if es == [] {
      assert Valid(Initial(ttl)) by { InitialIsValid(ttl); }
    } else {
      Reachable(ttl, es[..|es| - 1]);
      StepKeepsValid(Run(Step, Initial(ttl), es[..|es| - 1]), es[|es| - 1]);
    }
  }

  lemma InitialIsValid(ttl: int)
    ensures Valid(Initial(ttl))
  {
  }

  /** A `get` called after an `invalidate` is answered from a read that began
      after it, whether it hits the cache, joins a read in flight or starts one. */
  lemma {:induction false} GetAfterInvalidateIsFresh(ttl: int, es: seq<Event>, i: nat, key: string, force: bool,
                                                     now: int)
    requires i < |es| && es[i].Invalidate?
    ensures var (s, a) := GetSpec(Tick(Run(Step, Initial(ttl), es)), key, force, now);
            && a.source < |s.begun| && s.begun[a.source].key == key
            && s.begun[a.source].beganAt > i
            && (a.Cached? ==> s.begun[a.source].result == Some(ReadResult.Value(a.value)))
  {
    hide Step, GetSpec, Valid;
    Reachable(ttl, es);
    TickKeepsValid(Run(Step, Initial(ttl), es));
    GetIsFresh(Tick(Run(Step, Initial(ttl), es)), key, force, now);
  }

  lemma TickKeepsValid(s: State)
    requires Valid(s)
    ensures Valid(Tick(s))
  {
  }

  /** A read that began before the latest `invalidate` leaves cache and in-flight
      map untouched when it settles, and so does any read settling twice. */
  lemma StaleReadNeverWrites(ttl: int, es: seq<Event>, i: nat, id: nat, result: ReadResult, now: int)
    requires i < |es| && es[i].Invalidate?
    requires var s := Run(Step, Initial(ttl), es); id < |s.begun| && s.begun[id].beganAt <= i
    ensures var s := Run(Step, Initial(ttl), es);
            Settled(s, id, result, now).cache == s.cache && Settled(s, id, result, now).inflight == s.inflight
  {
    hide Step;
    Reachable(ttl, es);
  }

  /** At most one read of the current generation is unsettled per key. */
  lemma OneReadPerKey(ttl: int, es: seq<Event>, a: nat, b: nat)
    requires var s := Run(Step, Initial(ttl), es);
             Unsettled(s, a) && Unsettled(s, b) && s.begun[a].key == s.begun[b].key
    ensures a == b
  {
    hide Step;
    Reachable(ttl, es);
  }

  // ----- what a `get` reads -----

  /** An unexpired entry that a `get` may answer from. */
  predicate HasEntry(s: State, key: string, now: int) {
    key in s.cache && now < s.cache[key].expiresAt
  }

  /** A read of the current generation is still to settle. */
  ghost predicate IsBeingRead(s: State, key: string) {
    exists id: nat :: Unsettled(s, id) && s.begun[id].key == key
  }

  /** In every reachable state, a `get` answers from the cache exactly when it is not forced
      and there is an unexpired entry; otherwise its caller awaits a read of its key that
      has not settled, and one begins exactly when none of the current generation is
      under way. */
  lemma {:induction false} GetReadsWhenItMust(ttl: int, es: seq<Event>, key: string, force: bool, now: int)
    ensures var s := Tick(Run(Step, Initial(ttl), es));
            var (s', a) := GetSpec(s, key, force, now);
            && (a.Cached? <==> !force && HasEntry(s, key, now))
            && (a.Awaits? ==> Unsettled(s', a.source) && s'.begun[a.source].key == key)
            && (a.Awaits? && IsBeingRead(s, key) ==> s' == s && Unsettled(s, a.source))
            && (a.Awaits? && !IsBeingRead(s, key) ==>
                  a.source == |s.begun| && |s'.begun| == |s.begun| + 1 && s'.begun[a.source].beganAt == s.clock)
            && (a.Cached? ==> s' == s)
  {
    hide Step;
    Reachable(ttl, es);
    var s := Tick(Run(Step, Initial(ttl), es));
    TickKeepsValid(Run(Step, Initial(ttl), es));
    BeingReadIsInflight(s, key);
  }

  lemma BeingReadIsInflight(s: State, key: string)
    requires Valid(s)
    ensures IsBeingRead(s, key) <==> key in s.inflight
  {
    if key in s.inflight {
      assert Unsettled(s, s.inflight[key]);
    }
  }

  // ----- the time to live -----

  function Before(ttl: int, es: seq<Event>, i: nat): State
    requires i <= |es|
  {
    Run(Step, Initial(ttl), es[..i])
  }

  /** Only a read that settles puts an entry in, and only its own. */
  lemma StepEntry(s: State, e: Event, key: string)
    ensures Step(s, e).ttl == s.ttl
    ensures key in Step(s, e).cache && !(key in s.cache && Step(s, e).cache[key] == s.cache[key]) ==>
              && e.ReadSettles? && e.result.Value? && e.id < |s.begun| && s.begun[e.id].key == key
              && Step(s, e).cache[key] == Entry(e.result.value, e.now + s.ttl, e.id)
    ensures key in s.cache && !e.Invalidate? && !(e.ReadSettles? && e.id < |s.begun| && s.begun[e.id].key == key)
            ==> key in Step(s, e).cache && Step(s, e).cache[key] == s.cache[key]
  {
  }

  lemma {:induction false} TtlFixed(ttl: int, es: seq<Event>)
    ensures Run(Step, Initial(ttl), es).ttl == ttl
  {
    hide Step;
    if es != [] {
      TtlFixed(ttl, es[..|es| - 1]);
      StepEntry(Run(Step, Initial(ttl), es[..|es| - 1]), es[|es| - 1], "");
    }
  }

  lemma {:induction false} EntryComesFromRead(ttl: int, es: seq<Event>, key: string) returns (i: nat)
    requires key in Run(Step, Initial(ttl), es).cache
    ensures var e := Run(Step, Initial(ttl), es).cache[key];
            i < |es| && es[i].ReadSettles? && es[i].id == e.source && es[i].result == ReadResult.Value(e.value)
            && e.expiresAt == es[i].now + ttl
  {
    if es == [] {
      assert false;
    } else {
      var prefix := es[..|es| - 1];
      var s := Run(Step, Initial(ttl), prefix);
      StepEntry(s, es[|es| - 1], key);
      TtlFixed(ttl, prefix);
      hide Step;
      if key in s.cache && Run(Step, Initial(ttl), es).cache[key] == s.cache[key] {
        i := EntryComesFromRead(ttl, prefix, key);
      } else {
        i := |es| - 1;
      }
    }
  }

  /** A cache hit is never forced, and its value was read less than a TTL ago. */
  lemma {:induction false} HitIsYoung(ttl: int, es: seq<Event>, key: string, force: bool, now: int) returns (i: nat)
    requires GetSpec(Tick(Run(Step, Initial(ttl), es)), key, force, now).1.Cached?
    ensures var a := GetSpec(Tick(Run(Step, Initial(ttl), es)), key, force, now).1;
            && !force && i < |es| && es[i].ReadSettles?
            && es[i].id == a.source && es[i].result == ReadResult.Value(a.value) && now < es[i].now + ttl
  {
    hide Step;
    i := EntryComesFromRead(ttl, es, key);
  }

  /** Conversely, what a current read found is served for a TTL, unless the cache is
      invalidated or another read of the key settles meanwhile. */
  lemma {:induction false} YoungValueIsServed(ttl: int, es: seq<Event>, i: nat, key: string, now: int)
    requires i < |es| && es[i].ReadSettles? && es[i].result.Value? && now < es[i].now + ttl
    requires Unsettled(Before(ttl, es, i), es[i].id) && Before(ttl, es, i).begun[es[i].id].key == key
    requires forall k :: i < k < |es| ==>
               && !es[k].Invalidate?
               && !(es[k].ReadSettles? && es[k].id < |Before(ttl, es, k).begun|
                    && Before(ttl, es, k).begun[es[k].id].key == key)
    ensures GetSpec(Tick(Run(Step, Initial(ttl), es)), key, false, now).1 == Cached(es[i].result.value, es[i].id)
  {
    RunStep(Step, Initial(ttl), es, i);
    TtlFixed(ttl, es[..i]);
    var entry := Entry(es[i].result.value, es[i].now + ttl, es[i].id);
    SettledEntry(Before(ttl, es, i), es[i]);
    hide Step;
    EntryStays(ttl, es, i + 1, |es|, key, entry);
    assert es[..|es|] == es;
  }

  lemma SettledEntry(s: State, e: Event)
    requires e.ReadSettles? && e.result.Value? && Unsettled(s, e.id)
    ensures var key := s.begun[e.id].key;
            key in Step(s, e).cache && Step(s, e).cache[key] == Entry(e.result.value, e.now + s.ttl, e.id)
  {
  }

  lemma {:induction false} EntryStays(ttl: int, es: seq<Event>, i: nat, j: nat, key: string, entry: Entry)
    requires i <= j <= |es| && key in Before(ttl, es, i).cache && Before(ttl, es, i).cache[key] == entry
    requires forall k :: i <= k < j ==>
               && !es[k].Invalidate?
               && !(es[k].ReadSettles? && es[k].id < |Before(ttl, es, k).begun|
                    && Before(ttl, es, k).begun[es[k].id].key == key)
    ensures key in Before(ttl, es, j).cache && Before(ttl, es, j).cache[key] == entry
    decreases j
  {
    hide Step;
    if i < j {
      EntryStays(ttl, es, i, j - 1, key, entry);
      RunStep(Step, Initial(ttl), es, j - 1);
      StepEntry(Before(ttl, es, j - 1), es[j - 1], key);
    }
  }

  // ----- the class -----

  class Cache {
    var cache: map<string, Entry>
    var inflight: map<string, nat>
    var generation: nat
    /** Every `readCredential` call so far, and when the last `invalidate` was. */
    var begun: seq<Read>
    var clock: nat
    var invalidatedAt: nat
    const ttlMs: int

    function View(): State
      reads this
    {
      State(cache, inflight, generation, begun, clock, invalidatedAt, ttlMs)
    }

    constructor (ttlMs: int)
      ensures View() == Initial(ttlMs)
    {
      cache, inflight, generation := map[], map[], 0;
      begun, clock, invalidatedAt := [], 0, 0;
      this.ttlMs := ttlMs;
    }

    method Advance()
      modifies this
      ensures View() == Tick(old(View()))
    {
      clock := clock + 1;
    }

    method Get(key: string, force: bool, now: int) returns (a: Answer)
      modifies this
      ensures (View(), a) == GetSpec(old(View()), key, force, now)
    {
      if !force && key in cache {
        var cached := cache[key];
        if now < cached.expiresAt {
          return Cached(cached.value, cached.source);
        }
      }
      a := FetchRead(key);
    }

    method FetchRead(key: string) returns (a: Answer)
      modifies this
      ensures (View(), a) == Fetch(old(View()), key)
    {
      if key in inflight {
        return Awaits(inflight[key]);
      }
      var id := |begun|;
      begun := begun + [Read(key, generation, clock, None)];
      inflight := inflight[key := id];
      return Awaits(id);
    }

    method Settle(id: nat, result: ReadResult, now: int)
      modifies this
      ensures View() == Settled(old(View()), id, result, now)
    {
      if id >= |begun| || begun[id].result.Some? {
        return;
      }
      var read := begun[id];
      begun := begun[id := read.(result := Some(result))];
      if generation == read.generation {
        if result.Value? {
          cache := cache[read.key := Entry(result.value, now + ttlMs, id)];
        }
        inflight := inflight - {read.key};
      }
    }

    method InvalidateAll()
      modifies this
      ensures View() == Invalidated(old(View()))
    {
      generation := generation + 1;
      cache, inflight := map[], map[];
      invalidatedAt := clock;
    }
  }
}
