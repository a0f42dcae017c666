/** The string-keyed dedup cache and the webhook pipeline that releases its
    reservations when a message could not be delivered. */
module MessageDedup {
  import opened InsertionMap
  import opened Runs

  /** `marks` holds finished keys with their expiry, `processing` the keys claimed by
      `reserve` and not yet settled. */
  datatype State = State(marks: Map<string, int>, processing: set<string>, ttl: int, maxSize: int) {
    predicate Live(key: string, now: int) {
      Get(marks, key).Some? && now <= Get(marks, key).value
    }
  }

  const Unexpired := (now: int) => (key: string, expiresAt: int) => now <= expiresAt

  function HasSpec(s: State, key: string, now: int): (State, bool) {
    if key in s.processing then (s, true)
    else if s.Live(key, now) then (s, true)
    else (s.(marks := Remove(s.marks, key)), false)
  }

  function ReserveSpec(s: State, key: string, now: int): (State, bool) {
    var (s', seen) := HasSpec(s, key, now);
    if seen then (s', false) else (s'.(processing := s'.processing + {key}), true)
  }

  function UnreserveSpec(s: State, key: string): State {
    s.(processing := s.processing - {key})
  }

  /** Purge what has expired if the map is full, then drop the oldest mark if it still is. */
  function MakeRoom(m: Map<string, int>, now: int, maxSize: int): (r: Map<string, int>)
    ensures 1 <= maxSize && |m| <= maxSize ==> |r| < maxSize
    ensures forall x :: Get(r, x).Some? ==> Get(r, x) == Get(m, x)
  {
    var purged := if |m| >= maxSize then Keep(m, Unexpired(now)) else m;
    if |purged| >= maxSize && purged != [] then Tail(purged) else purged
  }

  function MarkSpec(s: State, key: string, now: int): State {
    s.(processing := s.processing - {key},
       marks := Put(MakeRoom(s.marks, now, s.maxSize), key, now + s.ttl))
  }

  function SeenSpec(s: State, key: string, now: int): (State, bool) {
    var (s', seen) := HasSpec(s, key, now);
    if seen then (s', true) else (MarkSpec(s', key, now), false)
  }

  // ----- the clients -----

  datatype InboundResult = InboundResult(rejected: bool, verificationIntercepted: bool, forwarded: bool)

  datatype Error = CircuitBreakerOpen(retryAfterSecs: int) | OtherError

  datatype Outcome = Ok(rejected: bool) | Failed(status: int)

  function InboundOutcome(r: InboundResult): Outcome {
    if r.rejected then Ok(true)
    else if r.verificationIntercepted || r.forwarded then Ok(false)
    else Failed(500)
  }

  function SettleInboundSpec(s: State, key: string, r: InboundResult): State {
    if InboundOutcome(r).Failed? then UnreserveSpec(s, key) else s
  }

  function CatchErrorSpec(s: State, key: string, err: Error): State {
    if err.CircuitBreakerOpen? then UnreserveSpec(s, key) else s
  }

  // ----- runs -----

  datatype Event =
    | Reserve(key: string, now: int)
    | Unreserve(key: string, now: int)
    | Mark(key: string, now: int)
    | Seen(key: string, now: int)
    | Has(key: string, now: int)
    | SettleInbound(key: string, result: InboundResult, now: int)
    | CatchError(key: string, err: Error, now: int)
    | Sweep(now: int)

  function Step(s: State, e: Event): State {
    match e
    case Reserve(key, now) => ReserveSpec(s, key, now).0
    case Unreserve(key, _) => UnreserveSpec(s, key)
    case Mark(key, now) => MarkSpec(s, key, now)
    case Seen(key, now) => SeenSpec(s, key, now).0
    case Has(key, now) => HasSpec(s, key, now).0
    case SettleInbound(key, result, _) => SettleInboundSpec(s, key, result)
    case CatchError(key, err, _) => CatchErrorSpec(s, key, err)
    case Sweep(now) => s.(marks := Keep(s.marks, Unexpired(now)))
  }

  function Initial(ttl: int, maxSize: int): State {
    State([], {}, ttl, maxSize)
  }

  function Before(s: State, es: seq<Event>, i: nat): State
    requires i <= |es|
  {
    Run(Step, s, es[..i])
  }

  /** The calls that give a claimed key up. */
  predicate Releases(e: Event, key: string) {
    match e
    case Unreserve(k, _) => k == key
    case Mark(k, _) => k == key
    case SettleInbound(k, result, _) => k == key && InboundOutcome(result).Failed?
    case CatchError(k, err, _) => k == key && err.CircuitBreakerOpen?
    case _ => false
  }

  /** A call about another key made a live mark of `key` disappear. */
  ghost predicate CapacityEvicts(s: State, e: Event, key: string) {
    (e.Mark? || e.Seen?) && e.key != key && s.Live(key, e.now) && Get(Step(s, e).marks, key).None?
  }

  ghost predicate NonDecreasingClock(es: seq<Event>) {
    forall i, j :: 0 <= i < j < |es| ==> es[i].now <= es[j].now
  }

  lemma StepProcessing(s: State, e: Event, key: string)
    ensures key in Step(s, e).processing <==>
            (key in s.processing && !Releases(e, key))
            || (e.Reserve? && e.key == key && ReserveSpec(s, key, e.now).1)
    ensures Step(s, e).ttl == s.ttl && Step(s, e).maxSize == s.maxSize
  {
  }

  lemma {:induction false} StaysClaimed(s: State, es: seq<Event>, i: nat, j: nat, key: string)
    requires i <= j <= |es| && key in Before(s, es, i).processing
    requires forall k :: i <= k < j ==> !Releases(es[k], key)
    ensures key in Before(s, es, j).processing
    decreases j
  {
    hide Step;
    if i < j {
      StaysClaimed(s, es, i, j - 1, key);
      RunStep(Step, s, es, j - 1);
      StepProcessing(Before(s, es, j - 1), es[j - 1], key);
    }
  }

  /** Between two successful reservations of one key somebody gave it up:
      neither time nor capacity ever frees a claimed key. */
  lemma ReservationIsExclusive(s: State, es: seq<Event>, i: nat, j: nat)
    requires i < j < |es| && es[i].Reserve? && es[j].Reserve? && es[i].key == es[j].key
    requires ReserveSpec(Before(s, es, i), es[i].key, es[i].now).1
    requires ReserveSpec(Before(s, es, j), es[j].key, es[j].now).1
    ensures exists k :: i < k < j && Releases(es[k], es[i].key)
  {
    if forall k :: i < k < j ==> !Releases(es[k], es[i].key) {
      RunStep(Step, s, es, i);
      StaysClaimed(s, es, i + 1, j, es[i].key);
    }
  }

  /** In every reachable state no key is both claimed and marked. */
  lemma {:induction false} ClaimedKeysAreUnmarked(ttl: int, maxSize: int, es: seq<Event>, key: string)
    requires key in Run(Step, Initial(ttl, maxSize), es).processing
    ensures Get(Run(Step, Initial(ttl, maxSize), es).marks, key).None?
  {
    if es != [] {
      var s := Run(Step, Initial(ttl, maxSize), es[..|es| - 1]);
      StepProcessing(s, es[|es| - 1], key);
      if key in s.processing {
        ClaimedKeysAreUnmarked(ttl, maxSize, es[..|es| - 1], key);
      }
      StepKeepsUnmarked(s, es[|es| - 1], key);
    }
  }

  lemma StepKeepsUnmarked(s: State, e: Event, key: string)
    requires key in s.processing ==> Get(s.marks, key).None?
    requires key in Step(s, e).processing
    ensures Get(Step(s, e).marks, key).None?
  {
  }

  /** Settling a claimed message frees its key for a retry exactly when it was
      neither rejected, nor intercepted, nor forwarded. */
  lemma {:induction false} RetryAfterSettle(ttl: int, maxSize: int, es: seq<Event>, key: string, r: InboundResult,
                                            now: int)
    requires key in Run(Step, Initial(ttl, maxSize), es).processing
    ensures var s := Run(Step, Initial(ttl, maxSize), es);
            ReserveSpec(SettleInboundSpec(s, key, r), key, now).1
            <==> !r.rejected && !r.verificationIntercepted && !r.forwarded
  {
    ClaimedKeysAreUnmarked(ttl, maxSize, es, key);
  }

  /** An error frees a claimed key exactly when it is the open circuit breaker. */
  lemma {:induction false} RetryAfterError(ttl: int, maxSize: int, es: seq<Event>, key: string, err: Error, now: int)
    requires key in Run(Step, Initial(ttl, maxSize), es).processing
    ensures var s := Run(Step, Initial(ttl, maxSize), es);
            ReserveSpec(CatchErrorSpec(s, key, err), key, now).1 <==> err.CircuitBreakerOpen?
  {
    ClaimedKeysAreUnmarked(ttl, maxSize, es, key);
  }

  lemma {:induction false} ConfigurationFixed(s: State, es: seq<Event>, j: nat)
    requires j <= |es|
    ensures Before(s, es, j).ttl == s.ttl && Before(s, es, j).maxSize == s.maxSize
  {
    hide Step;
    if j > 0 {
      ConfigurationFixed(s, es, j - 1);
      RunStep(Step, s, es, j - 1);
      StepProcessing(Before(s, es, j - 1), es[j - 1], "");
    }
  }

  /** No clock reading of the calls after `i` up to `j` is past the TTL of what the call at
      `i` marked; with a non-decreasing clock, that is one comparison. */
  ghost predicate WithinTtl(s: State, es: seq<Event>, i: nat, j: nat)
    requires i <= j < |es|
  {
    forall m :: i < m <= j ==> es[m].now <= es[i].now + s.ttl
  }

  lemma WithinTtlAtOnce(s: State, es: seq<Event>, i: nat, j: nat)
    requires i < j < |es| && NonDecreasingClock(es)
    ensures WithinTtl(s, es, i, j) <==> es[j].now <= es[i].now + s.ttl
  {
  }

  /** No reading of the calls from `i` to `j` is past the expiry of the mark now held. */
  ghost predicate MarkedFor(s: State, es: seq<Event>, i: nat, j: nat, key: string)
    requires i <= j < |es|
  {
    Get(s.marks, key).Some? && forall m :: i <= m <= j ==> es[m].now <= Get(s.marks, key).value
  }

  lemma StepKeepsMark(s: State, e: Event, key: string)
    requires s.Live(key, e.now) && !CapacityEvicts(s, e, key)
    ensures Get(Step(s, e).marks, key) == Get(s.marks, key)
            || (e.Mark? && e.key == key && Get(Step(s, e).marks, key) == Some(e.now + s.ttl))
  {
  }

  lemma {:induction false} StaysMarked(s: State, es: seq<Event>, i: nat, j: nat, key: string)
    requires i <= j < |es| && MarkedFor(Before(s, es, i), es, i, j, key)
    requires forall k :: i <= k < j && es[k].Mark? && es[k].key == key ==> WithinTtl(s, es, k, j)
    requires forall k :: i <= k < j ==> !CapacityEvicts(Before(s, es, k), es[k], key)
    ensures MarkedFor(Before(s, es, j), es, j, j, key)
    decreases j - i
  {
    hide Step, CapacityEvicts;
    if i < j {
      RunStep(Step, s, es, i);
      ConfigurationFixed(s, es, i);
      StepKeepsMark(Before(s, es, i), es[i], key);
      StaysMarked(s, es, i + 1, j, key);
    }
  }

  /** After `mark`, or a `seen` that answers false, every reservation fails and every `seen`
      answers true, as long as no clock reading is past the TTL of the key's latest mark,
      unless that mark is capacity-evicted. */
  lemma {:induction false} MarkBlocksThroughTtl(s: State, es: seq<Event>, i: nat, j: nat, key: string)
    requires i < j < |es| && WithinTtl(s, es, i, j)
    requires Marks(s, es, i, key)
    requires forall k :: i < k < j && es[k].Mark? && es[k].key == key ==> WithinTtl(s, es, k, j)
    requires forall k :: i < k < j ==> !CapacityEvicts(Before(s, es, k), es[k], key)
    ensures !ReserveSpec(Before(s, es, j), key, es[j].now).1
    ensures SeenSpec(Before(s, es, j), key, es[j].now).1
            && SeenSpec(Before(s, es, j), key, es[j].now).0 == Before(s, es, j)
  {
    RunStep(Step, s, es, i);
    ConfigurationFixed(s, es, i);
    MarksIs(Before(s, es, i), es[i], key);
    hide CapacityEvicts, Put, MakeRoom, Step;
    assert MarkedFor(Before(s, es, i + 1), es, i + 1, j, key);
    StaysMarked(s, es, i + 1, j, key);
  }

  lemma MarksIs(s: State, e: Event, key: string)
    requires (e.Mark? && e.key == key) || (e.Seen? && e.key == key && !HasSpec(s, key, e.now).1)
    ensures Get(Step(s, e).marks, key) == Some(e.now + s.ttl)
  {
    hide MakeRoom;
  }

  /** A mark is lost to capacity only when the unexpired marks alone fill the map, and it is
      then the first inserted of those. */
  lemma {:induction false} EvictionTakesOldest(s: State, e: Event, key: string) returns (i: nat)
    requires CapacityEvicts(s, e, key)
    ensures var cleaned := if e.Seen? then HasSpec(s, e.key, e.now).0.marks else s.marks;
            && |Keep(cleaned, Unexpired(e.now))| >= s.maxSize
            && i < |cleaned| && cleaned[i].0 == key && e.now <= cleaned[i].1
            && forall j :: 0 <= j < i ==> cleaned[j].1 < e.now
  {
    var cleaned := if e.Seen? then HasSpec(s, e.key, e.now).0.marks else s.marks;
    i := KeepHead(cleaned, Unexpired(e.now));
  }

  /** The map of marks never outgrows `maxSize`; a `maxSize` below 1 still admits one. */
  lemma {:induction false} SizeIsBounded(ttl: int, maxSize: int, es: seq<Event>)
    ensures |Run(Step, Initial(ttl, maxSize), es).marks| <= if maxSize >= 1 then maxSize else 1
  {
    hide Step;
    if es != [] {
      SizeIsBounded(ttl, maxSize, es[..|es| - 1]);
      ConfigurationFixed(Initial(ttl, maxSize), es, |es| - 1);
      StepKeepsSize(Before(Initial(ttl, maxSize), es, |es| - 1), es[|es| - 1]);
    }
  }

  lemma StepKeepsSize(s: State, e: Event)
    requires |s.marks| <= if s.maxSize >= 1 then s.maxSize else 1
    ensures |Step(s, e).marks| <= if s.maxSize >= 1 then s.maxSize else 1
  {
  }

  // ----- no refusal without a cause -----

  /** The i-th event of a run marked `key`. */
  ghost predicate Marks(s: State, es: seq<Event>, i: nat, key: string)
    requires i < |es|
  {
    (es[i].Mark? && es[i].key == key)
      || (es[i].Seen? && es[i].key == key && !HasSpec(Before(s, es, i), key, es[i].now).1)
  }

  lemma StepMarks(s: State, e: Event, key: string)
    ensures Get(Step(s, e).marks, key).Some? && Get(Step(s, e).marks, key) != Get(s.marks, key) ==>
              && ((e.Mark? && e.key == key) || (e.Seen? && e.key == key && !HasSpec(s, key, e.now).1))
              && Get(Step(s, e).marks, key) == Some(e.now + s.ttl)
  {
  }

  lemma {:induction false} MarkHasCause(ttl: int, maxSize: int, es: seq<Event>, key: string) returns (i: nat)
    requires Get(Run(Step, Initial(ttl, maxSize), es).marks, key).Some?
    ensures i < |es| && Marks(Initial(ttl, maxSize), es, i, key)
    ensures Get(Run(Step, Initial(ttl, maxSize), es).marks, key).value == es[i].now + ttl
  {
    hide Step;
    var s0 := Initial(ttl, maxSize);
    if es == [] {
      assert false;
    } else {
      var prefix := es[..|es| - 1];
      var s := Run(Step, s0, prefix);
      StepMarks(s, es[|es| - 1], key);
      ConfigurationFixed(s0, es, |es| - 1);
      if Get(Run(Step, s0, es).marks, key) == Get(s.marks, key) {
        i := MarkHasCause(ttl, maxSize, prefix, key);
        assert prefix[..i] == es[..i];
      } else {
        i := |es| - 1;
      }
    }
  }

  lemma {:induction false} ClaimHasCause(ttl: int, maxSize: int, es: seq<Event>, key: string) returns (i: nat)
    requires key in Run(Step, Initial(ttl, maxSize), es).processing
    ensures i < |es| && es[i].Reserve? && es[i].key == key
    ensures ReserveSpec(Before(Initial(ttl, maxSize), es, i), key, es[i].now).1
    ensures forall k :: i < k < |es| ==> !Releases(es[k], key)
  {
    hide Step;
    var s0 := Initial(ttl, maxSize);
    if es == [] {
      assert false;
    } else {
      var prefix := es[..|es| - 1];
      var s := Run(Step, s0, prefix);
      var e := es[|es| - 1];
      StepProcessing(s, e, key);
      if key in s.processing && !Releases(e, key) {
        i := ClaimHasCause(ttl, maxSize, prefix, key);
        assert prefix[..i] == es[..i];
      } else {
        i := |es| - 1;
      }
    }
  }

  /** A refused reservation goes back to a claim of the key that nobody has released
      since, or to a mark of it within the TTL. */
  lemma {:induction false} RefusalHasCause(ttl: int, maxSize: int, es: seq<Event>, key: string, now: int)
    returns (i: nat)
    requires !ReserveSpec(Run(Step, Initial(ttl, maxSize), es), key, now).1
    ensures i < |es|
    ensures || (&& es[i].Reserve? && es[i].key == key
                && ReserveSpec(Before(Initial(ttl, maxSize), es, i), key, es[i].now).1
                && forall k :: i < k < |es| ==> !Releases(es[k], key))
            || (Marks(Initial(ttl, maxSize), es, i, key) && now <= es[i].now + ttl)
  {
    hide Step;
    if key in Run(Step, Initial(ttl, maxSize), es).processing {
      i := ClaimHasCause(ttl, maxSize, es, key);
    } else {
      i := MarkHasCause(ttl, maxSize, es, key);
    }
  }

  // ----- the class -----

  class StringDedupCache {
    var cache: Map<string, int>
    var processing: set<string>
    const ttlMs: int
    const maxSize: int

    function View(): State
      reads this
    {
      State(cache, processing, ttlMs, maxSize)
    }

    constructor (ttlMs: int, maxSize: int)
      ensures View() == Initial(ttlMs, maxSize)
    {
      cache, processing := [], {};
      this.ttlMs, this.maxSize := ttlMs, maxSize;
    }

    method EvictExpired(now: int)
      modifies this
      ensures View() == Step(old(View()), Event.Sweep(now))
    {
      cache := Purge(cache, Unexpired(now));
    }

    method Has(key: string, now: int) returns (seen: bool)
      modifies this
      ensures (View(), seen) == HasSpec(old(View()), key, now)
    {
      if key in processing {
        return true;
      }
      var expiresAt := Get(cache, key);
      if expiresAt.Some? {
        if now <= expiresAt.value {
          return true;
        }
        cache := Remove(cache, key);
      } else {
        RemoveAbsent(cache, key);
      }
      return false;
    }

    method Reserve(key: string, now: int) returns (claimed: bool)
      modifies this
      ensures (View(), claimed) == ReserveSpec(old(View()), key, now)
    {
      var seen := Has(key, now);
      if seen {
        return false;
      }
      processing := processing + {key};
      return true;
    }

    method Unreserve(key: string)
      modifies this
      ensures View() == UnreserveSpec(old(View()), key)
    {
      processing := processing - {key};
    }

    method Mark(key: string, now: int)
      modifies this
      ensures View() == MarkSpec(old(View()), key, now)
    {
      hide Keep, Put;
      processing := processing - {key};
      if |cache| >= maxSize {
        EvictExpired(now);
      }
      if |cache| >= maxSize && cache != [] {
        cache := Tail(cache);
      }
      cache := Put(cache, key, now + ttlMs);
    }

    method Seen(key: string, now: int) returns (seen: bool)
      modifies this
      ensures (View(), seen) == SeenSpec(old(View()), key, now)
    {
      seen := Has(key, now);
      if !seen {
        Mark(key, now);
      }
    }
  }

  /** Returns the Retry-After of the 503 answer, or nothing for any other error. */
  method HandleCircuitBreakerError(err: Error, dedupCache: StringDedupCache, cacheKey: string)
    returns (retryAfter: Option<int>)
    modifies dedupCache
    ensures dedupCache.View() == CatchErrorSpec(old(dedupCache.View()), cacheKey, err)
    ensures retryAfter == if err.CircuitBreakerOpen? then Some(err.retryAfterSecs) else None
  {
    if !err.CircuitBreakerOpen? {
      return None;
    }
    dedupCache.Unreserve(cacheKey);
    return Some(err.retryAfterSecs);
  }

  method ProcessInboundResult(result: InboundResult, dedupCache: StringDedupCache, cacheKey: string)
    returns (outcome: Outcome)
    modifies dedupCache
    ensures dedupCache.View() == SettleInboundSpec(old(dedupCache.View()), cacheKey, result)
    ensures outcome == InboundOutcome(result)
    ensures outcome == Failed(500) <==> !result.rejected && !result.verificationIntercepted && !result.forwarded
    ensures outcome.Failed? ==> outcome == Failed(500)
    ensures outcome.Ok? ==> outcome.rejected == result.rejected
  {
    if result.rejected {
      return Ok(true);
    }
    if result.verificationIntercepted {
      return Ok(false);
    }
    if !result.forwarded {
      dedupCache.Unreserve(cacheKey);
      return Failed(500);
    }
    return Ok(false);
  }
}
