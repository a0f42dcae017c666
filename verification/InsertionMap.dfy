/** JavaScript's `Map` remembers insertion order: overwriting a key keeps its
    place, a new key goes last, and `keys().next()` is the oldest surviving key.
    An `InsertionMap.Map` is the sequence of its entries in that order. */
module InsertionMap {

  datatype Option<+T> = None | Some(value: T)

  ghost predicate DistinctKeys<K, V>(m: seq<(K, V)>) {
    forall i, j :: 0 <= i < j < |m| ==> m[i].0 != m[j].0
  }

  type Map<K, V> = m: seq<(K, V)> | DistinctKeys(m) witness []

  /** `Map.get`. */
  function Get<K(==), V>(m: seq<(K, V)>, k: K): (r: Option<V>) {
    if m == [] then None
    else if m[0].0 == k then Some(m[0].1)
    else Get(m[1..], k)
  }

  lemma {:induction false} GetIsNone<K, V>(m: seq<(K, V)>, k: K)
    ensures Get(m, k).None? <==> forall i :: 0 <= i < |m| ==> m[i].0 != k
  {
    if m != [] {
      var rest := m[1..];
      GetIsNone(rest, k);
      assert forall i :: 0 <= i < |rest| ==> rest[i] == m[i + 1];
      assert forall i :: 0 < i < |m| ==> m[i] == rest[i - 1];
    }
  }

  lemma {:induction false} GetAt<K, V>(m: Map<K, V>, i: nat)
    requires i < |m|
    ensures Get(m, m[i].0) == Some(m[i].1)
  {
    if i > 0 {
      GetAt(m[1..], i - 1);
    }
  }

  /** The map without its oldest entry, as `Map.delete(Map.keys().next().value)` leaves it. */
  function Tail<K(==, !new), V>(m: Map<K, V>): (r: Map<K, V>)
    requires m != []
    ensures |r| == |m| - 1
    ensures forall x :: Get(r, x) == if x == m[0].0 then None else Get(m, x)
  {
    assert Get(m[1..], m[0].0).None? by { GetIsNone(m[1..], m[0].0); }
    m[1..]
  }

  /** Prefix a map by an entry with a new key. */
  function Cons<K(==, !new), V>(e: (K, V), m: Map<K, V>): (r: Map<K, V>)
    requires Get(m, e.0).None?
    ensures |r| == |m| + 1 && r[0] == e && r[1..] == m
    ensures forall x :: Get(r, x) == if x == e.0 then Some(e.1) else Get(m, x)
  {
    GetIsNone(m, e.0);
    assert ([e] + m)[1..] == m;
    [e] + m
  }

  /** `Map.set`: an existing key keeps its position, a new one goes last. */
  function Put<K(==, !new), V>(m: Map<K, V>, k: K, v: V): (r: Map<K, V>)
    ensures |r| == if Get(m, k).Some? then |m| else |m| + 1
    ensures forall x :: Get(r, x) == if x == k then Some(v) else Get(m, x)
  {
    if m == [] then Cons((k, v), [])
    else if m[0].0 == k then Cons((k, v), Tail(m))
    else Cons(m[0], Put(Tail(m), k, v))
  }

  /** A purge loop over the map: only the entries that `keep` accepts survive, in order. */
  function Keep<K(==, !new), V>(m: Map<K, V>, keep: (K, V) -> bool): (r: Map<K, V>)
    ensures |r| <= |m|
    ensures forall x :: Get(r, x) == if Get(m, x).Some? && keep(x, Get(m, x).value) then Get(m, x) else None
  {
    if m == [] then []
    else if keep(m[0].0, m[0].1) then Cons(m[0], Keep(Tail(m), keep))
    else Keep(Tail(m), keep)
  }

  /** `Map.delete`. */
  function Remove<K(==, !new), V>(m: Map<K, V>, k: K): (r: Map<K, V>)
    ensures |r| == if Get(m, k).Some? then |m| - 1 else |m|
    ensures forall x :: Get(r, x) == if x == k then None else Get(m, x)
  {
    if m == [] then []
    else if m[0].0 == k then Tail(m)
    else Cons(m[0], Remove(Tail(m), k))
  }

  /** Where `Put` leaves everything: old entries in place, a new key at the end. */
  lemma {:induction false} PutOrder<K(!new), V>(m: Map<K, V>, k: K, v: V)
    ensures Get(m, k).None? ==> Put(m, k, v) == m + [(k, v)]
    ensures Get(m, k).Some? ==> forall i :: 0 <= i < |m| ==> Put(m, k, v)[i] == if m[i].0 == k then (k, v) else m[i]
  {
    if m != [] {
      GetIsNone(Tail(m), m[0].0);
      if m[0].0 != k {
        PutOrder(Tail(m), k, v);
      }
    }
  }

  lemma {:induction false} RemoveAbsent<K(!new), V>(m: Map<K, V>, k: K)
    requires Get(m, k).None?
    ensures Remove(m, k) == m
  {
    if m != [] {
      RemoveAbsent(Tail(m), k);
    }
  }

  lemma {:induction false} KeepAll<K(!new), V>(m: Map<K, V>, keep: (K, V) -> bool)
    requires forall x :: Get(m, x).Some? ==> keep(x, Get(m, x).value)
    ensures Keep(m, keep) == m
  {
    if m != [] {
      assert Get(m, m[0].0) == Some(m[0].1);
      KeepAll(Tail(m), keep);
    }
  }

  lemma {:induction false} KeepSkipsRemoved<K(!new), V>(m: Map<K, V>, k: K, keep: (K, V) -> bool)
    requires Get(m, k).Some? ==> !keep(k, Get(m, k).value)
    ensures Keep(Remove(m, k), keep) == Keep(m, keep)
  {
    if m != [] && m[0].0 != k {
      KeepSkipsRemoved(Tail(m), k, keep);
    }
  }

  /** The loop `for (const [k, v] of map) if (...) map.delete(k)`. */
  method Purge<K(==, !new), V>(m: Map<K, V>, keep: (K, V) -> bool) returns (r: Map<K, V>)
    ensures r == Keep(m, keep)
  {
    r := m;
    for i := 0 to |m|
      invariant Keep(r, keep) == Keep(m, keep)
      invariant forall x :: Get(r, x).Some? ==> Get(r, x) == Get(m, x)
      invariant forall j :: 0 <= j < i && Get(r, m[j].0).Some? ==> keep(m[j].0, m[j].1)
    {
      GetAt(m, i);
      if !keep(m[i].0, m[i].1) {
        KeepSkipsRemoved(r, m[i].0, keep);
        r := Remove(r, m[i].0);
      }
    }
    forall x | Get(r, x).Some? ensures keep(x, Get(r, x).value) {
      GetIsNone(m, x);
      var j :| 0 <= j < |m| && m[j].0 == x;
      GetAt(m, j);
    }
    KeepAll(r, keep);
  }

  /** A loop that revises every value in place, deleting the entries `f` gives up. */
  function Revise<K(==, !new), V>(m: Map<K, V>, f: V -> Option<V>): (r: Map<K, V>)
    ensures |r| <= |m|
    ensures forall x :: Get(r, x) == if Get(m, x).Some? then f(Get(m, x).value) else None
  {
    if m == [] then []
    else
      match f(m[0].1)
      case Some(v) => Cons((m[0].0, v), Revise(Tail(m), f))
      case None => Revise(Tail(m), f)
  }

  ghost predicate IsFixed<V>(f: V -> Option<V>, v: V) {
    f(v) == Some(v)
  }

  /** Revising twice is revising once. */
  ghost predicate SettlesAtOnce<V>(f: V -> Option<V>, v: V) {
    f(v).Some? ==> IsFixed(f, f(v).value)
  }

  lemma {:induction false} ReviseFixed<K(!new), V>(m: Map<K, V>, f: V -> Option<V>)
    requires forall x :: Get(m, x).Some? ==> IsFixed(f, Get(m, x).value)
    ensures Revise(m, f) == m
  {
    if m != [] {
      assert Get(m, m[0].0) == Some(m[0].1);
      ReviseFixed(Tail(m), f);
    }
  }

  lemma {:induction false} ReviseSkips<K(!new), V>(m: Map<K, V>, k: K, f: V -> Option<V>)
    requires Get(m, k).Some?
    ensures f(Get(m, k).value) == None ==> Revise(Remove(m, k), f) == Revise(m, f)
    ensures f(Get(m, k).value).Some? && IsFixed(f, f(Get(m, k).value).value)
            ==> Revise(Put(m, k, f(Get(m, k).value).value), f) == Revise(m, f)
  {
    if m != [] && m[0].0 != k {
      ReviseSkips(Tail(m), k, f);
    }
  }

  /** The loop `for (const [k, v] of map) { revise v in place; if (...) map.delete(k) }`. */
  method ReviseAll<K(==, !new), V(!new)>(m: Map<K, V>, f: V -> Option<V>) returns (r: Map<K, V>)
    requires forall v :: SettlesAtOnce(f, v)
    ensures r == Revise(m, f)
  {
    r := m;
    forall j | 0 <= j < |m| ensures Get(r, m[j].0) == Some(m[j].1) {
      GetAt(m, j);
    }
    for i := 0 to |m|
      invariant Revise(r, f) == Revise(m, f)
      invariant forall j :: 0 <= j < i && Get(r, m[j].0).Some? ==> IsFixed(f, Get(r, m[j].0).value)
      invariant forall j :: i <= j < |m| ==> Get(r, m[j].0) == Some(m[j].1)
      invariant forall x :: Get(r, x).Some? ==> Get(m, x).Some?
    {
      ReviseSkips(r, m[i].0, f);
      assert SettlesAtOnce(f, m[i].1);
      var revised := f(m[i].1);
      if revised.Some? {
        r := Put(r, m[i].0, revised.value);
      } else {
        r := Remove(r, m[i].0);
      }
    }
    forall x | Get(r, x).Some? ensures IsFixed(f, Get(r, x).value) {
      GetIsNone(m, x);
      var j :| 0 <= j < |m| && m[j].0 == x;
    }
    ReviseFixed(r, f);
  }

  // ----- what is in it -----

  function Keys<K(==), V>(m: seq<(K, V)>): set<K> {
    set i | 0 <= i < |m| :: m[i].0
  }

  lemma KeysAreGot<K(!new), V>(m: seq<(K, V)>, k: K)
    ensures k in Keys(m) <==> Get(m, k).Some?
  {
    GetIsNone(m, k);
  }

  /** A map has as many keys as entries. */
  lemma {:induction false} CountKeys<K(!new), V>(m: Map<K, V>)
    ensures |Keys(m)| == |m|
  {
    if m != [] {
      var tail := Tail(m);
      assert tail == m[1..];
      CountKeys(tail);
      assert Keys(m) == {m[0].0} + Keys(tail) by {
        forall k ensures k in Keys(m) <==> k == m[0].0 || k in Keys(tail) {
          KeysAreGot(m, k);
          KeysAreGot(tail, k);
        }
      }
      KeysAreGot(tail, m[0].0);
    }
  }

  /** What a purge leaves first is the oldest entry that it keeps. */
  lemma {:induction false} KeepHead<K(!new), V>(m: Map<K, V>, keep: (K, V) -> bool) returns (i: nat)
    requires Keep(m, keep) != []
    ensures i < |m| && Keep(m, keep)[0] == m[i] && keep(m[i].0, m[i].1)
    ensures forall j :: 0 <= j < i ==> !keep(m[j].0, m[j].1)
  {
    i := 0;
    if !keep(m[0].0, m[0].1) {
      assert Tail(m) == m[1..];
      i := KeepHead(Tail(m), keep);
      i := i + 1;
    }
  }

  /** What a revision leaves first is the oldest entry that it does not give up. */
  lemma {:induction false} ReviseHead<K(!new), V>(m: Map<K, V>, f: V -> Option<V>) returns (i: nat)
    requires Revise(m, f) != []
    ensures i < |m| && Revise(m, f)[0].0 == m[i].0 && f(m[i].1) == Some(Revise(m, f)[0].1)
    ensures forall j :: 0 <= j < i ==> f(m[j].1).None?
  {
    i := 0;
    if f(m[0].1).None? {
      assert Tail(m) == m[1..];
      i := ReviseHead(Tail(m), f);
      i := i + 1;
    }
  }

  lemma SubsetCount<K>(a: set<K>, b: set<K>)
    requires a <= b
    ensures |a| <= |b|
  {
    if a != {} {
      var x :| x in a;
      SubsetCount(a - {x}, b - {x});
    }
  }
}
