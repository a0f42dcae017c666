/** The generated `searchEmoji`: two passes into four buckets, against a stable sort
    of the matching catalog entries by rank. */
module EmojiSearch {

  datatype Entry = Entry(shortcode: string, emoji: string, aliases: seq<string>)

  predicate StartsWith(s: string, q: string) {
    q <= s
  }

  predicate Includes(s: string, q: string) {
    exists k :: 0 <= k <= |s| && q <= s[k..]
  }

  /** 0 shortcode prefix, 1 shortcode substring, 2 alias prefix, 3 alias substring, 4 no match. */
  function Rank(e: Entry, q: string): (r: nat)
    ensures r <= 4
  {
    if StartsWith(e.shortcode, q) then 0
    else if Includes(e.shortcode, q) then 1
    else if exists i :: 0 <= i < |e.aliases| && StartsWith(e.aliases[i], q) then 2
    else if exists i :: 0 <= i < |e.aliases| && Includes(e.aliases[i], q) then 3
    else 4
  }

  // ----- the specification: a stable sort -----

  function Matches(catalog: seq<Entry>, q: string): seq<Entry> {
    if catalog == [] then []
    else
      var last := catalog[|catalog| - 1];
      Matches(catalog[..|catalog| - 1], q) + if Rank(last, q) < 4 then [last] else []
  }

  function Insert(sorted: seq<Entry>, e: Entry, q: string): seq<Entry> {
    if sorted == [] || Rank(sorted[|sorted| - 1], q) <= Rank(e, q) then sorted + [e]
    else Insert(sorted[..|sorted| - 1], e, q) + [sorted[|sorted| - 1]]
  }

  /** Insertion sort by rank. */
  function SortByRank(entries: seq<Entry>, q: string): seq<Entry> {
    if entries == [] then []
    else Insert(SortByRank(entries[..|entries| - 1], q), entries[|entries| - 1], q)
  }

  /** The entries of one rank, in catalog order. */
  function OfRank(entries: seq<Entry>, q: string, r: nat): seq<Entry> {
    if entries == [] then []
    else
      var last := entries[|entries| - 1];
      OfRank(entries[..|entries| - 1], q, r) + if Rank(last, q) == r then [last] else []
  }

  /** `slice(0, limit)`; a negative limit counts from the end. */
  function SliceTo<T>(s: seq<T>, limit: int): seq<T> {
    if limit >= |s| then s
    else if limit >= 0 then s[..limit]
    else if -limit >= |s| then []
    else s[..|s| + limit]
  }

  function Buckets(entries: seq<Entry>, q: string): seq<Entry> {
    OfRank(entries, q, 0) + OfRank(entries, q, 1) + OfRank(entries, q, 2) + OfRank(entries, q, 3)
  }

  /** What `searchEmoji` promises. */
  function Best(catalog: seq<Entry>, query: string, lower: string, limit: int): seq<Entry> {
    if query == "" then SliceTo(catalog, limit) else SliceTo(SortByRank(Matches(catalog, lower), lower), limit)
  }

  // ----- the sort is the stable sort -----

  lemma {:induction false} OfRankAppend(a: seq<Entry>, b: seq<Entry>, q: string, r: nat)
    ensures OfRank(a + b, q, r) == OfRank(a, q, r) + OfRank(b, q, r)
  {
    hide Rank;
    if b == [] {
      assert a + b == a;
    } else {
      var init := b[..|b| - 1];
      OfRankAppend(a, init, q, r);
      assert (a + b)[..|a + b| - 1] == a + init;
    }
  }

  ghost predicate RankSorted(entries: seq<Entry>, q: string) {
    forall i, j :: 0 <= i < j < |entries| ==> Rank(entries[i], q) <= Rank(entries[j], q)
  }

  lemma {:induction false} InsertKeepsOrder(sorted: seq<Entry>, e: Entry, q: string)
    requires RankSorted(sorted, q)
    ensures RankSorted(Insert(sorted, e, q), q) && multiset(Insert(sorted, e, q)) == multiset(sorted) + multiset{e}
  {
    hide Rank;
    if sorted != [] && Rank(sorted[|sorted| - 1], q) > Rank(e, q) {
      var init, last := sorted[..|sorted| - 1], sorted[|sorted| - 1];
      InsertKeepsOrder(init, e, q);
      assert sorted == init + [last];
      var t := Insert(init, e, q);
      forall i | 0 <= i < |t| ensures Rank(t[i], q) <= Rank(last, q) {
        assert t[i] in multiset(t);
        assert t[i] in init || t[i] == e;
      }
    }
  }

  lemma {:induction false} InsertKeepsRanks(sorted: seq<Entry>, e: Entry, q: string, r: nat)
    ensures OfRank(Insert(sorted, e, q), q, r) == OfRank(sorted + [e], q, r)
  {
    if sorted != [] && Rank(sorted[|sorted| - 1], q) > Rank(e, q) {
      hide Rank, OfRank;
      var init, last := sorted[..|sorted| - 1], sorted[|sorted| - 1];
      InsertKeepsRanks(init, e, q, r);
      assert sorted == init + [last];
      OfRankOfInsertion(init, e, last, q, r);
      OfRankAppend(Insert(init, e, q), [last], q, r);
    }
  }

  /** Entries of different rank may change places unseen. */
  lemma OfRankOfInsertion(init: seq<Entry>, e: Entry, last: Entry, q: string, r: nat)
    requires Rank(e, q) != Rank(last, q)
    ensures OfRank(init + [last] + [e], q, r) == OfRank(init + [e], q, r) + OfRank([last], q, r)
  {
    hide Rank, OfRank;
    OfRankAppend(init + [last], [e], q, r);
    OfRankAppend(init, [last], q, r);
    OfRankAppend(init, [e], q, r);
    OneOfRank(e, q, r);
    OneOfRank(last, q, r);
  }

  lemma OneOfRank(e: Entry, q: string, r: nat)
    ensures OfRank([e], q, r) == if Rank(e, q) == r then [e] else []
  {
    hide Rank;
    assert [e][..0] == [];
  }

  /** `SortByRank` permutes, orders by rank, and keeps the catalog order within each rank. */
  lemma {:induction false} SortIsStable(entries: seq<Entry>, q: string, r: nat)
    ensures var s := SortByRank(entries, q);
            && RankSorted(s, q) && multiset(s) == multiset(entries) && OfRank(s, q, r) == OfRank(entries, q, r)
  {
    SortSteps(entries, q);
    hide Rank, OfRank, SortByRank, Insert;
    if entries != [] {
      var init, last := entries[..|entries| - 1], entries[|entries| - 1];
      SortIsStable(init, q, r);
      var s := SortByRank(init, q);
      InsertKeepsOrder(s, last, q);
      InsertKeepsRanks(s, last, q, r);
      assert entries == init + [last];
      OfRankAppend(s, [last], q, r);
      OfRankAppend(init, [last], q, r);
    }
  }

  lemma SortSteps(entries: seq<Entry>, q: string)
    ensures entries == [] ==> SortByRank(entries, q) == []
    ensures entries != [] ==>
              SortByRank(entries, q) == Insert(SortByRank(entries[..|entries| - 1], q), entries[|entries| - 1], q)
  {
    hide Insert;
  }

  /** A list in rank order is its buckets in a row. */
  lemma {:induction false} SortedIsBuckets(s: seq<Entry>, q: string)
    requires RankSorted(s, q) && forall i :: 0 <= i < |s| ==> Rank(s[i], q) < 4
    ensures s == Buckets(s, q)
  {
    hide Rank;
    if s != [] {
      hide OfRank;
      var init, last := s[..|s| - 1], s[|s| - 1];
      SortedIsBuckets(init, q);
      assert s == init + [last];
      NoneAbove(init, q, Rank(last, q));
      BucketsOneMore(init, last, q);
    }
  }

  /** An entry of the last rank in use goes at the end of its bucket and of the whole. */
  lemma BucketsOneMore(init: seq<Entry>, last: Entry, q: string)
    requires Rank(last, q) < 4 && forall r :: r > Rank(last, q) ==> OfRank(init, q, r) == []
    ensures Buckets(init + [last], q) == Buckets(init, q) + [last]
  {
    hide Rank, OfRank;
    OfRankOneMore(init, last, q, 0);
    OfRankOneMore(init, last, q, 1);
    OfRankOneMore(init, last, q, 2);
    OfRankOneMore(init, last, q, 3);
  }

  lemma OfRankOneMore(init: seq<Entry>, last: Entry, q: string, r: nat)
    ensures OfRank(init + [last], q, r) == OfRank(init, q, r) + if Rank(last, q) == r then [last] else []
  {
    hide Rank;
    assert (init + [last])[..|init|] == init;
  }

  lemma {:induction false} NoneAbove(s: seq<Entry>, q: string, top: nat)
    requires forall i :: 0 <= i < |s| ==> Rank(s[i], q) <= top
    ensures forall r :: r > top ==> OfRank(s, q, r) == []
  {
    hide Rank;
    if s != [] {
      NoneAbove(s[..|s| - 1], q, top);
    }
  }

  lemma {:induction false} MatchesFacts(catalog: seq<Entry>, q: string)
    ensures forall i :: 0 <= i < |Matches(catalog, q)| ==> Rank(Matches(catalog, q)[i], q) < 4
    ensures forall r :: 0 <= r < 4 ==> OfRank(Matches(catalog, q), q, r) == OfRank(catalog, q, r)
  {
    hide Rank;
    if catalog != [] {
      var init, last := catalog[..|catalog| - 1], catalog[|catalog| - 1];
      MatchesFacts(init, q);
      forall r: nat | r < 4 ensures OfRank(Matches(catalog, q), q, r) == OfRank(catalog, q, r) {
        OfRankAppend(Matches(init, q), if Rank(last, q) < 4 then [last] else [], q, r);
        OneOfRank(last, q, r);
      }
    }
  }

  /** The four buckets in a row are the stable sort of the matching entries by rank,
      whatever shortcodes repeat. */
  lemma BucketsAreTheSort(catalog: seq<Entry>, q: string)
    ensures Buckets(catalog, q) == SortByRank(Matches(catalog, q), q)
  {
    var m := Matches(catalog, q);
    var s := SortByRank(m, q);
    MatchesFacts(catalog, q);
    SortIsStable(m, q, 0);
    SortIsStable(m, q, 1);
    SortIsStable(m, q, 2);
    SortIsStable(m, q, 3);
    hide Rank, OfRank, SortByRank, Matches;
    forall i | 0 <= i < |s| ensures Rank(s[i], q) < 4 {
      assert s[i] in multiset(s);
    }
    SortedIsBuckets(s, q);
  }

  // ----- repeated shortcodes -----

  ghost predicate DistinctShortcodes(entries: seq<Entry>) {
    forall i, j :: 0 <= i < j < |entries| ==> entries[i].shortcode != entries[j].shortcode
  }

  function Shortcodes(entries: seq<Entry>): multiset<string> {
    if entries == [] then multiset{}
    else Shortcodes(entries[..|entries| - 1]) + multiset{entries[|entries| - 1].shortcode}
  }

  lemma {:induction false} ShortcodesIn(entries: seq<Entry>, c: string)
    ensures c in Shortcodes(entries) <==> exists i :: 0 <= i < |entries| && entries[i].shortcode == c
  {
    if entries != [] {
      ShortcodesIn(entries[..|entries| - 1], c);
    }
  }

  lemma {:induction false} DistinctIsMultiplicityOne(entries: seq<Entry>)
    ensures DistinctShortcodes(entries) <==> forall c :: Shortcodes(entries)[c] <= 1
  {
    if entries != [] {
      var init, last := entries[..|entries| - 1], entries[|entries| - 1];
      DistinctIsMultiplicityOne(init);
      ShortcodesIn(init, last.shortcode);
      assert forall c :: Shortcodes(init)[c] <= Shortcodes(entries)[c];
      if DistinctShortcodes(entries) {
        assert DistinctShortcodes(init);
      }
      if forall c :: Shortcodes(entries)[c] <= 1 {
        assert Shortcodes(entries)[last.shortcode] <= 1;
      }
    }
  }

  lemma {:induction false} InsertShortcodes(sorted: seq<Entry>, e: Entry, q: string)
    ensures Shortcodes(Insert(sorted, e, q)) == Shortcodes(sorted) + multiset{e.shortcode}
  {
    hide Rank;
    if sorted == [] || Rank(sorted[|sorted| - 1], q) <= Rank(e, q) {
      assert (sorted + [e])[..|sorted|] == sorted;
    } else {
      var init, last := sorted[..|sorted| - 1], sorted[|sorted| - 1];
      InsertShortcodes(init, e, q);
      var t := Insert(init, e, q);
      assert (t + [last])[..|t|] == t;
    }
  }

  lemma {:induction false} SortShortcodes(entries: seq<Entry>, q: string)
    ensures Shortcodes(SortByRank(entries, q)) == Shortcodes(entries)
  {
    hide Insert;
    if entries != [] {
      SortShortcodes(entries[..|entries| - 1], q);
      InsertShortcodes(SortByRank(entries[..|entries| - 1], q), entries[|entries| - 1], q);
    }
  }

  lemma ResultRepeatsLikeMatches(catalog: seq<Entry>, q: string)
    ensures DistinctShortcodes(SortByRank(Matches(catalog, q), q)) <==> DistinctShortcodes(Matches(catalog, q))
  {
    hide DistinctShortcodes, SortByRank, Matches;
    SortShortcodes(Matches(catalog, q), q);
    DistinctIsMultiplicityOne(SortByRank(Matches(catalog, q), q));
    DistinctIsMultiplicityOne(Matches(catalog, q));
  }

  lemma {:induction false} MatchesAreEntries(catalog: seq<Entry>, q: string)
    ensures forall e :: e in Matches(catalog, q) ==> e in catalog
    ensures DistinctShortcodes(catalog) ==> DistinctShortcodes(Matches(catalog, q))
  {
    hide Rank;
    if catalog != [] {
      var init, last := catalog[..|catalog| - 1], catalog[|catalog| - 1];
      MatchesAreEntries(init, q);
      var m := Matches(init, q);
      assert catalog == init + [last];
      if DistinctShortcodes(catalog) {
        assert DistinctShortcodes(init);
        forall i | 0 <= i < |m| ensures m[i].shortcode != last.shortcode {
          assert m[i] in init;
          var j :| 0 <= j < |init| && init[j] == m[i];
        }
      }
    }
  }

  /** "Each shortcode appears at most once in the result": so it does, for every query and
      every limit, because it appears at most once in the catalog. */
  lemma EachShortcodeAtMostOnce(catalog: seq<Entry>, query: string, lower: string, limit: int)
    requires DistinctShortcodes(catalog)
    ensures DistinctShortcodes(Best(catalog, query, lower, limit))
  {
    hide SortByRank, Matches;
    MatchesAreEntries(catalog, lower);
    ResultRepeatsLikeMatches(catalog, lower);
  }

  /** Nothing less is needed: the search itself removes no repetition, and at every limit
      the result is free of them exactly when the matching entries are. */
  lemma ResultRepeatsLikeCatalog(catalog: seq<Entry>, query: string, lower: string)
    requires query != ""
    ensures (forall limit :: DistinctShortcodes(Best(catalog, query, lower, limit)))
            <==> DistinctShortcodes(Matches(catalog, lower))
  {
    hide SortByRank, Matches;
    var s := SortByRank(Matches(catalog, lower), lower);
    ResultRepeatsLikeMatches(catalog, lower);
    assert Best(catalog, query, lower, |s|) == s;
  }

  // ----- what a user finds -----

  predicate SomeAliasStarts(e: Entry, q: string) {
    exists i :: 0 <= i < |e.aliases| && StartsWith(e.aliases[i], q)
  }

  predicate SomeAliasIncludes(e: Entry, q: string) {
    exists i :: 0 <= i < |e.aliases| && Includes(e.aliases[i], q)
  }

  lemma {:induction false} MatchesExactly(catalog: seq<Entry>, q: string, e: Entry)
    ensures e in Matches(catalog, q) <==>
              e in catalog && (Includes(e.shortcode, q) || SomeAliasIncludes(e, q))
  {
    RankedExactly(e, q);
    hide Rank, Includes, SomeAliasIncludes;
    if catalog != [] {
      MatchesExactly(catalog[..|catalog| - 1], q, e);
    }
  }

  lemma RankedExactly(e: Entry, q: string)
    ensures Rank(e, q) < 4 <==> Includes(e.shortcode, q) || SomeAliasIncludes(e, q)
    ensures Rank(e, q) < 1 <==> StartsWith(e.shortcode, q)
    ensures Rank(e, q) < 2 <==> Includes(e.shortcode, q)
    ensures Rank(e, q) < 3 <==> Includes(e.shortcode, q) || SomeAliasStarts(e, q)
  {
    assert e.shortcode == e.shortcode[0..];
    if i :| 0 <= i < |e.aliases| && StartsWith(e.aliases[i], q) {
      assert e.aliases[i] == e.aliases[i][0..];
    }
  }

  /** Without a limit, exactly the entries whose shortcode or some alias contains the query;
      for an empty query the whole catalog. */
  lemma FoundExactly(catalog: seq<Entry>, query: string, lower: string, limit: int, e: Entry)
    requires |catalog| <= limit
    ensures e in Best(catalog, query, lower, limit) <==>
              e in catalog && (query == "" || Includes(e.shortcode, lower) || SomeAliasIncludes(e, lower))
  {
    MatchesExactly(catalog, lower, e);
    SortIsStable(Matches(catalog, lower), lower, 0);
    MatchesAreFewer(catalog, lower);
    hide SortByRank, Matches, Includes, SomeAliasIncludes;
    var m := Matches(catalog, lower);
    SortLength(m, lower);
    assert e in multiset(m) <==> e in m;
    assert e in multiset(SortByRank(m, lower)) <==> e in SortByRank(m, lower);
  }

  lemma {:induction false} MatchesAreFewer(catalog: seq<Entry>, q: string)
    ensures |Matches(catalog, q)| <= |catalog|
  {
    hide Rank;
    if catalog != [] {
      MatchesAreFewer(catalog[..|catalog| - 1], q);
    }
  }

  /** Better matches come first: a shortcode that starts with the query, one that contains
      it, an alias that starts with it, an alias that contains it. */
  lemma FoundInOrder(catalog: seq<Entry>, query: string, lower: string, limit: int, i: nat, j: nat)
    requires query != "" && i < j < |Best(catalog, query, lower, limit)|
    ensures var r := Best(catalog, query, lower, limit);
            && (StartsWith(r[j].shortcode, lower) ==> StartsWith(r[i].shortcode, lower))
            && (Includes(r[j].shortcode, lower) ==> Includes(r[i].shortcode, lower))
            && (SomeAliasStarts(r[j], lower) ==> Includes(r[i].shortcode, lower) || SomeAliasStarts(r[i], lower))
  {
    var r := Best(catalog, query, lower, limit);
    RankedExactly(r[i], lower);
    RankedExactly(r[j], lower);
    BestInOrder(catalog, query, lower, limit, i, j);
    hide *;
  }

  /** A limit keeps that many of the first entries, and a negative one drops as many of the last. */
  lemma LimitCuts(catalog: seq<Entry>, query: string, lower: string, limit: int, all: int)
    requires |catalog| <= all
    ensures var r, full := Best(catalog, query, lower, limit), Best(catalog, query, lower, all);
            && r <= full
            && (0 <= limit <= |full| ==> |r| == limit)
            && (limit > |full| ==> r == full)
            && (-|full| <= limit < 0 ==> |r| == |full| + limit)
            && (limit < -|full| ==> r == [])
  {
    hide *;
    var full := Full(catalog, query, lower);
    SliceFacts(full, limit);
    SliceFacts(full, all);
    MatchesAreFewer(catalog, lower);
    SortLength(Matches(catalog, lower), lower);
    BestIsSlice(catalog, query, lower, limit);
    BestIsSlice(catalog, query, lower, all);
    FullLength(catalog, query, lower);
  }

  function Full(catalog: seq<Entry>, query: string, lower: string): seq<Entry> {
    if query == "" then catalog else SortByRank(Matches(catalog, lower), lower)
  }

  lemma BestIsSlice(catalog: seq<Entry>, query: string, lower: string, limit: int)
    ensures Best(catalog, query, lower, limit) == SliceTo(Full(catalog, query, lower), limit)
  {
    hide SortByRank, Matches, SliceTo;
  }

  lemma FullLength(catalog: seq<Entry>, query: string, lower: string)
    ensures |Full(catalog, query, lower)|
            == if query == "" then |catalog| else |SortByRank(Matches(catalog, lower), lower)|
  {
    hide SortByRank, Matches;
  }

  lemma SliceFacts<T>(s: seq<T>, limit: int)
    ensures var r := SliceTo(s, limit);
            && r <= s
            && (0 <= limit <= |s| ==> |r| == limit)
            && (limit >= |s| ==> r == s)
            && (-|s| <= limit < 0 ==> |r| == |s| + limit)
            && (limit < -|s| ==> r == [])
  {
  }

  lemma SortLength(entries: seq<Entry>, q: string)
    ensures |SortByRank(entries, q)| == |entries|
  {
    SortIsStable(entries, q, 0);
    hide *;
    assert |multiset(SortByRank(entries, q))| == |multiset(entries)|;
  }

  lemma BestInOrder(catalog: seq<Entry>, query: string, lower: string, limit: int, i: nat, j: nat)
    requires query != "" && i < j < |Best(catalog, query, lower, limit)|
    ensures var r := Best(catalog, query, lower, limit); Rank(r[i], lower) <= Rank(r[j], lower)
  {
    SortIsStable(Matches(catalog, lower), lower, 0);
    hide Rank, SortByRank, Matches, SliceTo;
    SliceFacts(SortByRank(Matches(catalog, lower), lower), limit);
  }

  // ----- the search -----

  /** `lower` is `query.toLowerCase()`. */
  method SearchEmoji(catalog: seq<Entry>, query: string, lower: string, limit: int) returns (result: seq<Entry>)
    ensures result == Best(catalog, query, lower, limit)
  {
    if query == "" {
      return SliceTo(catalog, limit);
    }
    var shortcodePrefix, shortcodeSubstring, seen := ShortcodePass(catalog, lower);
    var aliasPrefix, aliasSubstring := AliasPass(catalog, lower, seen);
    BucketsAreTheSort(catalog, lower);
    return SliceTo(shortcodePrefix + shortcodeSubstring + aliasPrefix + aliasSubstring, limit);
  }

  method ShortcodePass(catalog: seq<Entry>, lower: string)
    returns (shortcodePrefix: seq<Entry>, shortcodeSubstring: seq<Entry>, seen: set<string>)
    ensures shortcodePrefix == OfRank(catalog, lower, 0) && shortcodeSubstring == OfRank(catalog, lower, 1)
    ensures forall i :: 0 <= i < |catalog| ==> (catalog[i].shortcode in seen <==> Rank(catalog[i], lower) <= 1)
  {
    shortcodePrefix, shortcodeSubstring, seen := [], [], {};
    for i := 0 to |catalog|
      invariant shortcodePrefix == OfRank(catalog[..i], lower, 0)
      invariant shortcodeSubstring == OfRank(catalog[..i], lower, 1)
      invariant forall j :: 0 <= j < i ==> (Rank(catalog[j], lower) <= 1 ==> catalog[j].shortcode in seen)
      invariant forall c :: c in seen ==> StartsWith(c, lower) || Includes(c, lower)
    {
      assert catalog[..i + 1][..i] == catalog[..i];
      var entry := catalog[i];
      if StartsWith(entry.shortcode, lower) {
        shortcodePrefix := shortcodePrefix + [entry];
        seen := seen + {entry.shortcode};
      } else if Includes(entry.shortcode, lower) {
        shortcodeSubstring := shortcodeSubstring + [entry];
        seen := seen + {entry.shortcode};
      }
    }
    assert catalog[..|catalog|] == catalog;
  }

  method AliasPass(catalog: seq<Entry>, lower: string, seen: set<string>)
    returns (aliasPrefix: seq<Entry>, aliasSubstring: seq<Entry>)
    requires forall i :: 0 <= i < |catalog| ==> (catalog[i].shortcode in seen <==> Rank(catalog[i], lower) <= 1)
    ensures aliasPrefix == OfRank(catalog, lower, 2) && aliasSubstring == OfRank(catalog, lower, 3)
  {
    aliasPrefix, aliasSubstring := [], [];
    for i := 0 to |catalog|
      invariant aliasPrefix == OfRank(catalog[..i], lower, 2)
      invariant aliasSubstring == OfRank(catalog[..i], lower, 3)
    {
      assert catalog[..i + 1][..i] == catalog[..i];
      var entry := catalog[i];
      if entry.shortcode !in seen {
        var sawPrefix, sawSubstring := ScanAliases(entry.aliases, lower);
        if sawPrefix {
          aliasPrefix := aliasPrefix + [entry];
        } else if sawSubstring {
          aliasSubstring := aliasSubstring + [entry];
        }
      }
    }
    assert catalog[..|catalog|] == catalog;
  }

  /** The inner loop, which stops at the first alias with the prefix. */
  method ScanAliases(aliases: seq<string>, lower: string) returns (sawPrefix: bool, sawSubstring: bool)
    ensures sawPrefix <==> exists i :: 0 <= i < |aliases| && StartsWith(aliases[i], lower)
    ensures !sawPrefix ==> (sawSubstring <==> exists i :: 0 <= i < |aliases| && Includes(aliases[i], lower))
  {
    sawPrefix, sawSubstring := false, false;
    for i := 0 to |aliases|
      invariant !sawPrefix && forall j :: 0 <= j < i ==> !StartsWith(aliases[j], lower)
      invariant sawSubstring <==> exists j :: 0 <= j < i && Includes(aliases[j], lower)
    {
      if StartsWith(aliases[i], lower) {
        sawPrefix := true;
        break;
      }
      if Includes(aliases[i], lower) {
        sawSubstring := true;
      }
    }
  }
}
