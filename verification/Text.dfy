/** The JavaScript string operations the modelled code leans on. */
module Text {

  /** What `trim()` and `\s` take for white space. */
  predicate IsSpace(c: char) {
    var n := c as int;
    || 9 <= n <= 13 || n == 0x20 || n == 0xA0 || n == 0x1680 || 0x2000 <= n <= 0x200A
    || n == 0x2028 || n == 0x2029 || n == 0x202F || n == 0x205F || n == 0x3000 || n == 0xFEFF
  }

  /** `indexOf` of one character, with -1 for "absent". */
  function IndexOf(s: string, c: char): (r: int)
    ensures -1 <= r < |s|
    ensures r == -1 <==> c !in s
    ensures r >= 0 ==> s[r] == c && c !in s[..r]
  {
    if s == "" then -1
    else if s[0] == c then 0
    else
      var r := IndexOf(s[1..], c);
      if r == -1 then -1
      else
        assert s[..r + 1] == [s[0]] + s[1..][..r];
        r + 1
  }

  lemma {:induction false} IndexOfUnique(s: string, c: char, k: nat)
    requires k < |s| && s[k] == c && c !in s[..k]
    ensures IndexOf(s, c) == k
  {
    if k > 0 {
      assert s[..k][0] == s[0] && s[..k][1..] == s[1..][..k - 1];
      IndexOfUnique(s[1..], c, k - 1);
    }
  }

  /** No white space at either end. */
  predicate IsTrimmed(s: string) {
    s != "" ==> !IsSpace(s[0]) && !IsSpace(s[|s| - 1])
  }

  function TrimStart(s: string): (r: string)
    ensures r != "" ==> !IsSpace(r[0])
    ensures s != "" && !IsSpace(s[|s| - 1]) ==> r != "" && r[|r| - 1] == s[|s| - 1]
    ensures s != "" && !IsSpace(s[0]) ==> r == s
  {
    if s != "" && IsSpace(s[0]) then TrimStart(s[1..]) else s
  }

  function TrimEnd(s: string): (r: string)
    ensures r != "" ==> !IsSpace(r[|r| - 1])
    ensures s != "" && !IsSpace(s[0]) ==> r != "" && r[0] == s[0]
    ensures s != "" && !IsSpace(s[|s| - 1]) ==> r == s
  {
    if s != "" && IsSpace(s[|s| - 1]) then TrimEnd(s[..|s| - 1]) else s
  }

  function Trim(s: string): (r: string)
    ensures IsTrimmed(r)
    ensures IsTrimmed(s) ==> r == s
  {
    TrimEnd(TrimStart(s))
  }

  predicate IsBlank(s: string) {
    forall i :: 0 <= i < |s| ==> IsSpace(s[i])
  }

  lemma {:induction false} TrimStartSkips(before: string, s: string)
    requires IsBlank(before)
    ensures TrimStart(before + s) == TrimStart(s)
  {
    hide IsSpace;
    if before == "" {
      assert before + s == s;
    } else {
      TrimStartSkips(before[1..], s);
      assert (before + s)[1..] == before[1..] + s;
    }
  }

  lemma {:induction false} TrimEndSkips(s: string, after: string)
    requires IsBlank(after)
    ensures TrimEnd(s + after) == TrimEnd(s)
  {
    hide IsSpace;
    if after == "" {
      assert s + after == s;
    } else {
      var init := after[..|after| - 1];
      TrimEndSkips(s, init);
      assert (s + after)[..|s + after| - 1] == s + init;
    }
  }

  /** Exactly the white space at both ends goes: `Trim` undoes any blank ends. */
  lemma TrimOfPadded(before: string, s: string, after: string)
    requires IsBlank(before) && IsBlank(after) && IsTrimmed(s)
    ensures Trim(before + s + after) == s
  {
    hide IsSpace;
    assert before + s + after == before + (s + after);
    TrimStartSkips(before, s + after);
    if s == "" {
      assert s + after == after && after + "" == after;
      TrimStartSkips(after, "");
    } else {
      assert (s + after)[0] == s[0];
      TrimEndSkips(s, after);
    }
  }

  lemma {:induction false} TrimStartCuts(s: string) returns (n: nat)
    ensures n <= |s| && IsBlank(s[..n]) && TrimStart(s) == s[n..]
  {
    hide IsSpace;
    n := 0;
    if s != "" && IsSpace(s[0]) {
      var m := TrimStartCuts(s[1..]);
      n := m + 1;
      assert s[..n] == [s[0]] + s[1..][..m];
    }
  }

  lemma {:induction false} TrimEndCuts(s: string) returns (n: nat)
    ensures n <= |s| && IsBlank(s[n..]) && TrimEnd(s) == s[..n]
  {
    hide IsSpace;
    n := |s|;
    if s != "" && IsSpace(s[|s| - 1]) {
      var init := s[..|s| - 1];
      n := TrimEndCuts(init);
      assert s[n..] == init[n..] + [s[|s| - 1]];
    }
  }

  /** And every string is its trimmed self between blank ends. */
  lemma TrimCutsBlankEnds(s: string) returns (before: string, after: string)
    ensures s == before + Trim(s) + after && IsBlank(before) && IsBlank(after)
  {
    var i := TrimStartCuts(s);
    var j := TrimEndCuts(s[i..]);
    before, after := s[..i], s[i..][j..];
    hide IsSpace, TrimStart, TrimEnd, IsBlank;
    assert s[i..] == s[i..][..j] + after;
    assert s == before + s[i..];
  }
}
