/** CES command strings: `<bundleDigest>/<profileName> [argv...]`. */
module CommandString {
  import opened Text

  datatype Command = Command(bundleDigest: string, profileName: string, argv: seq<string>)

  datatype Result = Ok(command: Command) | Err(error: Error)

  datatype Error = EmptyCommand | InvalidReference(ref: string)

  /** Length of the leading word of `s`. */
  function WordLength(s: string): (n: nat)
    ensures n <= |s|
    ensures forall i :: 0 <= i < n ==> !IsSpace(s[i])
    ensures n < |s| ==> IsSpace(s[n])
  {
    if s == "" || IsSpace(s[0]) then 0 else 1 + WordLength(s[1..])
  }

  /** `split(/\s+/)` without the empty pieces: the maximal words of `s`. */
  function Tokens(s: string): seq<string> {
    if s == "" then []
    else if IsSpace(s[0]) then Tokens(s[1..])
    else
      var n := WordLength(s);
      [s[..n]] + Tokens(s[n..])
  }

  /** The reference and the argument text of a trimmed command. */
  function CutAtSpace(trimmed: string): (string, string) {
    var space := IndexOf(trimmed, ' ');
    if space == -1 then (trimmed, "") else (trimmed[..space], Trim(trimmed[space + 1..]))
  }

  function ParseReference(ref: string, argv: seq<string>): Result {
    var slash := IndexOf(ref, '/');
    if slash == -1 || slash == 0 || slash == |ref| - 1 then Err(InvalidReference(ref))
    else Ok(Command(ref[..slash], ref[slash + 1..], argv))
  }

  function Parse(command: string): Result {
    var trimmed := Trim(command);
    if trimmed == "" then Err(EmptyCommand)
    else
      var (ref, argvStr) := CutAtSpace(trimmed);
      ParseReference(ref, Tokens(argvStr))
  }

  function Spaced(argv: seq<string>): string {
    if argv == [] then "" else " " + argv[0] + Spaced(argv[1..])
  }

  function Print(c: Command): string {
    c.bundleDigest + "/" + c.profileName + Spaced(c.argv)
  }

  predicate IsWord(t: string) {
    t != "" && forall i :: 0 <= i < |t| ==> !IsSpace(t[i])
  }

  /** The commands that survive printing: a digest free of '/' and ' ' that starts
      with no white space, a profile free of ' ' (and, when it comes last, not ending
      in white space), and words as arguments. */
  predicate WellFormed(c: Command) {
    && c.bundleDigest != "" && '/' !in c.bundleDigest && ' ' !in c.bundleDigest && !IsSpace(c.bundleDigest[0])
    && c.profileName != "" && ' ' !in c.profileName
    && (c.argv == [] ==> !IsSpace(c.profileName[|c.profileName| - 1]))
    && (forall i :: 0 <= i < |c.argv| ==> IsWord(c.argv[i]))
  }

  lemma {:induction false} LeadingWord(w: string, rest: string)
    requires forall i :: 0 <= i < |w| ==> !IsSpace(w[i])
    requires rest != "" ==> IsSpace(rest[0])
    ensures WordLength(w + rest) == |w|
  {
    if w == "" {
      assert w + rest == rest;
    } else {
      LeadingWord(w[1..], rest);
      assert (w + rest)[1..] == w[1..] + rest;
    }
  }

  lemma FirstToken(w: string, rest: string)
    requires IsWord(w) && (rest != "" ==> IsSpace(rest[0]))
    ensures Tokens(w + rest) == [w] + Tokens(rest)
  {
    hide IsSpace;
    LeadingWord(w, rest);
    assert (w + rest)[..|w|] == w && (w + rest)[|w|..] == rest;
    assert (w + rest)[0] == w[0];
  }

  lemma SkipSpace(s: string)
    requires s != "" && s[0] == ' '
    ensures Tokens(s) == Tokens(s[1..])
  {
  }

  /** Printing words and cutting at white space are inverse. */
  lemma {:induction false} TokensOfSpaced(argv: seq<string>)
    requires forall i :: 0 <= i < |argv| ==> IsWord(argv[i])
    ensures Tokens(Spaced(argv)) == argv
  {
    SpacedStep(argv);
    hide *;
    if argv != [] {
      var rest := Spaced(argv[1..]);
      TokensOfSpaced(argv[1..]);
      assert (" " + (argv[0] + rest))[1..] == argv[0] + rest;
      SkipSpace(" " + (argv[0] + rest));
      FirstToken(argv[0], rest);
      assert [argv[0]] + argv[1..] == argv;
    }
  }

  lemma SpacedStep(argv: seq<string>)
    ensures argv == [] ==> Spaced(argv) == "" && Tokens("") == []
    ensures argv != [] ==> Spaced(argv) == " " + (argv[0] + Spaced(argv[1..]))
    ensures argv != [] ==> var rest := Spaced(argv[1..]); rest != "" ==> IsSpace(rest[0])
  {
    assert IsSpace(' ');
    hide IsSpace, Tokens;
    if argv != [] {
      assert " " + argv[0] + Spaced(argv[1..]) == " " + (argv[0] + Spaced(argv[1..]));
    }
    NoTokens();
  }

  lemma NoTokens()
    ensures Tokens("") == []
  {
  }

  lemma {:induction false} SpacedEnds(argv: seq<string>)
    requires argv != [] && forall i :: 0 <= i < |argv| ==> IsWord(argv[i])
    ensures var s := Spaced(argv); |s| > 1 && s[0] == ' ' && !IsSpace(s[1]) && !IsSpace(s[|s| - 1])
  {
    hide IsSpace;
    var s := Spaced(argv);
    assert s[1] == argv[0][0];
    if |argv| == 1 {
      assert Spaced(argv[1..]) == "";
      assert s[|s| - 1] == argv[0][|argv[0]| - 1];
    } else {
      SpacedEnds(argv[1..]);
      var rest := Spaced(argv[1..]);
      assert s[|s| - 1] == rest[|rest| - 1];
    }
  }

  lemma {:induction false} TokensAreWords(s: string)
    ensures forall i :: 0 <= i < |Tokens(s)| ==> IsWord(Tokens(s)[i])
    ensures s != "" && !IsSpace(s[0]) ==> Tokens(s) != []
  {
    if s != "" {
      if IsSpace(s[0]) {
        TokensAreWords(s[1..]);
      } else {
        TokensAreWords(s[WordLength(s)..]);
      }
    }
  }

  lemma SplitReference(digest: string, profile: string)
    requires '/' !in digest
    ensures var ref := digest + "/" + profile;
            IndexOf(ref, '/') == |digest| && ref[..|digest|] == digest && ref[|digest| + 1..] == profile
  {
    var ref := digest + "/" + profile;
    assert ref[..|digest|] == digest;
    IndexOfUnique(ref, '/', |digest|);
  }

  lemma PrintedEnds(c: Command)
    requires WellFormed(c)
    ensures Print(c) != "" && IsTrimmed(Print(c))
  {
    hide IsSpace;
    var text := Print(c);
    assert text[0] == c.bundleDigest[0];
    if c.argv == [] {
      assert text[|text| - 1] == c.profileName[|c.profileName| - 1];
    } else {
      SpacedEnds(c.argv);
      var spaced := Spaced(c.argv);
      assert text[|text| - 1] == spaced[|spaced| - 1];
    }
  }

  /** Print, then parse: every well-formed command comes back. */
  lemma ParsePrinted(c: Command)
    requires WellFormed(c)
    ensures Parse(Print(c)) == Ok(c)
  {
    hide IsSpace, Trim, Tokens, Spaced, IndexOf, CutAtSpace, ParseReference;
    var ref := c.bundleDigest + "/" + c.profileName;
    PrintedEnds(c);
    CutPrinted(ref, c.argv);
    ParseSlashed(c.bundleDigest, c.profileName, c.argv);
  }

  lemma ParseSlashed(digest: string, profile: string, argv: seq<string>)
    requires digest != "" && profile != "" && '/' !in digest
    ensures ParseReference(digest + "/" + profile, argv) == Ok(Command(digest, profile, argv))
  {
    hide IndexOf;
    SplitReference(digest, profile);
  }

  lemma CutPrinted(ref: string, argv: seq<string>)
    requires ' ' !in ref && forall i :: 0 <= i < |argv| ==> IsWord(argv[i])
    ensures var (r, argvStr) := CutAtSpace(ref + Spaced(argv)); r == ref && Tokens(argvStr) == argv
  {
    hide *;
    var spaced := Spaced(argv);
    TokensOfSpaced(argv);
    SpacedStep(argv);
    if argv == [] {
      assert ref + spaced == ref;
      CutUnspaced(ref);
    } else {
      SpacedEnds(argv);
      CutSpaced(ref, spaced);
      SkipSpace(spaced);
    }
  }

  lemma CutUnspaced(ref: string)
    requires ' ' !in ref
    ensures CutAtSpace(ref) == (ref, "")
  {
  }

  lemma CutSpaced(ref: string, spaced: string)
    requires ' ' !in ref && |spaced| > 1 && spaced[0] == ' ' && !IsSpace(spaced[1]) && !IsSpace(spaced[|spaced| - 1])
    ensures CutAtSpace(ref + spaced) == (ref, spaced[1..])
  {
    hide IsSpace, Trim, IndexOf;
    var text := ref + spaced;
    assert text[..|ref|] == ref && text[|ref| + 1..] == spaced[1..];
    IndexOfUnique(text, ' ', |ref|);
  }

  lemma SliceOmits(s: string, c: char, lo: nat, hi: nat)
    requires lo <= hi <= |s| && c !in s
    ensures c !in s[lo..hi]
  {
  }

  lemma CutFacts(trimmed: string)
    requires trimmed != "" && IsTrimmed(trimmed)
    ensures var (ref, argvStr) := CutAtSpace(trimmed);
            && ref != "" && ' ' !in ref && !IsSpace(ref[0])
            && (argvStr == "" ==> !IsSpace(ref[|ref| - 1]))
            && (argvStr != "" ==> !IsSpace(argvStr[0]))
  {
    assert IsSpace(' ');
    hide IsSpace, Trim, IndexOf;
    var space := IndexOf(trimmed, ' ');
    if space != -1 {
      var rest := trimmed[space + 1..];
      assert rest != "" && rest[|rest| - 1] == trimmed[|trimmed| - 1];
      TrimKeepsEnd(rest);
    }
  }

  lemma ReferenceIsWellFormed(ref: string, argv: seq<string>)
    requires ref != "" && ' ' !in ref && !IsSpace(ref[0]) && (argv == [] ==> !IsSpace(ref[|ref| - 1]))
    requires forall i :: 0 <= i < |argv| ==> IsWord(argv[i])
    requires ParseReference(ref, argv).Ok?
    ensures WellFormed(ParseReference(ref, argv).command)
  {
    hide IsSpace, IsWord, IndexOf;
    var slash := IndexOf(ref, '/');
    SliceOmits(ref, ' ', 0, slash);
    SliceOmits(ref, ' ', slash + 1, |ref|);
  }

  lemma ParseIs(s: string)
    ensures Parse(s) == if Trim(s) == "" then Err(EmptyCommand)
                        else ParseReference(CutAtSpace(Trim(s)).0, Tokens(CutAtSpace(Trim(s)).1))
  {
  }

  /** Whatever the parser accepts is well formed. */
  lemma {:induction false} ParsedIsWellFormed(s: string)
    requires Parse(s).Ok?
    ensures WellFormed(Parse(s).command)
  {
    hide *;
    ParseIs(s);
    var trimmed := Trim(s);
    CutFacts(trimmed);
    var (ref, argvStr) := CutAtSpace(trimmed);
    TokensAreWords(argvStr);
    ReferenceIsWellFormed(ref, Tokens(argvStr));
  }

  lemma TrimKeepsEnd(s: string)
    requires s != "" && !IsSpace(s[|s| - 1])
    ensures Trim(s) != ""
  {
  }

  /** So a command survives printing exactly when it is well formed. */
  lemma {:induction false} SurvivesPrinting(c: Command)
    ensures Parse(Print(c)) == Ok(c) <==> WellFormed(c)
  {
    hide *;
    if WellFormed(c) {
      ParsePrinted(c);
    }
    if Parse(Print(c)) == Ok(c) {
      ParsedIsWellFormed(Print(c));
    }
  }

  /** Hence parse after print after parse changes nothing, for every accepted input. */
  lemma {:induction false} ParseIsStable(s: string)
    requires Parse(s).Ok?
    ensures Parse(Print(Parse(s).command)) == Parse(s)
  {
    ParsedIsWellFormed(s);
    ParsePrinted(Parse(s).command);
  }

  /** Each argument after a gap of its own. */
  function Gapped(gaps: seq<string>, argv: seq<string>): string
    requires |gaps| == |argv|
  {
    if argv == [] then "" else gaps[0] + argv[0] + Gapped(gaps[1..], argv[1..])
  }

  predicate IsGap(gap: string) {
    gap != "" && IsBlank(gap)
  }

  lemma {:induction false} SkipGap(gap: string, s: string)
    requires IsBlank(gap)
    ensures Tokens(gap + s) == Tokens(s)
  {
    hide IsSpace;
    if gap == "" {
      assert gap + s == s;
    } else {
      assert (gap + s)[1..] == gap[1..] + s;
      SkipGap(gap[1..], s);
    }
  }

  lemma GappedStep(gaps: seq<string>, argv: seq<string>)
    requires |gaps| == |argv| && forall i :: 0 <= i < |gaps| ==> IsGap(gaps[i])
    ensures argv == [] ==> Gapped(gaps, argv) == ""
    ensures argv != [] ==> Gapped(gaps, argv) == gaps[0] + (argv[0] + Gapped(gaps[1..], argv[1..]))
    ensures |argv| > 0 ==>
              && Gapped(gaps, argv) != "" && gaps[0] != ""
              && Gapped(gaps, argv)[0] == gaps[0][0] && IsSpace(gaps[0][0])
  {
    hide IsSpace;
    if argv != [] {
      assert gaps[0] + argv[0] + Gapped(gaps[1..], argv[1..]) == gaps[0] + (argv[0] + Gapped(gaps[1..], argv[1..]));
    }
  }

  /** White space of any kind and width separates arguments. */
  lemma {:induction false} TokensOfGapped(gaps: seq<string>, argv: seq<string>)
    requires |gaps| == |argv| && forall i :: 0 <= i < |argv| ==> IsGap(gaps[i]) && IsWord(argv[i])
    ensures Tokens(Gapped(gaps, argv)) == argv
  {
    GappedStep(gaps, argv);
    NoTokens();
    if argv != [] {
      var rest := Gapped(gaps[1..], argv[1..]);
      TokensOfGapped(gaps[1..], argv[1..]);
      GappedStep(gaps[1..], argv[1..]);
      hide Tokens, IsSpace, Gapped;
      SkipGap(gaps[0], argv[0] + rest);
      FirstToken(argv[0], rest);
      assert [argv[0]] + argv[1..] == argv;
    }
  }

  lemma {:induction false} GappedEnds(gaps: seq<string>, argv: seq<string>)
    requires argv != [] && |gaps| == |argv| && forall i :: 0 <= i < |argv| ==> IsGap(gaps[i]) && IsWord(argv[i])
    ensures var s := Gapped(gaps, argv); s != "" && !IsSpace(s[|s| - 1])
  {
    hide IsSpace;
    GappedStep(gaps, argv);
    var rest := Gapped(gaps[1..], argv[1..]);
    if |argv| > 1 {
      GappedEnds(gaps[1..], argv[1..]);
    } else {
      assert argv[0] + rest == argv[0];
    }
  }

  lemma {:induction false} TokensBeforeBlank(s: string, after: string)
    requires IsBlank(after)
    ensures Tokens(s + after) == Tokens(s)
  {
    hide IsSpace;
    if s == "" {
      SkipGap(after, "");
      assert s + after == after && after + "" == after;
    } else if IsSpace(s[0]) {
      TokensBeforeBlank(s[1..], after);
      assert (s + after)[1..] == s[1..] + after;
    } else {
      var w, rest := s[..WordLength(s)], s[WordLength(s)..];
      assert w + rest == s && w + (rest + after) == s + after;
      FirstToken(w, rest + after);
      TokensBeforeBlank(rest, after);
    }
  }

  lemma {:induction false} TokensOfTrimmed(s: string)
    ensures Tokens(Trim(s)) == Tokens(s)
  {
    hide *;
    var before, after := TrimCutsBlankEnds(s);
    SkipGap(before, Trim(s) + after);
    TokensBeforeBlank(Trim(s), after);
    assert before + Trim(s) + after == before + (Trim(s) + after);
  }

  /** The text of a command, with any white space around it and between its arguments, as
      long as a space follows the reference, parses to that command. */
  lemma ParseGapped(before: string, c: Command, gaps: seq<string>, after: string)
    requires WellFormed(c) && IsBlank(before) && IsBlank(after)
    requires |gaps| == |c.argv| && (forall i :: 0 <= i < |gaps| ==> IsGap(gaps[i]))
             && (|gaps| > 0 ==> gaps[0] != "" && gaps[0][0] == ' ')
    ensures Parse(before + (c.bundleDigest + "/" + c.profileName + Gapped(gaps, c.argv)) + after) == Ok(c)
  {
    hide *;
    var ref := c.bundleDigest + "/" + c.profileName;
    var text := ref + Gapped(gaps, c.argv);
    GappedIsTrimmed(c, gaps);
    TrimOfPadded(before, text, after);
    ParseIs(before + text + after);
    WellFormedIs(c);
    ParseSlashed(c.bundleDigest, c.profileName, c.argv);
    CutGapped(ref, gaps, c.argv);
  }

  lemma WellFormedIs(c: Command)
    requires WellFormed(c)
    ensures c.bundleDigest != "" && c.profileName != "" && '/' !in c.bundleDigest
    ensures ' ' !in c.bundleDigest + "/" + c.profileName
    ensures forall i :: 0 <= i < |c.argv| ==> IsWord(c.argv[i])
  {
  }

  lemma GappedIsTrimmed(c: Command, gaps: seq<string>)
    requires WellFormed(c) && |gaps| == |c.argv| && forall i :: 0 <= i < |gaps| ==> IsGap(gaps[i])
    ensures var text := c.bundleDigest + "/" + c.profileName + Gapped(gaps, c.argv); text != "" && IsTrimmed(text)
  {
    hide IsSpace;
    var spaced := Gapped(gaps, c.argv);
    var text := c.bundleDigest + "/" + c.profileName + spaced;
    assert text[0] == c.bundleDigest[0];
    if c.argv == [] {
      assert text[|text| - 1] == c.profileName[|c.profileName| - 1];
    } else {
      GappedEnds(gaps, c.argv);
      assert text[|text| - 1] == spaced[|spaced| - 1];
    }
  }

  lemma CutGapped(ref: string, gaps: seq<string>, argv: seq<string>)
    requires ' ' !in ref && |gaps| == |argv| && (gaps != [] ==> gaps[0] != "" && gaps[0][0] == ' ')
    requires forall i :: 0 <= i < |argv| ==> IsGap(gaps[i]) && IsWord(argv[i])
    ensures var (r, argvStr) := CutAtSpace(ref + Gapped(gaps, argv)); r == ref && Tokens(argvStr) == argv
  {
    hide *;
    var spaced := Gapped(gaps, argv);
    GappedStep(gaps, argv);
    TokensOfGapped(gaps, argv);
    if argv == [] {
      assert ref + spaced == ref;
      CutUnspaced(ref);
    } else {
      var text := ref + spaced;
      assert spaced[0] == ' ' && text[..|ref|] == ref && text[|ref| + 1..] == spaced[1..];
      CutAtFirstSpace(text, |ref|);
      TokensOfTrimmed(spaced[1..]);
      SkipSpace(spaced);
    }
  }

  lemma CutAtFirstSpace(text: string, k: nat)
    requires k < |text| && text[k] == ' ' && ' ' !in text[..k]
    ensures CutAtSpace(text) == (text[..k], Trim(text[k + 1..]))
  {
    hide IsSpace, Trim, IndexOf;
    IndexOfUnique(text, ' ', k);
  }

  /** No digest or no profile around the first '/'. */
  predicate IsBadReference(ref: string) {
    '/' !in ref || ref[0] == '/' || '/' !in ref[..|ref| - 1]
  }

  /** The refusals, for every input: nothing but white space, or a leading piece (up to the
      first space after leading white space) that is no reference. */
  lemma {:induction false} RefusedExactly(s: string) returns (ref: string)
    ensures Parse(s) == Err(EmptyCommand) <==> IsBlank(s)
    ensures !IsBlank(s) ==>
              && ref != "" && ' ' !in ref && ref <= Trim(s) && (ref == Trim(s) || Trim(s)[|ref|] == ' ')
              && Parse(s).Ok? == !IsBadReference(ref)
              && (IsBadReference(ref) ==> Parse(s) == Err(InvalidReference(ref)))
  {
    hide *;
    ParseIs(s);
    EmptyTrimMeansBlank(s);
    ref := CutAtSpace(Trim(s)).0;
    if !IsBlank(s) {
      CutFacts(Trim(s));
      CutIsPrefix(Trim(s));
      BadReferenceRefused(ref, Tokens(CutAtSpace(Trim(s)).1));
    }
  }

  lemma EmptyTrimMeansBlank(s: string)
    ensures Trim(s) == "" <==> IsBlank(s)
  {
    hide IsSpace, Trim;
    var before, after := TrimCutsBlankEnds(s);
    if IsBlank(s) {
      TrimOfPadded(s, "", "");
      assert s + "" + "" == s;
    }
    if Trim(s) == "" {
      BlankJoins(before, after);
      assert before + "" + after == before + after;
    }
  }

  lemma BlankJoins(s: string, t: string)
    requires IsBlank(s) && IsBlank(t)
    ensures IsBlank(s + t)
  {
  }

  lemma CutIsPrefix(trimmed: string)
    ensures var ref := CutAtSpace(trimmed).0; ref <= trimmed && (ref == trimmed || trimmed[|ref|] == ' ')
  {
    hide IsSpace, Trim, IndexOf;
  }

  lemma BadReferenceRefused(ref: string, argv: seq<string>)
    requires ref != ""
    ensures ParseReference(ref, argv).Ok? == !IsBadReference(ref)
    ensures IsBadReference(ref) ==> ParseReference(ref, argv) == Err(InvalidReference(ref))
  {
    hide IndexOf;
    var slash := IndexOf(ref, '/');
    if slash == |ref| - 1 {
      assert ref[..|ref| - 1] == ref[..slash];
    }
  }
}
