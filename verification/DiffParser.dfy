/** The unified-diff reader of the generic-examples check: from the text of a diff
    to the added lines, each with its file, its line number there and the line before it. */
module DiffParser {
  import opened Text

  datatype AddedLine = AddedLine(file: string, line: nat, content: string, previousContent: string)

  // ---------------------------------------------------------------- The parser

  /** The parser's variables; `file` is empty outside any file it follows. */
  datatype State = State(
    file: string,
    number: nat,
    recent: map<string, map<int, string>>,
    added: seq<AddedLine>)

  type Parser = p: State | p.file != "" ==> p.file in p.recent witness State("", 0, map[], [])

  const START: Parser := State("", 0, map[], [])

  predicate IsDigit(c: char) {
    '0' <= c <= '9'
  }

  /** What `.` does not match. */
  predicate IsLineTerminator(c: char) {
    c == '\n' || c == '\r' || c as int == 0x2028 || c as int == 0x2029
  }

  predicate IsPlainName(name: string) {
    name != "" && forall i :: 0 <= i < |name| ==> !IsLineTerminator(name[i])
  }

  /** The file of a `+++ b/...` line, or "" for any other header. */
  function HeaderFile(raw: string): string {
    if "+++ b/" <= raw && IsPlainName(raw[6..]) then raw[6..] else ""
  }

  function DigitCount(s: string): (n: nat)
    ensures n <= |s|
    ensures forall i :: 0 <= i < n ==> IsDigit(s[i])
  {
    if s == "" || !IsDigit(s[0]) then 0 else 1 + DigitCount(s[1..])
  }

  /** The number that a string of digits denotes. */
  function Value(digits: string): nat
    requires forall i :: 0 <= i < |digits| ==> IsDigit(digits[i])
  {
    if digits == "" then 0
    else
      assert IsDigit(digits[|digits| - 1]);
      10 * Value(digits[..|digits| - 1]) + (digits[|digits| - 1] as int - '0' as int)
  }

  datatype Range = NoRange | Range(first: nat, rest: string)

  /** A range `\d+(?:,\d+)?` at the head of `s`: its first number and what follows. */
  function ReadRange(s: string): Range {
    var n := DigitCount(s);
    var rest := s[n..];
    if n == 0 then NoRange
    else if "," <= rest then
      var m := DigitCount(rest[1..]);
      if m == 0 then NoRange else Range(Value(s[..n]), rest[1 + m..])
    else Range(Value(s[..n]), rest)
  }

  datatype HunkStart = NoMatch | At(number: nat)

  /** The new-file start that a hunk header `@@ -... +... @@` announces. */
  function ReadHunkHeader(raw: string): HunkStart {
    if !("@@ -" <= raw) then NoMatch
    else
      var before := ReadRange(raw[4..]);
      if before.NoRange? || !(" +" <= before.rest) then NoMatch
      else
        var after := ReadRange(before.rest[2..]);
        if after.NoRange? || !(" @@" <= after.rest) then NoMatch
        else At(after.first)
  }

  function PreviousContent(p: Parser): string
    requires p.file != ""
  {
    if p.number - 1 in p.recent[p.file] then p.recent[p.file][p.number - 1] else ""
  }

  /** The current line of the current file reads `content`; on to the next. */
  function Advance(p: Parser, content: string): Parser
    requires p.file != ""
  {
    p.(recent := p.recent[p.file := p.recent[p.file][p.number := content]], number := p.number + 1)
  }

  function EnterFile(p: Parser, file: string): Parser {
    p.(file := file, recent := if file != "" && file !in p.recent then p.recent[file := map[]] else p.recent)
  }

  function Step(p: Parser, raw: string): Parser {
    if "+++ " <= raw then EnterFile(p, HeaderFile(raw))
    else if "@@" <= raw then
      match ReadHunkHeader(raw)
      case At(n) => p.(number := n)
      case NoMatch => p
    else if p.file == "" then p
    else if "+" <= raw && !("+++" <= raw) then
      var next := Advance(p, raw[1..]);
      next.(added := p.added + [AddedLine(p.file, p.number, raw[1..], PreviousContent(p))])
    else if "-" <= raw && !("---" <= raw) then p
    else if " " <= raw then Advance(p, raw[1..])
    else p
  }

  function ParseLines(lines: seq<string>): Parser {
    if lines == [] then START else Step(ParseLines(lines[..|lines| - 1]), lines[|lines| - 1])
  }

  /** `split("\n")`. */
  function SplitLines(s: string): (lines: seq<string>)
    ensures lines != []
  {
    var newline := IndexOf(s, '\n');
    if newline == -1 then [s] else [s[..newline]] + SplitLines(s[newline + 1..])
  }

  function Parse(diff: string): seq<AddedLine> {
    ParseLines(SplitLines(diff)).added
  }

  /** The loop over the lines, with its mutable variables. */
  method ParseUnifiedDiff(diff: string) returns (added: seq<AddedLine>)
    ensures added == Parse(diff)
  {
    hide HeaderFile, ReadHunkHeader, IndexOf, SplitLines;
    added := [];
    var currentFile := "";
    var currentNewLine: nat := 0;
    var recentContentByFile: map<string, map<int, string>> := map[];
    var lines := SplitLines(diff);
    for i := 0 to |lines|
      invariant currentFile != "" ==> currentFile in recentContentByFile
      invariant ParseLines(lines[..i]) == State(currentFile, currentNewLine, recentContentByFile, added)
    {
      assert lines[..i + 1][..i] == lines[..i];
      var raw := lines[i];
      if "+++ " <= raw {
        currentFile := HeaderFile(raw);
        if currentFile != "" && currentFile !in recentContentByFile {
          recentContentByFile := recentContentByFile[currentFile := map[]];
        }
        continue;
      }
      if "@@" <= raw {
        match ReadHunkHeader(raw) {
          case At(n) => currentNewLine := n;
          case NoMatch =>
        }
        continue;
      }
      if currentFile == "" {
        continue;
      }
      if "+" <= raw && !("+++" <= raw) {
        var content := raw[1..];
        var recent := recentContentByFile[currentFile];
        var previousContent := if currentNewLine - 1 in recent then recent[currentNewLine - 1] else "";
        recentContentByFile := recentContentByFile[currentFile := recent[currentNewLine := content]];
        added := added + [AddedLine(currentFile, currentNewLine, content, previousContent)];
        currentNewLine := currentNewLine + 1;
      } else if "-" <= raw && !("---" <= raw) {
      } else if " " <= raw {
        var recent := recentContentByFile[currentFile];
        recentContentByFile := recentContentByFile[currentFile := recent[currentNewLine := raw[1..]]];
        currentNewLine := currentNewLine + 1;
      }
    }
    assert lines[..|lines|] == lines;
  }

  // ---------------------------------------------------------------- Diffs and their text

  datatype Length = Omitted | Length(n: nat)

  /** A line of a diff, with what it means. `Inert` lines are the ones git writes around
      files and hunks (`diff --git`, `index`, `--- a/...`, `\ No newline at end of file`).
      `OtherHeader` is a `+++` line that names no `b/` file: a deleted or a quoted one. */
  datatype DiffLine =
    | Inert(text: string)
    | FileHeader(name: string)
    | OtherHeader(text: string)
    | HunkHeader(oldStart: nat, oldLength: Length, newStart: nat, newLength: Length, heading: string)
    | Added(text: string)
    | Removed(text: string)
    | Context(text: string)

  function Digit(n: nat): (c: char)
    requires n < 10
    ensures IsDigit(c) && c as int - '0' as int == n
  {
    ('0' as int + n) as char
  }

  function Decimal(n: nat): string {
    (if n < 10 then "" else Decimal(n / 10)) + [Digit(n % 10)]
  }

  function RenderRange(start: nat, length: Length): string {
    Decimal(start) + if length.Omitted? then "" else "," + Decimal(length.n)
  }

  function RenderLine(line: DiffLine): string {
    match line
    case Inert(text) => text
    case FileHeader(name) => "+++ b/" + name
    case OtherHeader(text) => "+++ " + text
    case HunkHeader(oldStart, oldLength, newStart, newLength, heading) =>
      "@@ -" + (RenderRange(oldStart, oldLength) + (" +" + (RenderRange(newStart, newLength) + (" @@" + heading))))
    case Added(text) => "+" + text
    case Removed(text) => "-" + text
    case Context(text) => " " + text
  }

  function RenderLines(d: seq<DiffLine>): seq<string> {
    if d == [] then [] else RenderLines(d[..|d| - 1]) + [RenderLine(d[|d| - 1])]
  }

  /** Every line ended by a newline. */
  function Unlines(lines: seq<string>): string {
    if lines == [] then "" else lines[0] + "\n" + Unlines(lines[1..])
  }

  function Render(d: seq<DiffLine>): string {
    Unlines(RenderLines(d))
  }

  // ---------------------------------------------------------------- What a diff means

  /** Where in the new tree the next line of a diff stands. */
  datatype Cursor = Cursor(file: string, position: Position)

  datatype Position = Unknown | Line(n: nat)

  function Move(c: Cursor, line: DiffLine): Cursor {
    match line
    case FileHeader(name) => Cursor(name, Unknown)
    case OtherHeader(_) => Cursor("", Unknown)
    case HunkHeader(_, _, newStart, _, _) => c.(position := Line(newStart))
    case Added(_) | Context(_) => if c.position.Line? then c.(position := Line(c.position.n + 1)) else c
    case _ => c
  }

  function CursorAfter(d: seq<DiffLine>): Cursor {
    if d == [] then Cursor("", Unknown) else Move(CursorAfter(d[..|d| - 1]), d[|d| - 1])
  }

  /** The new tree: the lines of every file, the first one at index 0. */
  type Tree = map<string, seq<string>>

  predicate IsLineOf(tree: Tree, file: string, n: int, text: string) {
    file in tree && 1 <= n <= |tree[file]| && tree[file][n - 1] == text
  }

  /** A line of a diff against `tree` at cursor `c`: new-side lines stand in a hunk and
      show the tree. In a file the parser does not follow, no added text may complete
      a `+++ ` line. */
  predicate LineFits(tree: Tree, c: Cursor, line: DiffLine) {
    && '\n' !in RenderLine(line)
    && match line
       case Inert(text) => text == "" || text[0] !in "+@ "
       case FileHeader(name) => IsPlainName(name)
       case OtherHeader(text) => !("b/" <= text)
       case Added(text) =>
         && c.position.Line?
         && if c.file == "" then !("++ " <= text) else IsLineOf(tree, c.file, c.position.n, text)
       case Context(text) => c.position.Line? && (c.file != "" ==> IsLineOf(tree, c.file, c.position.n, text))
       case _ => true
  }

  predicate IsDiffOf(tree: Tree, d: seq<DiffLine>) {
    d == [] || (IsDiffOf(tree, d[..|d| - 1]) && LineFits(tree, CursorAfter(d[..|d| - 1]), d[|d| - 1]))
  }

  /** A new-file line that a diff shows, as context or as an addition. */
  datatype Shown = Shown(file: string, n: nat, isNew: bool)

  function ShownBy(c: Cursor, line: DiffLine): seq<Shown> {
    if c.file != "" && c.position.Line? && (line.Added? || line.Context?)
    then [Shown(c.file, c.position.n, line.Added?)] else []
  }

  function ShownLines(d: seq<DiffLine>): seq<Shown> {
    if d == [] then [] else ShownLines(d[..|d| - 1]) + ShownBy(CursorAfter(d[..|d| - 1]), d[|d| - 1])
  }

  predicate WasShown(shown: seq<Shown>, file: string, n: int) {
    exists j :: 0 <= j < |shown| && shown[j].file == file && shown[j].n == n
  }

  function LineText(tree: Tree, file: string, n: int): string {
    if file in tree && 1 <= n <= |tree[file]| then tree[file][n - 1] else ""
  }

  /** What a reader of the diff must report: every new line of the tree in order, under its
      file and true number, with the line above it if the diff has shown that one already. */
  function Report(tree: Tree, shown: seq<Shown>): seq<AddedLine> {
    if shown == [] then []
    else
      var before, s := shown[..|shown| - 1], shown[|shown| - 1];
      Report(tree, before) +
      if s.isNew then
        [AddedLine(s.file, s.n, LineText(tree, s.file, s.n),
                   if WasShown(before, s.file, s.n - 1) then LineText(tree, s.file, s.n - 1) else "")]
      else []
  }

  // ---------------------------------------------------------------- Numbers and headers

  lemma ValueStep(front: string, c: char)
    requires IsDigit(c) && forall i :: 0 <= i < |front| ==> IsDigit(front[i])
    ensures forall i :: 0 <= i < |front + [c]| ==> IsDigit((front + [c])[i])
    ensures Value(front + [c]) == 10 * Value(front) + (c as int - '0' as int)
  {
    assert (front + [c])[..|front|] == front;
  }

  lemma {:induction false} ValueOfDecimal(n: nat)
    ensures Decimal(n) != "" && forall i :: 0 <= i < |Decimal(n)| ==> IsDigit(Decimal(n)[i])
    ensures Value(Decimal(n)) == n
  {
    var front := if n < 10 then "" else Decimal(n / 10);
    assert Decimal(n) == front + [Digit(n % 10)];
    if n < 10 {
      assert Value(front) == 0;
    } else {
      ValueOfDecimal(n / 10);
    }
    hide Digit, IsDigit, Value, Decimal;
    ValueStep(front, Digit(n % 10));
  }

  lemma {:induction false} CountDigits(digits: string, rest: string)
    requires forall i :: 0 <= i < |digits| ==> IsDigit(digits[i])
    requires rest != "" ==> !IsDigit(rest[0])
    ensures DigitCount(digits + rest) == |digits|
  {
    if digits == "" {
      assert digits + rest == rest;
    } else {
      CountDigits(digits[1..], rest);
      assert (digits + rest)[1..] == digits[1..] + rest;
    }
  }

  lemma ReadRendered(start: nat, length: Length, rest: string)
    requires rest != "" && !IsDigit(rest[0]) && rest[0] != ','
    ensures ReadRange(RenderRange(start, length) + rest) == Range(start, rest)
  {
    hide Decimal, Value, DigitCount;
    var digits := Decimal(start);
    ValueOfDecimal(start);
    var tail := if length.Omitted? then rest else "," + (Decimal(length.n) + rest);
    var text := RenderRange(start, length) + rest;
    assert text == digits + tail;
    CountDigits(digits, tail);
    assert text[..|digits|] == digits && text[|digits|..] == tail;
    if length.Length? {
      var more := Decimal(length.n);
      ValueOfDecimal(length.n);
      CountDigits(more, rest);
      assert tail[1..] == more + rest;
      assert tail[1 + |more|..] == rest;
    }
  }

  lemma {:induction false} ReadRenderedHunk(line: DiffLine)
    requires line.HunkHeader?
    ensures ReadHunkHeader(RenderLine(line)) == At(line.newStart)
  {
    hide ReadRange, RenderRange;
    var tail := " @@" + line.heading;
    var new_ := RenderRange(line.newStart, line.newLength) + tail;
    var middle := " +" + new_;
    var old_ := RenderRange(line.oldStart, line.oldLength) + middle;
    var raw := RenderLine(line);
    assert raw[4..] == old_;
    ReadRendered(line.oldStart, line.oldLength, middle);
    assert middle[2..] == new_;
    ReadRendered(line.newStart, line.newLength, tail);
  }

  lemma PrefixBehind(head: string, prefix: string, text: string)
    ensures head + prefix <= head + text <==> prefix <= text
  {
    if prefix <= text {
      assert head + text[..|prefix|] == (head + text)[..|head| + |prefix|];
    }
    if head + prefix <= head + text {
      assert prefix == (head + prefix)[|head|..] == (head + text)[|head|..][..|prefix|];
    }
  }

  /** The tests of the parser, character by character. */
  lemma LeadingCharacters(raw: string)
    ensures "@@" <= raw <==> |raw| >= 2 && raw[0] == '@' && raw[1] == '@'
    ensures "+" <= raw <==> raw != "" && raw[0] == '+'
    ensures "-" <= raw <==> raw != "" && raw[0] == '-'
    ensures " " <= raw <==> raw != "" && raw[0] == ' '
    ensures "+++ " <= raw ==> "+++" <= raw
    ensures "+++" <= raw ==> "+" <= raw
    ensures "---" <= raw ==> "-" <= raw
  {
    if |raw| >= 2 && raw[0] == '@' && raw[1] == '@' {
      assert raw[..2] == "@@";
    }
    if raw != "" {
      assert raw[..1] == [raw[0]];
    }
  }

  /** What a rendered line does to the parser, kind by kind. */
  lemma StepRendered(p: Parser, tree: Tree, c: Cursor, line: DiffLine)
    requires LineFits(tree, c, line)
    ensures var q := Step(p, RenderLine(line));
            match line
            case Inert(_) | Removed(_) => q == p
            case FileHeader(name) => q == EnterFile(p, name)
            case OtherHeader(_) => q == EnterFile(p, "")
            case HunkHeader(_, _, newStart, _, _) => q == p.(number := newStart)
            case Context(text) => q == if p.file == "" then p else Advance(p, text)
            case Added(text) =>
              if "++ " <= text then q.added == p.added
              else if p.file == "" || "++" <= text then q == p
              else q == Advance(p, text).(added := p.added + [AddedLine(p.file, p.number, text, PreviousContent(p))])
  {
    hide ReadHunkHeader, Advance, PreviousContent, RenderRange;
    var raw := RenderLine(line);
    LeadingCharacters(raw);
    match line {
      case HunkHeader(_, _, _, _, _) => ReadRenderedHunk(line);
      case FileHeader(name) => assert raw[6..] == name;
      case OtherHeader(text) =>
        PrefixBehind("+++ ", "b/", text);
        assert "+++ " + "b/" == "+++ b/";
      case Added(text) =>
        assert raw[1..] == text;
        PrefixBehind("+", "++ ", text);
        PrefixBehind("+", "++", text);
        assert "+" + "++ " == "+++ " && "+" + "++" == "+++";
        assert "++ " <= text ==> "++" <= text;
      case Context(text) => assert raw[1..] == text;
      case Removed(text) =>
      case Inert(text) =>
    }
  }

  // ---------------------------------------------------------------- The report

  /** `recent` holds exactly the lines shown so far, as the tree has them. */
  ghost predicate Remembers(recent: map<string, map<int, string>>, tree: Tree, shown: seq<Shown>) {
    && (forall f, n :: f in recent && n in recent[f] <==> WasShown(shown, f, n))
    && (forall f, n :: f in recent && n in recent[f] ==> recent[f][n] == LineText(tree, f, n))
  }

  lemma ShownOneMore(shown: seq<Shown>, s: Shown, file: string, n: int)
    ensures WasShown(shown + [s], file, n) <==> WasShown(shown, file, n) || (s.file == file && s.n == n)
  {
    var all := shown + [s];
    assert all[|shown|] == s && forall j :: 0 <= j < |shown| ==> all[j] == shown[j];
  }

  lemma AdvanceRemembers(p: Parser, tree: Tree, shown: seq<Shown>, s: Shown)
    requires Remembers(p.recent, tree, shown)
    requires p.file == s.file != "" && p.number == s.n
    ensures Remembers(Advance(p, LineText(tree, s.file, s.n)).recent, tree, shown + [s])
  {
    hide WasShown, LineText;
    forall f, n ensures WasShown(shown + [s], f, n) <==> WasShown(shown, f, n) || (s.file == f && s.n == n) {
      ShownOneMore(shown, s, f, n);
    }
  }

  /** The parser stands where the diff does and has reported what it should. */
  ghost predicate InStep(p: Parser, tree: Tree, c: Cursor, shown: seq<Shown>) {
    && p.file == c.file
    && (c.file != "" && c.position.Line? ==> p.number == c.position.n)
    && Remembers(p.recent, tree, shown)
    && p.added == Report(tree, shown)
  }

  /** No line added to a followed file starts with "++", so that none looks like a header. */
  predicate NoneLooksLikeHeader(d: seq<DiffLine>) {
    d == [] || (NoneLooksLikeHeader(d[..|d| - 1]) && !IsTrap(CursorAfter(d[..|d| - 1]), d[|d| - 1]))
  }

  predicate IsTrap(c: Cursor, line: DiffLine) {
    c.file != "" && line.Added? && "++" <= line.text
  }

  lemma ReportOneMore(tree: Tree, shown: seq<Shown>, s: Shown)
    ensures Report(tree, shown + [s]) == Report(tree, shown) +
              if s.isNew then
                [AddedLine(s.file, s.n, LineText(tree, s.file, s.n),
                           if WasShown(shown, s.file, s.n - 1) then LineText(tree, s.file, s.n - 1) else "")]
              else []
  {
    assert (shown + [s])[..|shown|] == shown;
  }

  /** A line that shows nothing of a followed file. */
  lemma StaysInStepUnseen(p: Parser, tree: Tree, c: Cursor, shown: seq<Shown>, line: DiffLine)
    requires InStep(p, tree, c, shown) && LineFits(tree, c, line)
    requires ShownBy(c, line) == []
    ensures InStep(Step(p, RenderLine(line)), tree, Move(c, line), shown)
  {
    StepRendered(p, tree, c, line);
    hide Step, WasShown, Report, RenderLine, LineText;
  }

  lemma PreviousIsRemembered(p: Parser, tree: Tree, c: Cursor, shown: seq<Shown>)
    requires InStep(p, tree, c, shown) && c.file != "" && c.position.Line?
    ensures PreviousContent(p)
            == if WasShown(shown, c.file, c.position.n - 1) then LineText(tree, c.file, c.position.n - 1) else ""
  {
    hide WasShown, Report, LineText;
  }

  lemma StaysInStepShown(p: Parser, tree: Tree, c: Cursor, shown: seq<Shown>, line: DiffLine)
    requires InStep(p, tree, c, shown) && LineFits(tree, c, line) && !IsTrap(c, line)
    requires ShownBy(c, line) != []
    ensures InStep(Step(p, RenderLine(line)), tree, Move(c, line), shown + ShownBy(c, line))
  {
    var s := Shown(c.file, c.position.n, line.Added?);
    var text := line.text;
    assert text == LineText(tree, s.file, s.n);
    StepRendered(p, tree, c, line);
    hide Step, WasShown, Report, RenderLine, LineText, LineFits;
    AdvanceRemembers(p, tree, shown, s);
    ReportOneMore(tree, shown, s);
    PreviousIsRemembered(p, tree, c, shown);
    assert ShownBy(c, line) == [s];
    assert Report(tree, shown) + [] == Report(tree, shown);
    hide PreviousContent, Remembers;
  }

  lemma DiffOneMore(tree: Tree, d: seq<DiffLine>, line: DiffLine)
    ensures CursorAfter(d + [line]) == Move(CursorAfter(d), line)
    ensures ShownLines(d + [line]) == ShownLines(d) + ShownBy(CursorAfter(d), line)
    ensures IsDiffOf(tree, d + [line]) <==> IsDiffOf(tree, d) && LineFits(tree, CursorAfter(d), line)
    ensures NoneLooksLikeHeader(d + [line]) <==> NoneLooksLikeHeader(d) && !IsTrap(CursorAfter(d), line)
    ensures RenderLines(d + [line]) == RenderLines(d) + [RenderLine(line)]
    ensures ParseLines(RenderLines(d + [line])) == Step(ParseLines(RenderLines(d)), RenderLine(line))
  {
    hide Move, ShownBy, LineFits, IsTrap, RenderLine, Step;
    assert (d + [line])[..|d|] == d;
    var lines := RenderLines(d);
    assert (lines + [RenderLine(line)])[..|lines|] == lines;
  }

  lemma {:induction false} ParsesInStep(tree: Tree, d: seq<DiffLine>)
    requires IsDiffOf(tree, d) && NoneLooksLikeHeader(d)
    ensures InStep(ParseLines(RenderLines(d)), tree, CursorAfter(d), ShownLines(d))
  {
    if d != [] {
      hide *;
      var before, line := d[..|d| - 1], d[|d| - 1];
      assert before + [line] == d;
      DiffOneMore(tree, before, line);
      ParsesInStep(tree, before);
      var p, c, shown := ParseLines(RenderLines(before)), CursorAfter(before), ShownLines(before);
      if ShownBy(c, line) == [] {
        StaysInStepUnseen(p, tree, c, shown, line);
        assert shown + [] == shown;
      } else {
        StaysInStepShown(p, tree, c, shown, line);
      }
    }
  }

  // ---------------------------------------------------------------- Lost lines

  /** How many lines a diff adds to followed files, and how many of them survive the parser. */
  function CountAdded(d: seq<DiffLine>): nat {
    if d == [] then 0
    else
      var c, line := CursorAfter(d[..|d| - 1]), d[|d| - 1];
      CountAdded(d[..|d| - 1]) + if c.file != "" && line.Added? then 1 else 0
  }

  function CountPlain(d: seq<DiffLine>): (n: nat)
    ensures n <= CountAdded(d)
    ensures n == CountAdded(d) <==> NoneLooksLikeHeader(d)
  {
    if d == [] then 0
    else
      var c, line := CursorAfter(d[..|d| - 1]), d[|d| - 1];
      CountPlain(d[..|d| - 1]) + if c.file != "" && line.Added? && !IsTrap(c, line) then 1 else 0
  }

  lemma {:induction false} ReportsEveryAddition(tree: Tree, d: seq<DiffLine>)
    requires IsDiffOf(tree, d)
    ensures |Report(tree, ShownLines(d))| == CountAdded(d)
  {
    if d != [] {
      var before, line := d[..|d| - 1], d[|d| - 1];
      var c, shown := CursorAfter(before), ShownLines(before);
      ReportsEveryAddition(tree, before);
      assert LineFits(tree, c, line);
      hide WasShown, Report, LineText, RenderLine, IsDiffOf;
      if ShownBy(c, line) == [] {
        assert shown + [] == shown;
      } else {
        ReportOneMore(tree, shown, ShownBy(c, line)[0]);
      }
    }
  }

  /** Whatever the added texts are, no line but a plain addition is ever reported. */
  lemma {:induction false} ReportsOnlyPlain(tree: Tree, d: seq<DiffLine>)
    requires IsDiffOf(tree, d)
    ensures var p := ParseLines(RenderLines(d));
            |p.added| <= CountPlain(d) && (CursorAfter(d).file == "" ==> p.file == "")
  {
    if d != [] {
      var before, line := d[..|d| - 1], d[|d| - 1];
      assert before + [line] == d;
      DiffOneMore(tree, before, line);
      ReportsOnlyPlain(tree, before);
      StepRendered(ParseLines(RenderLines(before)), tree, CursorAfter(before), line);
      hide Step, RenderLine, RenderLines, ParseLines, IsDiffOf;
    }
  }

  // ---------------------------------------------------------------- The text

  lemma {:induction false} SplitUnlines(lines: seq<string>)
    requires forall i :: 0 <= i < |lines| ==> '\n' !in lines[i]
    ensures SplitLines(Unlines(lines)) == lines + [""]
  {
    UnlinesStep(lines);
    hide *;
    if lines == [] {
      assert lines + [""] == [""];
    } else {
      SplitUnlines(lines[1..]);
      SplitFirst(lines[0], Unlines(lines[1..]));
      assert [lines[0]] + (lines[1..] + [""]) == lines + [""];
    }
  }

  lemma UnlinesStep(lines: seq<string>)
    ensures Unlines(lines) == if lines == [] then "" else lines[0] + "\n" + Unlines(lines[1..])
    ensures SplitLines("") == [""]
  {
  }

  lemma SplitFirst(line: string, rest: string)
    requires '\n' !in line
    ensures SplitLines(line + "\n" + rest) == [line] + SplitLines(rest)
  {
    hide IndexOf;
    var text := line + "\n" + rest;
    assert text[..|line|] == line && text[|line| + 1..] == rest;
    IndexOfUnique(text, '\n', |line|);
  }

  lemma {:induction false} RenderedLinesAreLines(tree: Tree, d: seq<DiffLine>)
    requires IsDiffOf(tree, d)
    ensures forall i :: 0 <= i < |RenderLines(d)| ==> '\n' !in RenderLines(d)[i]
  {
    if d != [] {
      hide RenderLine;
      RenderedLinesAreLines(tree, d[..|d| - 1]);
    }
  }

  lemma ParseRendered(tree: Tree, d: seq<DiffLine>)
    requires IsDiffOf(tree, d)
    ensures Parse(Render(d)) == ParseLines(RenderLines(d)).added
  {
    var lines := RenderLines(d);
    RenderedLinesAreLines(tree, d);
    SplitUnlines(lines);
    assert (lines + [""])[..|lines|] == lines;
    hide RenderLines, Unlines, SplitLines;
  }

  /** The parser reports exactly the new lines of the tree, in order, with their true
      numbers and predecessors, precisely when no added line starts with "++". */
  lemma ReportIsExact(tree: Tree, d: seq<DiffLine>)
    requires IsDiffOf(tree, d)
    ensures Parse(Render(d)) == Report(tree, ShownLines(d)) <==> NoneLooksLikeHeader(d)
  {
    hide *;
    ParseRendered(tree, d);
    if NoneLooksLikeHeader(d) {
      ParsesInStep(tree, d);
      ReportOf(ParseLines(RenderLines(d)), tree, CursorAfter(d), ShownLines(d));
    } else {
      ReportsEveryAddition(tree, d);
      ReportsOnlyPlain(tree, d);
      assert CountPlain(d) < CountAdded(d);
    }
  }

  /** One that does not: a new line "++x" is missing from the report. */
  lemma TrapIsLost()
    ensures var tree := map["a" := ["++x"]];
            var d := [FileHeader("a"), HunkHeader(0, Length(0), 1, Omitted, ""), Added("++x")];
            && IsDiffOf(tree, d) && !NoneLooksLikeHeader(d)
            && Parse(Render(d)) == [] && Report(tree, ShownLines(d)) == [AddedLine("a", 1, "++x", "")]
  {
    hide *;
    var tree := map["a" := ["++x"]];
    var d := [FileHeader("a"), HunkHeader(0, Length(0), 1, Omitted, ""), Added("++x")];
    TrapIsDiff(tree, d);
    ParseRendered(tree, d);
    ReportsOnlyPlain(tree, d);
    ReportsEveryAddition(tree, d);
  }

  lemma TrapIsDiff(tree: Tree, d: seq<DiffLine>)
    requires tree == map["a" := ["++x"]]
    requires d == [FileHeader("a"), HunkHeader(0, Length(0), 1, Omitted, ""), Added("++x")]
    ensures IsDiffOf(tree, d) && !NoneLooksLikeHeader(d) && CountPlain(d) == 0
    ensures Report(tree, ShownLines(d)) == [AddedLine("a", 1, "++x", "")]
  {
    hide *;
    assert [] + [d[0]] == [d[0]] && [d[0]] + [d[1]] == [d[0], d[1]] && [d[0], d[1]] + [d[2]] == d;
    NothingToTrap(tree);
    DiffOneMore(tree, [], d[0]);
    DiffOneMore(tree, [d[0]], d[1]);
    DiffOneMore(tree, [d[0], d[1]], d[2]);
    TrapFits(tree, d[0], d[1], d[2]);
    PlainOneMore([], d[0]);
    PlainOneMore([d[0]], d[1]);
    PlainOneMore([d[0], d[1]], d[2]);
    assert [] + [Shown("a", 1, true)] == [Shown("a", 1, true)];
  }

  lemma PlainOneMore(d: seq<DiffLine>, line: DiffLine)
    ensures CountPlain(d + [line])
            == CountPlain(d)
               + if CursorAfter(d).file != "" && line.Added? && !IsTrap(CursorAfter(d), line) then 1 else 0
  {
    hide CursorAfter, IsTrap;
    assert (d + [line])[..|d|] == d;
  }

  lemma NothingToTrap(tree: Tree)
    ensures IsDiffOf(tree, []) && NoneLooksLikeHeader([]) && CountPlain([]) == 0 && ShownLines([]) == []
    ensures CursorAfter([]) == Cursor("", Unknown)
  {
  }

  lemma TrapFits(tree: Tree, header: DiffLine, hunk: DiffLine, trap: DiffLine)
    requires tree == map["a" := ["++x"]] && trap == Added("++x")
    requires header == FileHeader("a") && hunk == HunkHeader(0, Length(0), 1, Omitted, "")
    ensures var c1, c2 := Cursor("a", Unknown), Cursor("a", Line(1));
            && Move(Cursor("", Unknown), header) == c1 && Move(c1, hunk) == c2
            && LineFits(tree, Cursor("", Unknown), header) && LineFits(tree, c1, hunk) && LineFits(tree, c2, trap)
            && !IsTrap(Cursor("", Unknown), header) && !IsTrap(c1, hunk) && IsTrap(c2, trap)
            && ShownBy(Cursor("", Unknown), header) == [] && ShownBy(c1, hunk) == []
            && ShownBy(c2, trap) == [Shown("a", 1, true)]
    ensures Report(tree, [Shown("a", 1, true)]) == [AddedLine("a", 1, "++x", "")]
  {
    HeadersFit(tree, header, hunk);
    assert trap.text[..2] == "++";
    assert "++" <= trap.text;
    ReportOneMore(tree, [], Shown("a", 1, true));
    assert [] + [Shown("a", 1, true)] == [Shown("a", 1, true)];
  }

  lemma HeadersFit(tree: Tree, header: DiffLine, hunk: DiffLine)
    requires header == FileHeader("a") && hunk == HunkHeader(0, Length(0), 1, Omitted, "")
    ensures LineFits(tree, Cursor("", Unknown), header) && LineFits(tree, Cursor("a", Unknown), hunk)
  {
    assert Decimal(0) == "0" && Decimal(1) == "1";
  }

  lemma ReportOf(p: Parser, tree: Tree, c: Cursor, shown: seq<Shown>)
    requires InStep(p, tree, c, shown)
    ensures p.added == Report(tree, shown)
  {
  }

  lemma {:induction false} ShownLinesExist(tree: Tree, d: seq<DiffLine>)
    requires IsDiffOf(tree, d)
    ensures forall j :: 0 <= j < |ShownLines(d)| ==>
              var s := ShownLines(d)[j]; s.file in tree && 1 <= s.n <= |tree[s.file]|
  {
    if d != [] {
      ShownLinesExist(tree, d[..|d| - 1]);
    }
  }

  lemma {:induction false} ReportReadsTree(tree: Tree, shown: seq<Shown>)
    requires forall j :: 0 <= j < |shown| ==> shown[j].file in tree && 1 <= shown[j].n <= |tree[shown[j].file]|
    ensures forall k :: 0 <= k < |Report(tree, shown)| ==>
              var r := Report(tree, shown)[k];
              && IsLineOf(tree, r.file, r.line, r.content)
              && (r.previousContent == "" || IsLineOf(tree, r.file, r.line - 1, r.previousContent))
  {
    if shown != [] {
      ReportReadsTree(tree, shown[..|shown| - 1]);
    }
  }

  /** Every report, then, is a line of the new tree, and its predecessor is the line above or "". */
  lemma ReportedLinesAreTrue(tree: Tree, d: seq<DiffLine>, k: nat)
    requires IsDiffOf(tree, d) && NoneLooksLikeHeader(d) && k < |Parse(Render(d))|
    ensures var r := Parse(Render(d))[k];
            && IsLineOf(tree, r.file, r.line, r.content)
            && (r.previousContent == "" || IsLineOf(tree, r.file, r.line - 1, r.previousContent))
  {
    hide Parse, Render, IsDiffOf, NoneLooksLikeHeader, ShownLines, Report, IsLineOf;
    ReportIsExact(tree, d);
    ShownLinesExist(tree, d);
    ReportReadsTree(tree, ShownLines(d));
  }

  // ---------------------------------------------------------------- The line above

  /** In a hunk that starts beyond line 1 of a followed file, with no line of it shown yet. */
  predicate InGap(d: seq<DiffLine>) {
    d != [] && match d[|d| - 1]
               case HunkHeader(_, _, newStart, _, _) => newStart > 1
               case FileHeader(_) | OtherHeader(_) | Added(_) | Context(_) => false
               case _ => InGap(d[..|d| - 1])
  }

  /** Hunks lead in with context, as a diff made with `--unified=1` or more does: beyond
      line 1, no hunk shows an addition before a context line. */
  predicate HunksLeadIn(d: seq<DiffLine>) {
    d == [] || (HunksLeadIn(d[..|d| - 1]) && !(InGap(d[..|d| - 1]) && d[|d| - 1].Added?))
  }

  /** Outside a gap, the line above the cursor has been shown. */
  ghost predicate LineAboveShown(c: Cursor, shown: seq<Shown>, gap: bool) {
    c.file != "" && c.position.Line? && c.position.n > 1 && !gap ==> WasShown(shown, c.file, c.position.n - 1)
  }

  lemma GapOneMore(d: seq<DiffLine>, line: DiffLine)
    ensures InGap(d + [line]) <==>
            match line
            case HunkHeader(_, _, newStart, _, _) => newStart > 1
            case FileHeader(_) | OtherHeader(_) | Added(_) | Context(_) => false
            case _ => InGap(d)
    ensures HunksLeadIn(d + [line]) <==> HunksLeadIn(d) && !(InGap(d) && line.Added?)
  {
    assert (d + [line])[..|d|] == d;
  }

  lemma {:induction false} KeepsLineAbove(tree: Tree, d: seq<DiffLine>)
    requires IsDiffOf(tree, d) && HunksLeadIn(d)
    ensures LineAboveShown(CursorAfter(d), ShownLines(d), InGap(d))
  {
    if d != [] {
      var before, line := d[..|d| - 1], d[|d| - 1];
      assert before + [line] == d;
      DiffOneMore(tree, before, line);
      GapOneMore(before, line);
      KeepsLineAbove(tree, before);
      hide IsDiffOf, ShownLines, CursorAfter, InGap, HunksLeadIn, WasShown, LineFits, RenderLines, ParseLines;
      var c, shown := CursorAfter(before), ShownLines(before);
      if ShownBy(c, line) != [] {
        var s := ShownBy(c, line)[0];
        ShownOneMore(shown, s, s.file, s.n);
      } else {
        assert shown + [] == shown;
      }
    }
  }

  /** Every added line shown beyond line 1 comes after the line above it. */
  ghost predicate AboveComesFirst(shown: seq<Shown>) {
    forall i :: 0 <= i < |shown| && shown[i].isNew && shown[i].n > 1
      ==> WasShown(shown[..i], shown[i].file, shown[i].n - 1)
  }

  lemma AboveOneMore(shown: seq<Shown>, s: Shown)
    requires AboveComesFirst(shown)
    requires s.isNew && s.n > 1 ==> WasShown(shown, s.file, s.n - 1)
    ensures AboveComesFirst(shown + [s])
  {
    hide WasShown;
    var all := shown + [s];
    forall i | 0 <= i < |all| && all[i].isNew && all[i].n > 1 ensures WasShown(all[..i], all[i].file, all[i].n - 1) {
      assert all[..i] == shown[..i];
      assert shown[..|shown|] == shown;
    }
  }

  /** What one line shows comes after the line above it, outside a gap. */
  lemma ShownAfterAbove(c: Cursor, shown: seq<Shown>, gap: bool, line: DiffLine)
    requires LineAboveShown(c, shown, gap) && !(gap && line.Added?) && ShownBy(c, line) != []
    ensures var s := ShownBy(c, line)[0];
            ShownBy(c, line) == [s] && (s.isNew && s.n > 1 ==> WasShown(shown, s.file, s.n - 1))
  {
    hide WasShown;
  }

  lemma {:induction false} LinesLeadIn(tree: Tree, d: seq<DiffLine>)
    requires IsDiffOf(tree, d) && HunksLeadIn(d)
    ensures AboveComesFirst(ShownLines(d))
  {
    if d != [] {
      hide *;
      var before, line := d[..|d| - 1], d[|d| - 1];
      assert before + [line] == d;
      DiffOneMore(tree, before, line);
      GapOneMore(before, line);
      LinesLeadIn(tree, before);
      KeepsLineAbove(tree, before);
      var c, shown := CursorAfter(before), ShownLines(before);
      if ShownBy(c, line) == [] {
        assert shown + [] == shown;
      } else {
        ShownAfterAbove(c, shown, InGap(before), line);
        AboveOneMore(shown, ShownBy(c, line)[0]);
      }
    }
  }

  lemma {:induction false} ReportsLineAbove(tree: Tree, shown: seq<Shown>)
    requires forall j :: 0 <= j < |shown| ==> shown[j].file in tree && 1 <= shown[j].n <= |tree[shown[j].file]|
    requires AboveComesFirst(shown)
    ensures forall k :: 0 <= k < |Report(tree, shown)| && Report(tree, shown)[k].line > 1 ==>
              var r := Report(tree, shown)[k]; IsLineOf(tree, r.file, r.line - 1, r.previousContent)
  {
    if shown != [] {
      var before, s := shown[..|shown| - 1], shown[|shown| - 1];
      forall i | 0 <= i < |before| ensures before[..i] == shown[..i] && before[i] == shown[i] {
      }
      assert AboveComesFirst(before);
      ReportsLineAbove(tree, before);
      assert s.isNew && s.n > 1 ==> WasShown(before, s.file, s.n - 1);
      hide WasShown;
    }
  }

  /** Then `previousContent` is the line immediately preceding in the new file, for every
      reported line that has one. */
  lemma PreviousContentIsLineAbove(tree: Tree, d: seq<DiffLine>, k: nat)
    requires IsDiffOf(tree, d) && NoneLooksLikeHeader(d) && HunksLeadIn(d)
    requires k < |Parse(Render(d))| && Parse(Render(d))[k].line > 1
    ensures var r := Parse(Render(d))[k]; IsLineOf(tree, r.file, r.line - 1, r.previousContent)
  {
    hide *;
    ReportIsExact(tree, d);
    ShownLinesExist(tree, d);
    LinesLeadIn(tree, d);
    ReportsLineAbove(tree, ShownLines(d));
  }
}
