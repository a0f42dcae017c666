/** Newline framing: cutting a character stream into trimmed, non-empty lines. */
module Framing {
  import opened Text

  /** The lines of `s` up to its last newline, and what is left over. */
  function Split(s: string): (r: (seq<string>, string))
    ensures '\n' !in r.1
  {
    var newline := IndexOf(s, '\n');
    if newline == -1 then ([], s)
    else
      var line := Trim(s[..newline]);
      var (lines, rest) := Split(s[newline + 1..]);
      (if line == "" then lines else [line] + lines, rest)
  }

  /** Feeding a stream chunk by chunk, keeping the leftover in between. */
  function SplitChunks(buffer: string, chunks: seq<string>): (seq<string>, string)
    decreases chunks
  {
    if chunks == [] then ([], buffer)
    else
      var (first, rest) := Split(buffer + chunks[0]);
      var (later, last) := SplitChunks(rest, chunks[1..]);
      (first + later, last)
  }

  function Concat(chunks: seq<string>): string {
    if chunks == [] then "" else chunks[0] + Concat(chunks[1..])
  }

  lemma SplitStep(s: string, newline: nat)
    requires newline < |s| && s[newline] == '\n' && '\n' !in s[..newline]
    ensures var line := Trim(s[..newline]);
            var (lines, rest) := Split(s[newline + 1..]);
            Split(s) == (if line == "" then lines else [line] + lines, rest)
  {
    hide Trim, IsTrimmed, IndexOf;
    IndexOfUnique(s, '\n', newline);
  }

  lemma {:induction false} SplitAppend(a: string, b: string)
    ensures Split(a + b) == (Split(a).0 + Split(Split(a).1 + b).0, Split(Split(a).1 + b).1)
  {
    hide *;
    var newline := IndexOf(a, '\n');
    if newline == -1 {
      SplitUnbroken(a);
      assert [] + Split(a + b).0 == Split(a + b).0;
    } else {
      SplitAppend(a[newline + 1..], b);
      SplitLineAppend(a, b, newline);
    }
  }

  /** The same, one line earlier. */
  lemma SplitLineAppend(a: string, b: string, newline: nat)
    requires newline < |a| && a[newline] == '\n' && '\n' !in a[..newline]
    requires var tail := a[newline + 1..];
             Split(tail + b) == (Split(tail).0 + Split(Split(tail).1 + b).0, Split(Split(tail).1 + b).1)
    ensures Split(a + b) == (Split(a).0 + Split(Split(a).1 + b).0, Split(Split(a).1 + b).1)
  {
    hide *;
    var tail, line := a[newline + 1..], Trim(a[..newline]);
    assert (a + b)[..newline] == a[..newline] && (a + b)[newline + 1..] == tail + b;
    SplitStep(a, newline);
    SplitStep(a + b, newline);
    var la, lb := Split(tail).0, Split(Split(tail).1 + b).0;
    assert ([line] + la) + lb == [line] + (la + lb);
  }

  lemma SplitUnbroken(s: string)
    requires '\n' !in s
    ensures Split(s) == ([], s)
  {
  }

  lemma SplitChunksStep(buffer: string, chunks: seq<string>)
    requires chunks != []
    ensures Concat(chunks) == chunks[0] + Concat(chunks[1..])
    ensures var (first, rest) := Split(buffer + chunks[0]);
            SplitChunks(buffer, chunks) == (first + SplitChunks(rest, chunks[1..]).0, SplitChunks(rest, chunks[1..]).1)
  {
    hide Split;
  }

  lemma NoChunks(buffer: string)
    ensures Concat([]) == "" && SplitChunks(buffer, []) == ([], buffer)
  {
  }

  /** Any way of cutting the stream into chunks yields the same lines and leftover. */
  lemma {:induction false} ChunkingIsIrrelevant(buffer: string, chunks: seq<string>)
    requires '\n' !in buffer
    ensures SplitChunks(buffer, chunks) == Split(buffer + Concat(chunks))
    decreases chunks
  {
    hide *;
    if chunks == [] {
      NoChunks(buffer);
      SplitUnbroken(buffer);
      assert buffer + "" == buffer;
    } else {
      var joined := buffer + chunks[0];
      ChunkingIsIrrelevant(Split(joined).1, chunks[1..]);
      SplitChunksStep(buffer, chunks);
      SplitAppend(joined, Concat(chunks[1..]));
      assert buffer + Concat(chunks) == joined + Concat(chunks[1..]);
    }
  }

  /** Raw lines as they stand in a stream, each ended by its newline. */
  function Unlines(raw: seq<string>): string {
    if raw == [] then "" else raw[0] + "\n" + Unlines(raw[1..])
  }

  /** What is handled of them: each trimmed, in order, without the blank ones. */
  function NonBlank(raw: seq<string>): seq<string> {
    if raw == [] then []
    else (if Trim(raw[0]) == "" then [] else [Trim(raw[0])]) + NonBlank(raw[1..])
  }

  /** A stream of raw lines and an unfinished one is cut into exactly those. */
  lemma {:induction false} SplitOfLines(raw: seq<string>, rest: string)
    requires (forall i :: 0 <= i < |raw| ==> '\n' !in raw[i]) && '\n' !in rest
    ensures Split(Unlines(raw) + rest) == (NonBlank(raw), rest)
  {
    RawUnfold(raw);
    hide *;
    if raw == [] {
      assert "" + rest == rest;
      SplitUnbroken(rest);
    } else {
      var tail := Unlines(raw[1..]) + rest;
      var text := Unlines(raw) + rest;
      SplitOfLines(raw[1..], rest);
      assert text == raw[0] + "\n" + tail;
      assert text[..|raw[0]|] == raw[0] && text[|raw[0]| + 1..] == tail;
      SplitStep(text, |raw[0]|);
      assert [] + NonBlank(raw[1..]) == NonBlank(raw[1..]);
    }
  }

  lemma RawUnfold(raw: seq<string>)
    ensures Unlines(raw) == if raw == [] then "" else raw[0] + "\n" + Unlines(raw[1..])
    ensures NonBlank(raw) == if raw == [] then []
                             else (if Trim(raw[0]) == "" then [] else [Trim(raw[0])]) + NonBlank(raw[1..])
  {
    hide Trim;
  }
}
