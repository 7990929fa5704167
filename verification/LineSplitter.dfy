/** The incremental splitter that turns runtime output, arriving in arbitrary chunks, into log lines. */
module LineSplitter {

  const MAX_PARSE_BUFFER := 32768

  predicate Break(c: char) { c == '\r' || c == '\n' }

  predicate Plain(s: string) { forall i :: 0 <= i < |s| ==> !Break(s[i]) }

  /** Lines completed so far, and the line still open. */
  datatype Split = Split(lines: seq<string>, rest: string)

  function Next(p: Split, c: char): Split {
    if !Break(c) then p.(rest := p.rest + [c])
    else if p.rest == "" then p
    else Split(p.lines + [p.rest], "")
  }

  /** The reference: one character after the other, a line ending at each break, empty lines skipped. */
  function Scan(s: string): Split {
    if s == "" then Split([], "") else Next(Scan(s[..|s| - 1]), s[|s| - 1])
  }

  function Tail(s: string): (t: string)
    ensures |t| <= MAX_PARSE_BUFFER
  {
    if |s| > MAX_PARSE_BUFFER then s[|s| - MAX_PARSE_BUFFER..] else s
  }

  lemma ScanNext(s: string, c: char)
    ensures Scan(s + [c]) == Next(Scan(s), c)
  {
    assert (s + [c])[..|s|] == s;
  }

  /** Plain text only extends the open line. */
  lemma {:induction false} ScanPlain(s: string, i: nat, j: nat)
    requires i <= j <= |s| && Plain(s[i..j])
    ensures Scan(s[..j]) == Scan(s[..i]).(rest := Scan(s[..i]).rest + s[i..j])
    decreases j
  {
    var p := Scan(s[..i]);
    if i == j {
      assert p.rest + s[i..j] == p.rest;
    } else {
      assert s[i..j][..j - 1 - i] == s[i..j - 1] && s[i..j][j - 1 - i] == s[j - 1];
      ScanPlain(s, i, j - 1);
      assert s[..j] == s[..j - 1] + [s[j - 1]];
      ScanNext(s[..j - 1], s[j - 1]);
      assert p.rest + s[i..j] == p.rest + s[i..j - 1] + [s[j - 1]];
    }
  }

  class LogReader {
    var logParseBuffer: string

    constructor ()
      ensures logParseBuffer == ""
    {
      logParseBuffer := "";
    }

    method FindFirstBreak(from: nat) returns (at: nat)
      requires from <= |logParseBuffer|
      ensures from <= at <= |logParseBuffer| && Plain(logParseBuffer[from..at])
      ensures at < |logParseBuffer| ==> Break(logParseBuffer[at])
    {
      at := from;
      while at < |logParseBuffer| && !Break(logParseBuffer[at])
        invariant from <= at <= |logParseBuffer|
        invariant forall k :: from <= k < at ==> !Break(logParseBuffer[k])
      {
        at := at + 1;
      }
    }

    method HandleOutput(text: string) returns (lines: seq<string>)
      modifies this
      ensures Split(lines, logParseBuffer) == Scan(Tail(old(logParseBuffer) + text))
    {
      hide Scan, Next;
      logParseBuffer := logParseBuffer + text;
      if |logParseBuffer| > MAX_PARSE_BUFFER {
        logParseBuffer := logParseBuffer[|logParseBuffer| - MAX_PARSE_BUFFER..];
      }
      ghost var whole := logParseBuffer;
      lines := [];
      ScanNothing(whole);
      var lineStart := 0;
      while lineStart < |logParseBuffer|
        invariant logParseBuffer == whole && lineStart <= |whole|
        invariant Scan(whole[..lineStart]) == Split(lines, "")
      {
        var lineEnd := FindFirstBreak(lineStart);
        ScanSegment(whole, lineStart, lineEnd, lines);
        if lineEnd == |logParseBuffer| { break; }
        if lineEnd > lineStart { lines := lines + [logParseBuffer[lineStart..lineEnd]]; }
        lineStart := lineEnd + 1;
        while lineStart < |logParseBuffer| && Break(logParseBuffer[lineStart])
          invariant logParseBuffer == whole && lineStart <= |whole|
          invariant Scan(whole[..lineStart]) == Split(lines, "")
        {
          ScanSegment(whole, lineStart, lineStart, lines);
          lineStart := lineStart + 1;
        }
      }
      ScanEnd(whole, lineStart, lines);
      logParseBuffer := logParseBuffer[lineStart..];
    }
  }

  lemma ScanNothing(s: string)
    ensures s[..0] == "" && Scan("") == Split([], "")
  {
  }

  /** From a line start to the next break, and past it. */
  lemma ScanSegment(s: string, i: nat, j: nat, lines: seq<string>)
    requires i <= j <= |s| && Plain(s[i..j]) && Scan(s[..i]) == Split(lines, "")
    ensures Scan(s[..j]) == Split(lines, s[i..j])
    ensures j < |s| && Break(s[j]) ==> Scan(s[..j + 1]) == Split(if i < j then lines + [s[i..j]] else lines, "")
  {
    ScanPlain(s, i, j);
    assert "" + s[i..j] == s[i..j];
    if j < |s| { TakeOne(s, j); }
  }

  lemma ScanEnd(s: string, i: nat, lines: seq<string>)
    requires i <= |s| && Plain(s[i..|s|]) && Scan(s[..i]) == Split(lines, "")
    ensures Scan(s) == Split(lines, s[i..])
  {
    assert s[i..|s|] == s[i..] && s[..|s|] == s;
    ScanSegment(s, i, |s|, lines);
  }

  lemma TakeOne(s: string, i: nat)
    requires i < |s|
    ensures Scan(s[..i + 1]) == Next(Scan(s[..i]), s[i])
  {
    assert s[..i + 1] == s[..i] + [s[i]];
    ScanNext(s[..i], s[i]);
  }

  // ----- what the splitter promises -----

  /** No line is empty or holds a break; neither does the open line hold one. */
  lemma {:induction false} LinesArePlain(s: string)
    ensures Plain(Scan(s).rest)
    ensures forall i :: 0 <= i < |Scan(s).lines| ==> Scan(s).lines[i] != "" && Plain(Scan(s).lines[i])
  {
    if s != "" { LinesArePlain(s[..|s| - 1]); }
  }

  function Joined(lines: seq<string>): string {
    if lines == [] then "" else Joined(lines[..|lines| - 1]) + lines[|lines| - 1]
  }

  function WithoutBreaks(s: string): string {
    if s == "" then ""
    else WithoutBreaks(s[..|s| - 1]) + if Break(s[|s| - 1]) then "" else [s[|s| - 1]]
  }

  lemma JoinedMore(lines: seq<string>, line: string)
    ensures Joined(lines + [line]) == Joined(lines) + line
  {
    assert (lines + [line])[..|lines|] == lines;
  }

  /** Lines and open line together hold every other character once, in order. */
  lemma {:induction false} NothingLost(s: string)
    ensures Joined(Scan(s).lines) + Scan(s).rest == WithoutBreaks(s)
  {
    if s != "" {
      var p, c := Scan(s[..|s| - 1]), s[|s| - 1];
      NothingLost(s[..|s| - 1]);
      if !Break(c) {
        assert Joined(p.lines) + (p.rest + [c]) == Joined(p.lines) + p.rest + [c];
      } else {
        JoinedMore(p.lines, p.rest);
        assert Joined(p.lines) + p.rest + "" == Joined(p.lines) + p.rest;
      }
    }
  }

  lemma PlainScans(s: string)
    requires Plain(s)
    ensures Scan(s) == Split([], s)
  {
    ScanPlain(s, 0, |s|);
    assert s[0..|s|] == s && s[..|s|] == s && s[..0] == "" && "" + s == s;
  }

  function Resumed(p: Split, q: Split): Split { Split(p.lines + q.lines, q.rest) }

  lemma ResumedNext(p: Split, q: Split, c: char)
    ensures Next(Resumed(p, q), c) == Resumed(p, Next(q, c))
  {
    assert p.lines + (q.lines + [q.rest]) == p.lines + q.lines + [q.rest];
  }

  /** The open line is all that has to be remembered. */
  lemma {:induction false} Resume(a: string, b: string)
    ensures Scan(a + b) == Resumed(Scan(a), Scan(Scan(a).rest + b))
  {
    var r := Scan(a).rest;
    if b == "" {
      LinesArePlain(a);
      PlainScans(r);
      assert a + b == a && r + b == r && Scan(a).lines + [] == Scan(a).lines;
    } else {
      var init, c := b[..|b| - 1], b[|b| - 1];
      Resume(a, init);
      assert a + b == a + init + [c] && r + b == r + init + [c];
      ScanNext(a + init, c);
      ScanNext(r + init, c);
      ResumedNext(Scan(a), Scan(r + init), c);
    }
  }

  /** Lines reported for a sequence of chunks, and what is left open. */
  function Fed(chunks: seq<string>): Split {
    if chunks == [] then Split([], "")
    else
      var before := Fed(chunks[..|chunks| - 1]);
      Resumed(before, Scan(Tail(before.rest + chunks[|chunks| - 1])))
  }

  predicate Fits(chunks: seq<string>) {
    chunks == [] ||
    (Fits(chunks[..|chunks| - 1]) && |Fed(chunks[..|chunks| - 1]).rest| + |chunks[|chunks| - 1]| <= MAX_PARSE_BUFFER)
  }

  /** While the open line and the next chunk fit the buffer, chunks do not matter: the lines are those of
      the whole text, wherever it was cut, even between CR and LF. */
  lemma {:induction false} ChunksDoNotMatter(chunks: seq<string>)
    requires Fits(chunks)
    ensures Fed(chunks) == Scan(Joined(chunks))
  {
    if chunks != [] {
      ChunksDoNotMatter(chunks[..|chunks| - 1]);
      Resume(Joined(chunks[..|chunks| - 1]), chunks[|chunks| - 1]);
    }
  }

  lemma SameTextSameLines(chunks: seq<string>, others: seq<string>)
    requires Fits(chunks) && Fits(others) && Joined(chunks) == Joined(others)
    ensures Fed(chunks) == Fed(others)
  {
    ChunksDoNotMatter(chunks);
    ChunksDoNotMatter(others);
  }

  /** The open line never outgrows the buffer. */
  lemma RestIsBounded(s: string)
    ensures |Scan(s).rest| <= |s|
  {
  }

  lemma BufferIsBounded(chunks: seq<string>)
    ensures |Fed(chunks).rest| <= 32768
  {
    if chunks != [] { RestIsBounded(Tail(Fed(chunks[..|chunks| - 1]).rest + chunks[|chunks| - 1])); }
  }

  // ----- beyond the buffer -----

  function FirstBreak(s: string): (i: nat)
    ensures i <= |s| && Plain(s[..i]) && (i < |s| ==> Break(s[i]))
  {
    if s == "" || Break(s[0]) then 0
    else
      var i := 1 + FirstBreak(s[1..]);
      assert s[..i] == [s[0]] + s[1..][..i - 1];
      i
  }

  /** What an open line `r` changes in what follows: only the first line, which it completes. */
  function Completed(r: string, s: string): Split {
    var q, i := Scan(s), FirstBreak(s);
    if i == |s| then Split([], r + s)
    else if r == "" then q
    else if i == 0 then Split([r] + q.lines, q.rest)
    else if q.lines == [] then q
    else Split([r + s[..i]] + q.lines[1..], q.rest)
  }

  lemma FirstLine(p: string, c: char)
    requires Plain(p) && Break(c)
    ensures Scan(p + [c]) == Split(if p == "" then [] else [p], "")
  {
    PlainScans(p);
    ScanNext(p, c);
  }

  lemma Slices(r: string, s: string, i: nat)
    requires i < |s|
    ensures s == s[..i] + [s[i]] + s[i + 1..]
    ensures r + s == r + s[..i] + [s[i]] + s[i + 1..]
    ensures "" + s[i + 1..] == s[i + 1..]
  {
  }

  lemma {:induction false} OpenLineCompletes(r: string, s: string)
    requires Plain(r)
    ensures Scan(r + s) == Completed(r, s)
  {
    var i := FirstBreak(s);
    if i == |s| {
      assert s[..i] == s;
      PlainScans(r + s);
    } else {
      var head, c, more := s[..i], s[i], s[i + 1..];
      assert Plain(r + head);
      Slices(r, s, i);
      hide *;
      FirstLine(head, c);
      FirstLine(r + head, c);
      Resume(head + [c], more);
      Resume(r + head + [c], more);
      FirstLineSplits(r, s, i, Scan(more));
    }
  }

  lemma FirstLineSplits(r: string, s: string, i: nat, q: Split)
    requires i < |s| && i == FirstBreak(s)
    requires Scan(s) == Resumed(Split(if i == 0 then [] else [s[..i]], ""), q)
    ensures Completed(r, s) == Resumed(Split(if |r| + i == 0 then [] else [r + s[..i]], ""), q)
  {
    if i == 0 {
      assert s[..0] == "" && r + "" == r && [] + q.lines == q.lines;
    } else {
      assert ([s[..i]] + q.lines)[1..] == q.lines;
      if r == "" { assert r + s[..i] == s[..i]; }
    }
  }

  /** When the buffer overflows, the text cut off costs the lines completed in it, and the beginning of
      the line it was cut in; every other line is reported as it should be. */
  lemma OverflowCutsOneLine(dropped: string, kept: string)
    ensures Scan(dropped + kept) == Resumed(Scan(dropped), Completed(Scan(dropped).rest, kept))
  {
    Resume(dropped, kept);
    LinesArePlain(dropped);
    OpenLineCompletes(Scan(dropped).rest, kept);
  }

  // ----- in characters and figures -----

  /** A line ends at a carriage return or a line feed and at nothing else; what ends as soon as it begins is no line. */
  lemma OneCharacter(s: string, c: char)
    ensures var p, q := Scan(s), Scan(s + [c]);
      if c == '\r' || c == '\n' then q.rest == "" && q.lines == (if p.rest == "" then p.lines else p.lines + [p.rest])
      else q.lines == p.lines && q.rest == p.rest + [c]
  {
    ScanNext(s, c);
  }

  /** Plain text behind completed lines is the open line, and the next break completes it. */
  lemma LineEnds(s: string, line: string, c: char)
    requires Scan(s).rest == "" && Plain(line) && line != "" && Break(c)
    ensures Scan(s + line + [c]) == Split(Scan(s).lines + [line], "") && Scan(s + line) == Split(Scan(s).lines, line)
  {
    Resume(s, line);
    PlainScans(line);
    assert "" + line == line && Scan(s).lines + [] == Scan(s).lines;
    hide Scan;
    ScanNext(s + line, c);
  }

  /** Both kinds of break, one after the other, end one line. */
  lemma BreaksInARow(s: string, line: string)
    requires Scan(s).rest == "" && Plain(line) && line != ""
    ensures Scan(s + line + ['\r'] + ['\n']) == Split(Scan(s).lines + [line], "")
  {
    LineEnds(s, line, '\r');
    hide Scan;
    ScanNext(s + line + ['\r'], '\n');
  }

  /** A chunk is read behind the open line; of more than 32768 characters together only the last 32768 are. */
  lemma ChunkIsRead(chunks: seq<string>, chunk: string)
    ensures var before := Fed(chunks);
      var text := before.rest + chunk;
      Fed(chunks + [chunk]) == Resumed(before, Scan(if |text| <= 32768 then text else text[|text| - 32768..]))
  {
    FedMore(chunks, chunk);
    hide Scan, Resumed, Fed;
  }

  lemma FedMore(chunks: seq<string>, chunk: string)
    ensures Fed(chunks + [chunk]) == Resumed(Fed(chunks), Scan(Tail(Fed(chunks).rest + chunk)))
  {
    var all := chunks + [chunk];
    assert all[..|all| - 1] == chunks && all[|all| - 1] == chunk;
    assert Fed(all) == Resumed(Fed(all[..|all| - 1]), Scan(Tail(Fed(all[..|all| - 1]).rest + all[|all| - 1])));
    hide *;
  }
}
