/** Reading a session transcript: the whole JSON-lines file, and a bounded tail of it. */
module TranscriptTails {
  import opened Prelude
  import opened Lines

  // ---- White space and JSON texts ----

  /** White space that JSON allows around a document. */
  predicate IsJsonSpace(c: char) { c == ' ' || c == '\t' || c == '\n' || c == '\r' }

  /** White space that `trim` removes: also the odd kinds that JSON does not allow. */
  predicate IsSpace(c: char) {
    IsJsonSpace(c) || c == '\U{000B}' || c == '\U{000C}' || c == '\U{00A0}' || c == '\U{FEFF}' || c == '\U{1680}'
    || '\U{2000}' <= c <= '\U{200A}' || c == '\U{2028}' || c == '\U{2029}' || c == '\U{202F}' || c == '\U{205F}'
    || c == '\U{3000}'
  }

  function TrimStart(s: string, json: bool): string {
    if s != [] && (IsJsonSpace(s[0]) || (!json && IsSpace(s[0]))) then TrimStart(s[1..], json) else s
  }

  function TrimEnd(s: string, json: bool): string
    decreases |s|
  {
    if s != [] && (IsJsonSpace(s[|s| - 1]) || (!json && IsSpace(s[|s| - 1]))) then TrimEnd(s[..|s| - 1], json) else s
  }

  /** `trim`. */
  function Trim(s: string): string { TrimEnd(TrimStart(s, false), false) }

  /** What JSON itself ignores around a document. */
  function JsonTrim(s: string): string { TrimEnd(TrimStart(s, true), true) }

  /** The white space of JSON, and that of JavaScript: tab to carriage return, and the space separators of Unicode. */
  lemma {:induction false} SpacesAre(c: char)
    ensures IsJsonSpace(c) <==> c as int in {9, 10, 13, 32}
    ensures IsSpace(c) <==>
            c as int in {9, 10, 11, 12, 13, 32, 160, 5760, 8192, 8193, 8194, 8195, 8196, 8197, 8198, 8199, 8200, 8201,
                         8202, 8232, 8233, 8239, 8287, 12288, 65279}
  {
  }

  ghost predicate Ignored(c: char, json: bool) { if json then IsJsonSpace(c) else IsSpace(c) }

  ghost predicate AllIgnored(s: string, json: bool) { forall i | 0 <= i < |s| :: Ignored(s[i], json) }

  /** `core` is `s` without the white space around it, and does not begin or end with any. */
  ghost predicate IsTrimmed(s: string, core: string, json: bool) {
    && (core != [] ==> !Ignored(core[0], json) && !Ignored(core[|core| - 1], json))
    && exists before: string, after: string ::
         s == before + core + after && AllIgnored(before, json) && AllIgnored(after, json)
  }

  lemma {:induction false} TrimStartCuts(s: string, json: bool) returns (before: string)
    ensures s == before + TrimStart(s, json) && AllIgnored(before, json)
    ensures TrimStart(s, json) != [] ==> !Ignored(TrimStart(s, json)[0], json)
  {
    if s != [] && Ignored(s[0], json) {
      var rest := TrimStartCuts(s[1..], json);
      before := [s[0]] + rest;
      assert s == [s[0]] + s[1..];
    } else {
      before := [];
    }
  }

  lemma {:induction false} TrimEndCuts(s: string, json: bool) returns (after: string)
    ensures s == TrimEnd(s, json) + after && AllIgnored(after, json)
    ensures TrimEnd(s, json) != [] ==> !Ignored(TrimEnd(s, json)[|TrimEnd(s, json)| - 1], json)
    decreases |s|
  {
    if s != [] && Ignored(s[|s| - 1], json) {
      var rest := TrimEndCuts(s[..|s| - 1], json);
      after := rest + [s[|s| - 1]];
      assert s == s[..|s| - 1] + [s[|s| - 1]];
    } else {
      after := [];
    }
  }

  /** Trimming takes away exactly the white space around a text. */
  lemma {:induction false} TrimsTheSpaceAround(s: string, json: bool)
    ensures IsTrimmed(s, TrimEnd(TrimStart(s, json), json), json)
  {
    var before := TrimStartCuts(s, json);
    var rest := TrimStart(s, json);
    var after := TrimEndCuts(rest, json);
    var core := TrimEnd(rest, json);
    assert s == before + core + after;
    if core != [] { assert core[0] == rest[0]; }
  }

  /**
   * The JSON documents and the messages they stand for. A document is not empty and neither begins nor ends with
   * white space of any kind.
   */
  ghost predicate Documents<M>(docs: map<string, M>) {
    forall d | d in docs :: d != [] && !IsSpace(d[0]) && !IsSpace(d[|d| - 1])
  }

  /** `JSON.parse`: a document with JSON white space around it, or an error. */
  function Parse<M>(docs: map<string, M>, text: string): Option<M> {
    if JsonTrim(text) in docs then Some(docs[JsonTrim(text)]) else None
  }

  // ---- The lines of a window ----

  /** Of the lines from offset `i` on, those that begin at offset `b` or later. */
  function LinesFrom(s: string, i: nat, b: int): seq<string>
    requires i <= |s|
    decreases |s| - i
  {
    if i >= b then SplitAt(s, i)
    else
      var n := NextNewline(s, i);
      if n == |s| then [] else LinesFrom(s, n + 1, b)
  }

  /** The lines that lie wholly inside the last `maxBytes` of a file. */
  function WindowLines(file: string, maxBytes: int): seq<string> { LinesFrom(file, 0, |file| - maxBytes) }

  // ---- The two readers ----

  function One<M>(m: Option<M>): seq<M> { if m.Some? then [m.value] else [] }

  function Parsed<M>(docs: map<string, M>, lines: seq<string>): seq<M> {
    if lines == [] then []
    else One(Parse(docs, lines[0])) + Parsed(docs, lines[1..])
  }

  /** `readJsonlFile`: trim the whole text once, then parse every line. */
  function FullRead<M>(docs: map<string, M>, file: string): seq<M> {
    if Trim(file) == [] then [] else Parsed(docs, Split(Trim(file)))
  }

  /** What the tail reader makes of one line: trim it, skip it when blank, else parse it. */
  function LineRecord<M>(docs: map<string, M>, line: string): Option<M> {
    if Trim(line) == [] then None else Parse(docs, Trim(line))
  }

  function Records<M>(docs: map<string, M>, lines: seq<string>): seq<M> {
    if lines == [] then []
    else One(LineRecord(docs, lines[0])) + Records(docs, lines[1..])
  }

  // ---- Finding the first complete line of the window ----

  /** Where the first line that begins in the window starts: found by testing the byte before, then skipping a part. */
  function FirstLineStart(s: string, b: nat): Option<nat>
    requires 1 <= b <= |s|
  {
    if s[b - 1] == '\n' then Some(b)
    else if NextNewline(s, b) == |s| then None
    else Some(NextNewline(s, b) + 1)
  }

  /** That test finds exactly the lines that begin inside the window. */
  lemma {:induction false} WindowTestIsExact(s: string, i: nat, b: nat)
    requires i < b <= |s|
    ensures LinesFrom(s, i, b) == match FirstLineStart(s, b) case None => [] case Some(start) => SplitAt(s, start)
    decreases b - i
  {
    var n := NextNewline(s, i);
    if n >= b {
      NextNewlineIs(s, b, n);
    } else if n + 1 < b {
      WindowTestIsExact(s, n + 1, b);
    }
  }

  lemma {:induction false} RecordsConcat<M>(docs: map<string, M>, a: seq<string>, b: seq<string>)
    ensures Records(docs, a + b) == Records(docs, a) + Records(docs, b)
    decreases |a|
  {
    if a == [] {
      assert a + b == b;
    } else {
      assert (a + b)[1..] == a[1..] + b;
      RecordsConcat(docs, a[1..], b);
      var x, y, z := One(LineRecord(docs, a[0])), Records(docs, a[1..]), Records(docs, b);
      assert x + (y + z) == (x + y) + z;
    }
  }

  /** The lines that begin inside the window are the last lines of the file. */
  lemma {:induction false} OneMoreDropped(line: string, dropped: seq<string>, kept: seq<string>)
    ensures [line] + (dropped + kept) == [line] + dropped + kept
  {
  }

  lemma {:induction false} LinesFromIsSuffix(s: string, i: nat, b: int) returns (dropped: seq<string>)
    requires i <= |s|
    ensures SplitAt(s, i) == dropped + LinesFrom(s, i, b)
    decreases |s| - i
  {
    var n := NextNewline(s, i);
    if i >= b {
      dropped := [];
    } else if n == |s| {
      dropped := [s[i..]];
    } else {
      var rest := LinesFromIsSuffix(s, n + 1, b);
      dropped := [s[i..n]] + rest;
      OneMoreDropped(s[i..n], rest, LinesFrom(s, n + 1, b));
    }
  }

  lemma {:induction false} RecordsTail<M>(docs: map<string, M>, lines: seq<string>, k: nat)
    requires k < |lines|
    ensures Records(docs, lines[k..]) ==
            One(LineRecord(docs, lines[k])) + Records(docs, lines[k + 1..])
  {
    assert lines[k..][0] == lines[k] && lines[k..][1..] == lines[k + 1..];
  }

  lemma {:induction false} ParsedTail<M>(docs: map<string, M>, done: seq<M>, lines: seq<string>, k: nat)
    requires k < |lines|
    ensures done + Parsed(docs, lines[k..]) == (done + One(Parse(docs, lines[k]))) + Parsed(docs, lines[k + 1..])
    ensures done + [] == done
  {
    assert lines[k..][0] == lines[k] && lines[k..][1..] == lines[k + 1..];
  }

  function Reversed<M>(s: seq<M>): (r: seq<M>)
    ensures |r| == |s| && forall i | 0 <= i < |s| :: r[i] == s[|s| - 1 - i]
  {
    if s == [] then [] else Reversed(s[1..]) + [s[0]]
  }

  /** The lines of the window, found without reading what lies before the byte in front of it. */
  method ReadWindow(file: string, boundedStart: nat) returns (lines: seq<string>)
    requires boundedStart <= |file|
    ensures lines == LinesFrom(file, 0, boundedStart)
  {
    var start := boundedStart;
    if boundedStart > 0 {
      WindowTestIsExact(file, 0, boundedStart);
      var startedAtLineBoundary := file[boundedStart - 1] == '\n';
      if !startedAtLineBoundary {
        var newline := NextNewline(file, boundedStart);
        if newline == |file| { return []; }
        start := newline + 1;
      }
    }
    return SplitAt(file, start);
  }

  /** `readJsonlFile`. */
  method ReadAll<M>(docs: map<string, M>, file: string) returns (items: seq<M>)
    ensures items == FullRead(docs, file)
  {
    items := [];
    if Trim(file) == [] { return; }
    var lines := Split(Trim(file));
    var i := 0;
    assert lines[0..] == lines && [] + Parsed(docs, lines) == Parsed(docs, lines);
    while i < |lines|
      invariant 0 <= i <= |lines|
      invariant items + Parsed(docs, lines[i..]) == Parsed(docs, lines)
    {
      var m := Parse(docs, lines[i]);
      ParsedTail(docs, items, lines, i);
      if m.Some? { items := items + [m.value]; }
      i := i + 1;
    }
    assert lines[i..] == [] && items + [] == items;
  }

  /** Walk back from the last line until enough records are found, then turn them round. */
  method CollectFromEnd<M>(docs: map<string, M>, lines: seq<string>, limit: nat) returns (messages: seq<M>)
    ensures messages == LastOf(Records(docs, lines), limit)
  {
    var found: seq<M> := [];
    var index := |lines|;
    assert lines[|lines|..] == [];
    while index > 0 && |found| < limit
      invariant 0 <= index <= |lines| && |found| <= limit
      invariant found == Reversed(Records(docs, lines[index..]))
    {
      index := index - 1;
      RecordsTail(docs, lines, index);
      var line := Trim(lines[index]);
      if line != [] {
        var m := Parse(docs, line);
        if m.Some? {
          ReversedCons(m.value, Records(docs, lines[index + 1..]));
          found := found + [m.value];
        }
      }
    }
    messages := Reversed(found);
    ReversedTwice(Records(docs, lines[index..]));
    assert lines == lines[..index] + lines[index..];
    RecordsConcat(docs, lines[..index], lines[index..]);
    LastOfConcat(Records(docs, lines[..index]), messages, limit);
  }

  /**
   * `readSessionMessagesTail`: the last `limit` records among the lines that lie wholly inside the last `maxBytes`
   * of the file, also when the window starts exactly at a line boundary.
   */
  method ReadTail<M>(docs: map<string, M>, file: string, limit: int, maxBytes: int) returns (messages: seq<M>)
    ensures messages == Tail(docs, file, limit, maxBytes)
  {
    if limit <= 0 || maxBytes <= 0 { return []; }
    if |file| == 0 {
      assert Split(file) == [[]] && Records(docs, [[]]) == [];
      return [];
    }
    var lines := ReadWindow(file, Max(0, |file| - maxBytes));
    messages := CollectFromEnd(docs, lines, limit);
  }

  function Tail<M>(docs: map<string, M>, file: string, limit: int, maxBytes: int): seq<M> {
    if limit <= 0 || maxBytes <= 0 then [] else LastOf(Records(docs, WindowLines(file, maxBytes)), limit)
  }

  lemma {:induction false} ReversedCons<M>(x: M, s: seq<M>)
    ensures Reversed([x] + s) == Reversed(s) + [x]
  {
    assert ([x] + s)[1..] == s;
  }

  lemma {:induction false} ReversedTwice<M>(s: seq<M>)
    ensures Reversed(Reversed(s)) == s
  {
  }

  lemma {:induction false} LastOfConcat<M>(a: seq<M>, b: seq<M>, n: nat)
    requires |b| <= n && (|b| == n || a == [])
    ensures LastOf(a + b, n) == b
  {
  }
}
