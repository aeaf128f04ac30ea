/** When the bounded tail of a transcript is a suffix of the full read. */
module TranscriptLaws {
  import opened Prelude
  import opened Lines
  import opened TranscriptTails

  // ---- Trimming ----

  lemma {:induction false} TrimDropsFirst(c: char, l: string)
    requires IsSpace(c)
    ensures Trim([c] + l) == Trim(l)
  {
    assert ([c] + l)[1..] == l;
  }

  lemma {:induction false} TrimStartSnoc(l: string, c: char)
    requires IsSpace(c)
    ensures TrimStart(l + [c], false) == if TrimStart(l, false) == [] then [] else TrimStart(l, false) + [c]
    decreases |l|
  {
    if l == [] {
      assert [] + [c] == [c] && [c][1..] == [];
    } else if IsSpace(l[0]) {
      assert (l + [c])[1..] == l[1..] + [c];
      TrimStartSnoc(l[1..], c);
    }
  }

  lemma {:induction false} TrimDropsLast(l: string, c: char)
    requires IsSpace(c)
    ensures Trim(l + [c]) == Trim(l)
  {
    TrimStartSnoc(l, c);
    var t := TrimStart(l, false);
    if t != [] { assert (t + [c])[..|t|] == t; }
  }

  /** Where JSON's trimming ends at a proper character, ordinary trimming ends there too. */
  lemma {:induction false} TrimStartAgrees(l: string)
    requires var x := TrimStart(l, true); x != [] && !IsSpace(x[0])
    ensures TrimStart(l, false) == TrimStart(l, true)
    decreases |l|
  {
    if l != [] && IsJsonSpace(l[0]) { TrimStartAgrees(l[1..]); }
  }

  lemma {:induction false} TrimEndAgrees(l: string)
    requires var x := TrimEnd(l, true); x != [] && !IsSpace(x[|x| - 1])
    ensures TrimEnd(l, false) == TrimEnd(l, true)
    decreases |l|
  {
    if l != [] && IsJsonSpace(l[|l| - 1]) { TrimEndAgrees(l[..|l| - 1]); }
  }

  lemma {:induction false} TrimEndIsPrefix(l: string)
    ensures TrimEnd(l, true) <= l
    decreases |l|
  {
    if l != [] && IsJsonSpace(l[|l| - 1]) { TrimEndIsPrefix(l[..|l| - 1]); }
  }

  /** A line whose document has odd white space around it: `trim` removes it, JSON does not. */
  predicate Odd<M>(docs: map<string, M>, line: string) { Trim(line) in docs && JsonTrim(line) != Trim(line) }

  lemma {:induction false} DocumentIsTrimmed(d: string)
    requires d != [] && !IsSpace(d[0]) && !IsSpace(d[|d| - 1])
    ensures JsonTrim(d) == d
  {
  }

  /** On every line the two readers agree exactly when it is not odd; on an odd one only the tail reader succeeds. */
  lemma {:induction false} ReadersAgreeUnlessOdd<M>(docs: map<string, M>, line: string)
    requires Documents(docs)
    ensures !Odd(docs, line) ==> Parse(docs, line) == LineRecord(docs, line)
    ensures Odd(docs, line) ==> Parse(docs, line).None? && LineRecord(docs, line).Some?
  {
    var d := JsonTrim(line);
    if d in docs {
      TrimEndIsPrefix(TrimStart(line, true));
      TrimStartAgrees(line);
      TrimEndAgrees(TrimStart(line, true));
      DocumentIsTrimmed(d);
      assert Trim(line) == d;
    }
    if Trim(line) in docs { DocumentIsTrimmed(Trim(line)); }
    if Trim(line) !in docs && Trim(line) != [] { TrimmedTwice(line); }
  }

  lemma {:induction false} TrimStartDone(l: string)
    ensures var x := TrimStart(l, false); x == [] || !IsSpace(x[0])
    decreases |l|
  {
    if l != [] && IsSpace(l[0]) { TrimStartDone(l[1..]); }
  }

  lemma {:induction false} TrimEndDone(l: string)
    ensures var x := TrimEnd(l, false); x <= l && (x == [] || !IsSpace(x[|x| - 1]))
    decreases |l|
  {
    if l != [] && IsSpace(l[|l| - 1]) { TrimEndDone(l[..|l| - 1]); }
  }

  lemma {:induction false} TrimmedTwice(line: string)
    requires Trim(line) != []
    ensures JsonTrim(Trim(line)) == Trim(line)
  {
    TrimStartDone(line);
    TrimEndDone(TrimStart(line, false));
    DocumentIsTrimmed(Trim(line));
  }

  // ---- Trimming the whole file does not change the records of its lines ----

  lemma {:induction false} RecordsOfLines<M>(docs: map<string, M>, head: string, rest: seq<string>)
    ensures Records(docs, [head] + rest) == One(LineRecord(docs, head)) + Records(docs, rest)
  {
    assert ([head] + rest)[1..] == rest;
  }

  lemma {:induction false} RecordsOfLine<M>(docs: map<string, M>, line: string)
    ensures Records(docs, [line]) == One(LineRecord(docs, line))
  {
    RecordsOfLines(docs, line, []);
    assert [line] + [] == [line] && One(LineRecord(docs, line)) + [] == One(LineRecord(docs, line));
  }

  /** Two first lines that trim to the same text make the same records. */
  lemma {:induction false} SameFirstRecord<M>(docs: map<string, M>, a: string, b: string, rest: seq<string>)
    requires Trim(a) == Trim(b)
    ensures Records(docs, [a] + rest) == Records(docs, [b] + rest)
    ensures Records(docs, [a]) == Records(docs, [b])
  {
    RecordsOfLines(docs, a, rest);
    RecordsOfLines(docs, b, rest);
    RecordsOfLine(docs, a);
    RecordsOfLine(docs, b);
  }

  lemma {:induction false} BlankLineAddsNothing<M>(docs: map<string, M>)
    ensures Records(docs, [[]]) == []
  {
    RecordsOfLine(docs, []);
    assert LineRecord(docs, []) == None;
  }

  /** How the lines change when a text loses its first character: a newline, or another one. */
  lemma {:induction false} SplitAfterNewline(s: string)
    requires s != [] && s[0] == '\n'
    ensures Split(s) == [[]] + Split(s[1..])
  {
    NextNewlineIs(s, 0, 0);
    SplitShift(s, 1, 0);
    assert s[0..0] == [];
  }

  lemma {:induction false} SplitAfterOther(s: string) returns (line: string, rest: seq<string>)
    requires s != [] && s[0] != '\n'
    ensures Split(s[1..]) == [line] + rest && Split(s) == [[s[0]] + line] + rest
  {
    var n := NextNewline(s, 0);
    SplitShift(s, 1, 0);
    NextNewlineIs(s, 1, n);
    line := s[1..n];
    assert s[0..n] == [s[0]] + line;
    if n < |s| {
      rest := SplitAt(s, n + 1);
    } else {
      rest := [];
      assert s[0..] == s[0..n] && s[1..] == line;
    }
  }

  lemma {:induction false} DropFirstKeepsRecords<M>(docs: map<string, M>, s: string)
    requires s != [] && IsSpace(s[0])
    ensures Records(docs, Split(s)) == Records(docs, Split(s[1..]))
  {
    if s[0] == '\n' {
      SplitAfterNewline(s);
      RecordsConcat(docs, [[]], Split(s[1..]));
      BlankLineAddsNothing(docs);
    } else {
      var line, rest := SplitAfterOther(s);
      TrimDropsFirst(s[0], line);
      SameFirstRecord(docs, [s[0]] + line, line, rest);
    }
  }

  /** The lines of a text that ends with `c`, given those of the text without it. */
  ghost function LinesWith(before: seq<string>, line: string, c: char): seq<string> {
    if c == '\n' then before + [line, []] else before + [line + [c]]
  }

  lemma {:induction false} LastLineWithoutLast(s: string, i: nat)
    requires i < |s| && NextNewline(s, i) >= |s| - 1
    ensures SplitAt(s[..|s| - 1], i) == [s[..|s| - 1][i..]]
    ensures SplitAt(s, i) == LinesWith([], s[..|s| - 1][i..], s[|s| - 1])
  {
    var n, init := NextNewline(s, i), s[..|s| - 1];
    NextNewlineIs(init, i, |init|);
    if n == |s| {
      assert s[i..] == init[i..] + [s[|s| - 1]];
    } else {
      NextNewlineIs(s, |s|, |s|);
      assert s[i..n] == init[i..] && s[|s|..] == [];
    }
  }

  lemma {:induction false} LinesWithOneMore(first: string, rest: seq<string>, line: string, c: char)
    ensures [first] + LinesWith(rest, line, c) == LinesWith([first] + rest, line, c)
    ensures [first] + (rest + [line]) == ([first] + rest) + [line]
  {
  }

  lemma {:induction false} SplitStep(s: string, i: nat, n: nat)
    requires IsNextNewline(s, i, n) && n < |s|
    ensures SplitAt(s, i) == [s[i..n]] + SplitAt(s, n + 1)
  {
    NextNewlineIs(s, i, n);
  }

  lemma {:induction false} StepWithoutLast(s: string, i: nat, n: nat, rest: seq<string>, line: string)
    requires IsNextNewline(s, i, n) && n < |s| - 1
    requires SplitAt(s[..|s| - 1], n + 1) == rest + [line] && SplitAt(s, n + 1) == LinesWith(rest, line, s[|s| - 1])
    ensures SplitAt(s[..|s| - 1], i) == [s[i..n]] + rest + [line]
    ensures SplitAt(s, i) == LinesWith([s[i..n]] + rest, line, s[|s| - 1])
  {
    var init := s[..|s| - 1];
    SplitStep(s, i, n);
    SplitStep(init, i, n);
    assert init[i..n] == s[i..n];
    LinesWithOneMore(s[i..n], rest, line, s[|s| - 1]);
  }

  /** How the lines change when a text loses its last character. */
  lemma {:induction false} SplitWithoutLast(s: string, i: nat) returns (before: seq<string>, line: string)
    requires i < |s|
    ensures SplitAt(s[..|s| - 1], i) == before + [line]
    ensures SplitAt(s, i) == LinesWith(before, line, s[|s| - 1])
    decreases |s| - i
  {
    var n := NextNewline(s, i);
    if n < |s| - 1 {
      var rest;
      rest, line := SplitWithoutLast(s, n + 1);
      before := [s[i..n]] + rest;
      StepWithoutLast(s, i, n, rest, line);
    } else {
      LastLineWithoutLast(s, i);
      before, line := [], s[..|s| - 1][i..];
    }
  }

  lemma {:induction false} DropLastKeepsRecords<M>(docs: map<string, M>, s: string)
    requires s != [] && IsSpace(s[|s| - 1])
    ensures Records(docs, Split(s)) == Records(docs, Split(s[..|s| - 1]))
  {
    var before, line := SplitWithoutLast(s, 0);
    var c := s[|s| - 1];
    if c == '\n' {
      assert before + [line, []] == (before + [line]) + [[]];
      RecordsConcat(docs, before + [line], [[]]);
      BlankLineAddsNothing(docs);
    } else {
      TrimDropsLast(line, c);
      SameFirstRecord(docs, line + [c], line, []);
      RecordsConcat(docs, before, [line]);
      RecordsConcat(docs, before, [line + [c]]);
    }
  }

  lemma {:induction false} TrimStartKeepsRecords<M>(docs: map<string, M>, s: string)
    ensures Records(docs, Split(TrimStart(s, false))) == Records(docs, Split(s))
    decreases |s|
  {
    if s != [] && IsSpace(s[0]) {
      DropFirstKeepsRecords(docs, s);
      TrimStartKeepsRecords(docs, s[1..]);
    }
  }

  lemma {:induction false} TrimEndKeepsRecords<M>(docs: map<string, M>, s: string)
    ensures Records(docs, Split(TrimEnd(s, false))) == Records(docs, Split(s))
    decreases |s|
  {
    if s != [] && IsSpace(s[|s| - 1]) {
      DropLastKeepsRecords(docs, s);
      TrimEndKeepsRecords(docs, s[..|s| - 1]);
    }
  }

  lemma {:induction false} TrimKeepsRecords<M>(docs: map<string, M>, file: string)
    ensures Records(docs, Split(Trim(file))) == Records(docs, Split(file))
  {
    TrimStartKeepsRecords(docs, file);
    TrimEndKeepsRecords(docs, TrimStart(file, false));
  }

  // ---- The two readers of a whole file ----

  ghost predicate NoOddLine<M>(docs: map<string, M>, lines: seq<string>) {
    forall i | 0 <= i < |lines| :: !Odd(docs, lines[i])
  }

  lemma {:induction false} NoOddLineUnfolds<M>(docs: map<string, M>, lines: seq<string>)
    requires lines != []
    ensures NoOddLine(docs, lines) <==> !Odd(docs, lines[0]) && NoOddLine(docs, lines[1..])
  {
    assert lines == [lines[0]] + lines[1..];
  }

  lemma {:induction false} ParsedAgainstRecords<M>(docs: map<string, M>, lines: seq<string>)
    requires Documents(docs)
    ensures |Parsed(docs, lines)| <= |Records(docs, lines)|
    ensures NoOddLine(docs, lines) ==> Parsed(docs, lines) == Records(docs, lines)
    ensures |Parsed(docs, lines)| == |Records(docs, lines)| ==> NoOddLine(docs, lines)
    decreases |lines|
  {
    if lines != [] {
      ReadersAgreeUnlessOdd(docs, lines[0]);
      ParsedAgainstRecords(docs, lines[1..]);
      NoOddLineUnfolds(docs, lines);
    }
  }

  /** The full read is the line-by-line read of the file, unless the trimmed file has an odd line. */
  lemma {:induction false} FullReadAgainstRecords<M>(docs: map<string, M>, file: string)
    requires Documents(docs)
    ensures |FullRead(docs, file)| <= |Records(docs, Split(file))|
    ensures NoOddLine(docs, Split(Trim(file))) ==> FullRead(docs, file) == Records(docs, Split(file))
    ensures |FullRead(docs, file)| == |Records(docs, Split(file))| ==> NoOddLine(docs, Split(Trim(file)))
  {
    TrimKeepsRecords(docs, file);
    ParsedAgainstRecords(docs, Split(Trim(file)));
    if Trim(file) == [] { BlankFile(docs); }
  }

  lemma {:induction false} BlankFile<M>(docs: map<string, M>)
    requires Documents(docs)
    ensures Split([]) == [[]] && Records(docs, [[]]) == [] && Parsed(docs, [[]]) == []
  {
    RecordsOfLines(docs, [], []);
    var lines: seq<string> := [[]];
    assert lines + [] == lines && lines[1..] == [];
    assert Parsed(docs, lines) == One(Parse(docs, [])) + Parsed(docs, []);
    assert JsonTrim([]) == [];
  }

  // ---- The tail ----

  /**
   * The tail is always a suffix of the line-by-line records of the whole file, and its length is the limit or the
   * number of records on the lines wholly inside the window, whichever is less.
   */
  lemma {:induction false} TailIsSuffixOfRecords<M>(docs: map<string, M>, file: string, limit: nat, maxBytes: int)
    requires maxBytes > 0
    ensures IsSuffix(Tail(docs, file, limit, maxBytes), Records(docs, Split(file)))
    ensures |Tail(docs, file, limit, maxBytes)| == Min(limit, |Records(docs, WindowLines(file, maxBytes))|)
  {
    var dropped := LinesFromIsSuffix(file, 0, |file| - maxBytes);
    var window := WindowLines(file, maxBytes);
    RecordsConcat(docs, dropped, window);
    SuffixOfConcat(Records(docs, dropped), Records(docs, window), limit);
  }

  lemma {:induction false} SuffixOfConcat<M>(a: seq<M>, b: seq<M>, n: nat)
    ensures IsSuffix(LastOf(b, n), a + b)
  {
  }

  ghost predicate TailsAreSuffixes<M>(docs: map<string, M>, file: string) {
    forall limit: nat, maxBytes: int | maxBytes > 0 :: IsSuffix(Tail(docs, file, limit, maxBytes), FullRead(docs, file))
  }

  /** Every bounded tail is a suffix of the full read exactly when no line has odd white space around its document. */
  lemma {:induction false} TailsAreSuffixesExactlyWhen<M>(docs: map<string, M>, file: string)
    requires Documents(docs)
    ensures TailsAreSuffixes(docs, file) <==> NoOddLine(docs, Split(Trim(file)))
  {
    var all := Records(docs, Split(file));
    FullReadAgainstRecords(docs, file);
    if NoOddLine(docs, Split(Trim(file))) {
      forall limit: nat, maxBytes: int | maxBytes > 0
        ensures IsSuffix(Tail(docs, file, limit, maxBytes), FullRead(docs, file))
      {
        TailIsSuffixOfRecords(docs, file, limit, maxBytes);
      }
    }
    if TailsAreSuffixes(docs, file) {
      var maxBytes := |file| + 1;
      assert Tail(docs, file, |all|, maxBytes) == all;
      assert IsSuffix(Tail(docs, file, |all|, maxBytes), FullRead(docs, file));
    }
  }

  /** It can fail: a no-break space in front of a second line hides that record from the full read only. */
  lemma {:induction false} OddLineBreaksSuffix()
    ensures exists docs: map<string, int>, file: string :: Documents(docs) && !TailsAreSuffixes(docs, file)
  {
    var docs := map["1" := 1];
    var odd := ['\U{00A0}', '1'];
    var file := ['2', '\n'] + odd;
    assert TrimStart(odd, false) == "1" by { assert odd[1..] == "1"; }
    assert Trim(odd) == "1" && JsonTrim(odd) == odd;
    assert Odd(docs, odd);
    assert Trim(file) == file;
    NextNewlineIs(file, 0, 1);
    NextNewlineIs(file, 2, 4);
    assert file[2..] == odd;
    assert Split(file) == [file[0..1]] + SplitAt(file, 2) && SplitAt(file, 2) == [odd];
    assert Split(file)[1] == odd;
    TailsAreSuffixesExactlyWhen(docs, file);
  }
}
