/** The ring buffer of a background process's output, with reads that drain it. */
module OutputBuffers {
  import opened Prelude
  import opened Lines

  const MAX_SIZE: nat := 100000

  datatype Ring = Ring(buffer: string, cursor: nat)

  function Append(r: Ring, data: string): Ring {
    var grown := r.buffer + data;
    if |grown| > MAX_SIZE * 2 then
      var trim := |grown| - MAX_SIZE;
      Ring(grown[trim..], if r.cursor < trim then 0 else r.cursor - trim)
    else r.(buffer := grown)
  }

  function Unread(r: Ring): string
    requires r.cursor <= |r.buffer|
  {
    r.buffer[r.cursor..]
  }

  function Drained(r: Ring): Ring { r.(cursor := |r.buffer|) }

  /**
   * What the buffer is to everything appended so far (`stream`), of which the part before `drained` was there at the
   * last drain: a suffix of the stream, at least `MAX_SIZE` of it when there is that much and never over twice that,
   * with the cursor where the undrained part begins, or at the front when its beginning has been trimmed away.
   */
  ghost predicate Tracks(r: Ring, stream: string, drained: nat) {
    && Min(|stream|, MAX_SIZE) <= |r.buffer| <= 2 * MAX_SIZE
    && |r.buffer| <= |stream| && drained <= |stream|
    && r.buffer == stream[|stream| - |r.buffer|..]
    && r.cursor == Max(0, drained - (|stream| - |r.buffer|))
  }

  lemma {:induction false} GrownIsSuffix(stream: string, start: nat, data: string)
    requires start <= |stream|
    ensures stream[start..] + data == (stream + data)[start..]
  {
  }

  lemma {:induction false} SuffixOfSuffix(stream: string, start: nat, k: nat)
    requires start + k <= |stream|
    ensures stream[start..][k..] == stream[start + k..]
  {
  }

  lemma {:induction false} AppendTracks(r: Ring, stream: string, drained: nat, data: string)
    requires Tracks(r, stream, drained)
    ensures Tracks(Append(r, data), stream + data, drained)
  {
    var start, grown := |stream| - |r.buffer|, r.buffer + data;
    GrownIsSuffix(stream, start, data);
    if |grown| > MAX_SIZE * 2 { SuffixOfSuffix(stream + data, start, |grown| - MAX_SIZE); }
  }

  /** Nothing is given up until twice the size is passed; then exactly the last `MAX_SIZE` characters are kept. */
  lemma {:induction false} TrimsExactlyWhen(r: Ring, stream: string, drained: nat, data: string)
    requires Tracks(r, stream, drained)
    ensures |r.buffer| + |data| <= 200000 ==> Append(r, data).buffer == r.buffer + data
    ensures |r.buffer| + |data| > 200000 ==>
            |Append(r, data).buffer| == 100000 && IsSuffix(Append(r, data).buffer, stream + data)
  {
    AppendTracks(r, stream, drained, data);
  }

  /** A full drain returns the undrained text, or as much of its end as the buffer still holds. */
  lemma {:induction false} UnreadIsSuffix(r: Ring, stream: string, drained: nat)
    requires Tracks(r, stream, drained)
    ensures r.cursor <= |r.buffer|
    ensures Unread(r) == stream[Max(drained, |stream| - |r.buffer|)..]
    ensures |Unread(r)| >= Min(|stream| - drained, MAX_SIZE) && drained + |Unread(r)| <= |stream|
    ensures Unread(r) == stream[|stream| - |Unread(r)|..]
    ensures Tracks(Drained(r), stream, |stream|)
  {
    SuffixOfSuffix(stream, |stream| - |r.buffer|, r.cursor);
  }

  // ---- Line-limited reads ----

  function NonEmpty(lines: seq<string>): seq<string> {
    if lines == [] then [] else (if lines[0] == [] then [] else [lines[0]]) + NonEmpty(lines[1..])
  }

  /** What a drain shows of the text it consumes: all of it, or its last non-empty lines. */
  function Shown(text: string, maxLines: Option<int>): string {
    if maxLines.Some? && maxLines.value > 0 then Join(LastOf(NonEmpty(Split(text)), maxLines.value)) else text
  }

  lemma {:induction false} ShownOfNothing(maxLines: Option<int>)
    ensures Shown([], maxLines) == []
  {
    SplitFirst([]);
    var lines: seq<string> := [[]];
    assert Split([]) == lines && lines[1..] == [] && NonEmpty(lines) == [];
  }

  function WithoutNewlines(s: string): string {
    if s == [] then [] else (if s[0] == '\n' then [] else [s[0]]) + WithoutNewlines(s[1..])
  }

  function Concat(lines: seq<string>): string { if lines == [] then [] else lines[0] + Concat(lines[1..]) }

  lemma {:induction false} WithoutNewlinesConcat(a: string, b: string)
    ensures WithoutNewlines(a + b) == WithoutNewlines(a) + WithoutNewlines(b)
    decreases |a|
  {
    if a == [] {
      assert a + b == b;
    } else {
      assert (a + b)[1..] == a[1..] + b;
      WithoutNewlinesConcat(a[1..], b);
    }
  }

  lemma {:induction false} NoNewlinesToDrop(a: string)
    requires forall i | 0 <= i < |a| :: a[i] != '\n'
    ensures WithoutNewlines(a) == a
    decreases |a|
  {
    if a != [] { NoNewlinesToDrop(a[1..]); }
  }

  lemma {:induction false} FirstLineKeepsCharacters(head: string, rest: string)
    requires forall i | 0 <= i < |head| :: head[i] != '\n'
    ensures WithoutNewlines(head + ['\n'] + rest) == head + WithoutNewlines(rest)
  {
    NoNewlinesToDrop(head);
    WithoutNewlinesConcat(head, ['\n']);
    WithoutNewlinesConcat(head + ['\n'], rest);
    assert WithoutNewlines(['\n']) == [] && head + [] == head;
  }

  lemma {:induction false} NonEmptyOneMore(line: string, rest: seq<string>)
    ensures Concat(NonEmpty([line] + rest)) == line + Concat(NonEmpty(rest))
  {
    var tail := NonEmpty(rest);
    assert ([line] + rest)[1..] == rest;
    if line == [] {
      assert [] + tail == tail;
    } else {
      assert ([line] + tail)[1..] == tail;
    }
  }

  lemma {:induction false} OneLineKeepsCharacters(s: string)
    requires Newline(s) == |s|
    ensures Concat(NonEmpty(Split(s))) == WithoutNewlines(s)
  {
    SplitFirst(s);
    NoNewlinesToDrop(s);
    NonEmptyOneMore(s, []);
    assert [s] + [] == [s] && s + [] == s;
  }

  /** The non-empty lines hold every character but the newlines, in order. */
  lemma {:induction false} LinesKeepEveryCharacter(s: string)
    ensures Concat(NonEmpty(Split(s))) == WithoutNewlines(s)
    decreases |s|
  {
    if Newline(s) == |s| {
      OneLineKeepsCharacters(s);
    } else {
      var head, rest := s[..Newline(s)], s[Newline(s) + 1..];
      SplitFirst(s);
      LinesKeepEveryCharacter(rest);
      assert s == head + ['\n'] + rest;
      FirstLineKeepsCharacters(head, rest);
      NonEmptyOneMore(head, Split(rest));
    }
  }

  lemma {:induction false} NonEmptyHas(lines: seq<string>, i: nat)
    requires i < |NonEmpty(lines)|
    ensures NonEmpty(lines)[i] != [] && NonEmpty(lines)[i] in lines
    decreases |lines|
  {
    if lines[0] == [] {
      assert NonEmpty(lines) == NonEmpty(lines[1..]);
      NonEmptyHas(lines[1..], i);
    } else if i > 0 {
      NonEmptyHas(lines[1..], i - 1);
    }
  }

  /** What a drain shows: everything without a limit, and with one the last non-empty lines, as many as it allows. */
  lemma {:induction false} ShowsTheLastLines(text: string, maxLines: Option<int>)
    ensures maxLines.None? || maxLines.value <= 0 ==> Shown(text, maxLines) == text
    ensures maxLines.Some? && maxLines.value >= 1 ==>
            exists earlier: seq<string>, lines: seq<string> ::
              && NonEmpty(Split(text)) == earlier + lines && Shown(text, maxLines) == Join(lines)
              && |lines| <= maxLines.value && (earlier != [] ==> |lines| == maxLines.value)
              && forall i | 0 <= i < |lines| :: lines[i] != [] && '\n' !in lines[i]
  {
    if maxLines.Some? && maxLines.value >= 1 {
      var all := NonEmpty(Split(text));
      var lines := LastOf(all, maxLines.value);
      var earlier := all[..|all| - |lines|];
      assert all == earlier + lines;
      forall i | 0 <= i < |lines| ensures lines[i] != [] && '\n' !in lines[i] {
        assert lines[i] == all[|earlier| + i];
        NonEmptyHas(Split(text), |earlier| + i);
        var j :| 0 <= j < |Split(text)| && Split(text)[j] == lines[i];
        SplitAtEveryNewline(text, j);
      }
    }
  }

  // ---- Any sequence of appends and drains ----

  datatype Op = Appending(data: string) | Draining(maxLines: Option<int>)

  /** One drain: the stretch of the whole stream it consumed, and what it showed of it. */
  datatype Read = Read(from: nat, to: nat, maxLines: Option<int>, shown: string)

  /** The ring, the whole stream, and the drains so far. */
  datatype Session = Session(ring: Ring, stream: string, drains: seq<Read>)

  /** How much of the stream the first `n` drains have consumed or given up. */
  function DrainedTo(drains: seq<Read>, n: nat): nat
    requires n <= |drains|
  {
    if n == 0 then 0 else drains[n - 1].to
  }

  /** A drain that consumes the given end of the stream. */
  function ReadOf(stream: string, text: string, maxLines: Option<int>): Read
    requires |text| <= |stream|
  {
    Read(|stream| - |text|, |stream|, maxLines, Shown(text, maxLines))
  }

  function Perform(s: Session, op: Op): Session
    requires s.ring.cursor <= |s.ring.buffer| <= |s.stream|
  {
    match op
    case Appending(data) => s.(ring := Append(s.ring, data), stream := s.stream + data)
    case Draining(maxLines) =>
      Session(Drained(s.ring), s.stream, s.drains + [ReadOf(s.stream, Unread(s.ring), maxLines)])
  }

  /**
   * A drain consumes a stretch after all earlier ones, of all that came since or at least its last `MAX_SIZE`
   * characters, and shows that stretch or the last of its non-empty lines.
   */
  ghost predicate ReadsInOrder(stream: string, drains: seq<Read>, i: nat)
    requires i < |drains|
  {
    var r, previous := drains[i], DrainedTo(drains, i);
    && previous <= r.from <= r.to <= |stream|
    && r.to - r.from >= Min(r.to - previous, MAX_SIZE)
    && r.shown == Shown(stream[r.from..r.to], r.maxLines)
  }

  ghost predicate AllInOrder(stream: string, drains: seq<Read>)
    decreases |drains|
  {
    drains == [] || (AllInOrder(stream, drains[..|drains| - 1]) && ReadsInOrder(stream, drains, |drains| - 1))
  }

  lemma {:induction false} InOrderAt(stream: string, drains: seq<Read>, i: nat)
    requires AllInOrder(stream, drains) && i < |drains|
    ensures ReadsInOrder(stream, drains, i)
    decreases |drains|
  {
    var init := drains[..|drains| - 1];
    if i < |init| {
      InOrderAt(stream, init, i);
      assert init[i] == drains[i] && DrainedTo(init, i) == DrainedTo(drains, i);
    }
  }

  ghost predicate Valid(s: Session) {
    Tracks(s.ring, s.stream, DrainedTo(s.drains, |s.drains|)) && AllInOrder(s.stream, s.drains)
  }

  lemma {:induction false} AppendKeepsReads(stream: string, drains: seq<Read>, data: string)
    requires AllInOrder(stream, drains)
    ensures AllInOrder(stream + data, drains)
    decreases |drains|
  {
    if drains != [] {
      AppendKeepsReads(stream, drains[..|drains| - 1], data);
      var r := drains[|drains| - 1];
      assert (stream + data)[r.from..r.to] == stream[r.from..r.to];
    }
  }

  lemma {:induction false} AppendKeepsValid(s: Session, data: string)
    requires Valid(s)
    ensures Valid(Perform(s, Appending(data)))
  {
    AppendTracks(s.ring, s.stream, DrainedTo(s.drains, |s.drains|), data);
    AppendKeepsReads(s.stream, s.drains, data);
  }

  lemma {:induction false} DrainKeepsReads(stream: string, drains: seq<Read>, text: string, maxLines: Option<int>)
    requires AllInOrder(stream, drains)
    requires |text| <= |stream| && text == stream[|stream| - |text|..]
    requires DrainedTo(drains, |drains|) + |text| <= |stream|
    requires |text| >= Min(|stream| - DrainedTo(drains, |drains|), MAX_SIZE)
    ensures AllInOrder(stream, drains + [ReadOf(stream, text, maxLines)])
    ensures DrainedTo(drains + [ReadOf(stream, text, maxLines)], |drains| + 1) == |stream|
  {
    var all := drains + [ReadOf(stream, text, maxLines)];
    assert all[..|drains|] == drains && DrainedTo(all, |drains|) == DrainedTo(drains, |drains|);
    assert stream[|stream| - |text|..|stream|] == text;
  }

  lemma {:induction false} DrainKeepsValid(s: Session, maxLines: Option<int>)
    requires Valid(s)
    ensures Valid(Perform(s, Draining(maxLines)))
  {
    UnreadIsSuffix(s.ring, s.stream, DrainedTo(s.drains, |s.drains|));
    DrainKeepsReads(s.stream, s.drains, Unread(s.ring), maxLines);
  }

  lemma {:induction false} PerformKeepsValid(s: Session, op: Op)
    requires Valid(s)
    ensures s.ring.cursor <= |s.ring.buffer| <= |s.stream|
    ensures Valid(Perform(s, op))
  {
    match op
    case Appending(data) => AppendKeepsValid(s, data);
    case Draining(maxLines) => DrainKeepsValid(s, maxLines);
  }

  ghost function Run(s: Session, ops: seq<Op>): Session
    requires Valid(s)
    decreases |ops|
  {
    if ops == [] then s
    else
      PerformKeepsValid(s, ops[0]);
      Run(Perform(s, ops[0]), ops[1..])
  }

  /** Every sequence of appends and drains, full or line-limited, keeps the buffer and its reads in order. */
  lemma {:induction false} RunKeepsValid(s: Session, ops: seq<Op>)
    requires Valid(s)
    ensures Valid(Run(s, ops))
    decreases |ops|
  {
    if ops != [] {
      PerformKeepsValid(s, ops[0]);
      RunKeepsValid(Perform(s, ops[0]), ops[1..]);
    }
  }

  /** Everything appended in a sequence of operations, and the limits of its drains, in order. */
  function Appended(ops: seq<Op>): string
    decreases |ops|
  {
    if ops == [] then [] else (if ops[0].Appending? then ops[0].data else []) + Appended(ops[1..])
  }

  function Limits(ops: seq<Op>): seq<Option<int>>
    decreases |ops|
  {
    if ops == [] then [] else (if ops[0].Draining? then [ops[0].maxLines] else []) + Limits(ops[1..])
  }

  function LimitsOf(drains: seq<Read>): seq<Option<int>> {
    seq(|drains|, i requires 0 <= i < |drains| => drains[i].maxLines)
  }

  lemma {:induction false} JoinedRight<T>(a: seq<T>, b: seq<T>, c: seq<T>)
    ensures a + b + c == a + (b + c)
  {
  }

  /** The stream is everything appended. */
  lemma {:induction false} StreamIsEverythingAppended(s: Session, ops: seq<Op>)
    requires Valid(s)
    ensures Run(s, ops).stream == s.stream + Appended(ops)
    decreases |ops|
  {
    if ops != [] {
      PerformKeepsValid(s, ops[0]);
      StreamIsEverythingAppended(Perform(s, ops[0]), ops[1..]);
      JoinedRight(s.stream, if ops[0].Appending? then ops[0].data else [], Appended(ops[1..]));
    }
  }

  lemma {:induction false} PerformReads(s: Session, op: Op)
    requires s.ring.cursor <= |s.ring.buffer| <= |s.stream|
    ensures LimitsOf(Perform(s, op).drains) == LimitsOf(s.drains) + (if op.Draining? then [op.maxLines] else [])
  {
  }

  /** There is one read per drain, with its limit. */
  lemma {:induction false} OneReadPerDrain(s: Session, ops: seq<Op>)
    requires Valid(s)
    ensures LimitsOf(Run(s, ops).drains) == LimitsOf(s.drains) + Limits(ops)
    decreases |ops|
  {
    if ops != [] {
      PerformKeepsValid(s, ops[0]);
      PerformReads(s, ops[0]);
      OneReadPerDrain(Perform(s, ops[0]), ops[1..]);
      JoinedRight(LimitsOf(s.drains), if ops[0].Draining? then [ops[0].maxLines] else [], Limits(ops[1..]));
    }
  }

  lemma {:induction false} LaterStretches(s: Session, i: nat, j: nat)
    requires Valid(s) && i < j < |s.drains|
    ensures s.drains[i].to <= s.drains[j].from
    decreases j
  {
    InOrderAt(s.stream, s.drains, j);
    InOrderAt(s.stream, s.drains, j - 1);
    if i < j - 1 { LaterStretches(s, i, j - 1); }
  }

  /** Two drains consume separate stretches, in order. */
  ghost predicate InTurn(s: Session, i: nat, j: nat)
    requires i < j < |s.drains|
  {
    s.drains[i].from <= s.drains[i].to <= s.drains[j].from <= s.drains[j].to <= |s.stream|
  }

  /**
   * Over every run of appends and drains, full or line-limited: no character is consumed twice or out of order; every
   * drain consumes at least the last `MAX_SIZE` of what came since the one before, and shows its stretch or the last of
   * the non-empty lines of its stretch.
   */
  lemma {:induction false} EveryCharacterAtMostOnce(start: Session, ops: seq<Op>, i: nat, j: nat)
    requires Valid(start)
    ensures var s := Run(start, ops);
            && (i < j < |s.drains| ==> InTurn(s, i, j))
            && (j < |s.drains| ==> ReadsInOrder(s.stream, s.drains, j))
  {
    RunKeepsValid(start, ops);
    var s := Run(start, ops);
    InTurnWhenValid(s, i, j);
    if j < |s.drains| { InOrderAt(s.stream, s.drains, j); }
  }

  lemma {:induction false} InTurnWhenValid(s: Session, i: nat, j: nat)
    requires Valid(s)
    ensures i < j < |s.drains| ==> InTurn(s, i, j)
  {
    if i < j < |s.drains| {
      LaterStretches(s, i, j);
      InOrderAt(s.stream, s.drains, i);
      InOrderAt(s.stream, s.drains, j);
    }
  }

  // ---- The buffer object ----

  class OutputBuffer {
    var buffer: string
    var readCursor: nat
    ghost var stream: string
    ghost var drained: nat

    function Now(): Ring
      reads this
    {
      Ring(buffer, readCursor)
    }

    ghost predicate Valid()
      reads this
    {
      Tracks(Now(), stream, drained)
    }

    constructor()
      ensures Valid() && stream == [] && drained == 0
    {
      buffer, readCursor, stream, drained := [], 0, [], 0;
    }

    method AppendData(data: string)
      requires Valid()
      modifies this
      ensures Valid() && stream == old(stream) + data && drained == old(drained)
    {
      AppendTracks(Now(), stream, drained, data);
      buffer := buffer + data;
      if |buffer| > MAX_SIZE * 2 {
        var trim := |buffer| - MAX_SIZE;
        buffer := buffer[trim..];
        readCursor := if readCursor < trim then 0 else readCursor - trim;
      }
      stream := stream + data;
    }

    /** With a positive line limit only the last lines are shown, but everything unread is consumed all the same. */
    method Drain(maxLines: Option<int>) returns (text: string)
      requires Valid()
      modifies this
      ensures Valid() && stream == old(stream) && drained == |stream|
      ensures old(drained) <= |stream| && |old(buffer)| <= |stream|
      ensures var unread := stream[Max(old(drained), |stream| - |old(buffer)|)..];
              |unread| >= Min(|stream| - old(drained), MAX_SIZE) && text == Shown(unread, maxLines)
    {
      UnreadIsSuffix(Now(), stream, drained);
      var unread := buffer[readCursor..];
      drained := |stream|;
      if unread == [] {
        ShownOfNothing(maxLines);
        return [];
      }
      readCursor := |buffer|;
      if maxLines.Some? && maxLines.value > 0 {
        var nonEmpty := NonEmpty(Split(unread));
        return Join(LastOf(nonEmpty, maxLines.value));
      }
      return unread;
    }
  }
}
