/** The collector of a native CLI's output: protocol lines as they arrive, and a bounded tail of the raw bytes. */
module CliCollectors {
  import opened Prelude
  import opened Lines

  const LINE_LIMIT: nat := 1024 * 1024
  const TAIL_LIMIT: nat := 64 * 1024

  // ---- The bounded tail ----

  /** `appendBoundedTail`. */
  function AppendTail(current: string, chunk: string): string {
    if |chunk| >= TAIL_LIMIT then chunk[|chunk| - TAIL_LIMIT..]
    else LastOf(current, TAIL_LIMIT - |chunk|) + chunk
  }

  lemma {:induction false} LastOfLast(s: string, n: nat, k: nat)
    requires k <= n
    ensures LastOf(LastOf(s, n), k) == LastOf(s, k)
  {
    var a, b := |s| - Min(|s|, n), |s| - Min(|s|, k);
    assert s[a..][b - a..] == s[b..];
  }

  lemma {:induction false} LastOfConcat(s: string, u: string, k: nat)
    ensures LastOf(s, k) + u == LastOf(s + u, Min(|s|, k) + |u|)
  {
    var a := |s| - Min(|s|, k);
    assert s[a..] + u == (s + u)[a..];
  }

  /** Appending to a tail gives the tail of everything. */
  lemma {:induction false} AppendTailIsTail(before: string, chunk: string)
    ensures AppendTail(LastOf(before, 65536), chunk) == LastOf(before + chunk, 65536)
  {
    var all := before + chunk;
    if |chunk| >= TAIL_LIMIT {
      assert chunk[|chunk| - TAIL_LIMIT..] == all[|all| - TAIL_LIMIT..];
    } else {
      LastOfLast(before, TAIL_LIMIT, TAIL_LIMIT - |chunk|);
      LastOfConcat(before, chunk, TAIL_LIMIT - |chunk|);
    }
  }

  // ---- Lines ----

  function Short(lines: seq<string>): seq<string> {
    if lines == [] then []
    else Kept(lines[0]) + Short(lines[1..])
  }

  /** What the collector holds between chunks: the lines inspected so far, the unfinished line, the skip flag. */
  datatype Progress = Progress(inspected: seq<string>, line: string, skipping: bool)

  const BEGIN: Progress := Progress([], [], false)

  /** One character of the stream. */
  function Feed(p: Progress, c: char): Progress {
    if c == '\n' then
      if p.skipping then p.(skipping := false)
      else Progress(p.inspected + (if |p.line| <= LINE_LIMIT then [p.line] else []), [], false)
    else if p.skipping then p
    else if |p.line| + 1 > LINE_LIMIT then Progress(p.inspected, [], true)
    else p.(line := p.line + [c])
  }

  function FeedAll(p: Progress, s: string): Progress
    decreases |s|
  {
    if s == [] then p else FeedAll(Feed(p, s[0]), s[1..])
  }

  predicate Coherent(p: Progress) { |p.line| <= LINE_LIMIT && (p.skipping ==> p.line == []) }

  lemma {:induction false} FeedKeepsCoherent(p: Progress, s: string)
    requires Coherent(p)
    ensures Coherent(FeedAll(p, s))
    decreases |s|
  {
    if s != [] { FeedKeepsCoherent(Feed(p, s[0]), s[1..]); }
  }

  /** Feeding two pieces is feeding their concatenation. */
  lemma {:induction false} FeedConcat(p: Progress, a: string, b: string)
    ensures FeedAll(FeedAll(p, a), b) == FeedAll(p, a + b)
    decreases |a|
  {
    if a == [] {
      assert a + b == b;
    } else {
      assert (a + b)[1..] == a[1..] + b;
      FeedConcat(Feed(p, a[0]), a[1..], b);
    }
  }

  /** A piece without a newline extends the unfinished line, or drops it for good once it is too long. */
  lemma {:induction false} FeedPlain(p: Progress, s: string)
    requires Coherent(p) && forall i | 0 <= i < |s| :: s[i] != '\n'
    ensures FeedAll(p, s) ==
            if p.skipping then p
            else if |p.line| + |s| > LINE_LIMIT then Progress(p.inspected, [], true)
            else p.(line := p.line + s)
    decreases |s|
  {
    if s == [] {
      assert p.line + [] == p.line;
    } else {
      FeedPlain(Feed(p, s[0]), s[1..]);
      assert p.line + s == (p.line + [s[0]]) + s[1..];
    }
  }

  /** What `finish` has inspected in all: the finished lines, and the rest unless it is being skipped. */
  function Finished(p: Progress): seq<string> {
    if p.skipping then p.inspected else p.inspected + [p.line]
  }

  /** A line counts up to 1048576 characters. */
  function Kept(line: string): seq<string> { if |line| <= 1048576 then [line] else [] }

  /** A stream that starts with a whole line: the line is dealt with, and the next one starts fresh. */
  lemma {:induction false} FeedLine(done: seq<string>, head: string, rest: string)
    requires forall i | 0 <= i < |head| :: head[i] != '\n'
    ensures FeedAll(Progress(done, [], false), head + ['\n'] + rest) ==
            FeedAll(Progress(done + Kept(head), [], false), rest)
  {
    var start := Progress(done, [], false);
    FeedPlain(start, head);
    var mid := FeedAll(start, head);
    assert [] + head == head && done + [] == done;
    assert Feed(mid, '\n') == Progress(done + Kept(head), [], false);
    assert head + ['\n'] + rest == head + (['\n'] + rest) && (['\n'] + rest)[1..] == rest;
    FeedConcat(start, head, ['\n'] + rest);
  }

  /** A stream with no newline is one unfinished line. */
  lemma {:induction false} FeedRest(done: seq<string>, s: string)
    requires Newline(s) == |s|
    ensures Finished(FeedAll(Progress(done, [], false), s)) == done + Short(Split(s))
  {
    SplitFirst(s);
    assert [s][1..] == [] && Kept(s) + [] == Kept(s);
    FeedPlain(Progress(done, [], false), s);
    assert [] + s == s && done + [] == done;
  }

  lemma {:induction false} SplitMore(s: string)
    requires Newline(s) < |s|
    ensures Short(Split(s)) == Kept(s[..Newline(s)]) + Short(Split(s[Newline(s) + 1..]))
  {
    var head, rest := s[..Newline(s)], Split(s[Newline(s) + 1..]);
    SplitFirst(s);
    assert ([head] + rest)[0] == head && ([head] + rest)[1..] == rest;
  }

  /** From a fresh line, the lines inspected are the short ones of the split stream. */
  lemma {:induction false} FeedSplits(done: seq<string>, s: string)
    ensures Finished(FeedAll(Progress(done, [], false), s)) == done + Short(Split(s))
    decreases |s|
  {
    if Newline(s) == |s| {
      FeedRest(done, s);
    } else {
      var head, rest := s[..Newline(s)], s[Newline(s) + 1..];
      SplitMore(s);
      assert s == head + ['\n'] + rest;
      FeedLine(done, head, rest);
      FeedSplits(done + Kept(head), rest);
      assert done + (Kept(head) + Short(Split(rest))) == (done + Kept(head)) + Short(Split(rest));
    }
  }

  function Flatten(chunks: seq<string>): string {
    if chunks == [] then [] else chunks[0] + Flatten(chunks[1..])
  }

  function FeedChunks(p: Progress, chunks: seq<string>): Progress
    decreases |chunks|
  {
    if chunks == [] then p else FeedChunks(FeedAll(p, chunks[0]), chunks[1..])
  }

  lemma {:induction false} FeedChunksIsFeed(p: Progress, chunks: seq<string>)
    ensures FeedChunks(p, chunks) == FeedAll(p, Flatten(chunks))
    decreases |chunks|
  {
    if chunks != [] {
      FeedChunksIsFeed(FeedAll(p, chunks[0]), chunks[1..]);
      FeedConcat(p, chunks[0], Flatten(chunks[1..]));
    }
  }

  /**
   * However the stream is cut into chunks, the lines inspected are exactly those of the whole stream, split at
   * newlines, that fit the limit.
   */
  lemma {:induction false} ChunkingDoesNotMatter(chunks: seq<string>)
    ensures Finished(FeedChunks(BEGIN, chunks)) == Short(Split(Flatten(chunks)))
  {
    FeedChunksIsFeed(BEGIN, chunks);
    FeedSplits([], Flatten(chunks));
    assert [] + Short(Split(Flatten(chunks))) == Short(Split(Flatten(chunks)));
  }

  // ---- The collector object ----

  class Collector {
    var inspected: seq<string>
    var pendingLine: string
    var skipOversizedLine: bool
    var stdoutTail: string
    ghost var stream: string

    ghost function Held(): Progress
      reads this
    {
      Progress(inspected, pendingLine, skipOversizedLine)
    }

    /** Everything held is a function of the stream so far, not of how it was cut. */
    ghost predicate Valid()
      reads this
    {
      Held() == FeedAll(BEGIN, stream) && stdoutTail == LastOf(stream, TAIL_LIMIT)
    }

    constructor()
      ensures Valid() && stream == []
    {
      inspected, pendingLine, skipOversizedLine, stdoutTail, stream := [], [], false, [], [];
    }

    method InspectLine(line: string)
      modifies this`inspected
      ensures inspected == old(inspected) + [line]
    {
      inspected := inspected + [line];
    }

    method Consume(text: string)
      requires Coherent(Held())
      modifies this`inspected, this`pendingLine, this`skipOversizedLine
      ensures Held() == FeedAll(old(Held()), text)
    {
      var remaining := text;
      while |remaining| > 0
        invariant Coherent(Held())
        invariant FeedAll(Held(), remaining) == FeedAll(old(Held()), text)
        decreases |remaining|
      {
        var newline := Newline(remaining);
        var head := remaining[..newline];
        FeedPlain(Held(), head);
        FeedConcat(Held(), head, remaining[newline..]);
        FeedKeepsCoherent(Held(), head);
        assert head + remaining[newline..] == remaining;
        if newline < |remaining| {
          assert remaining[newline..][0] == '\n' && remaining[newline..][1..] == remaining[newline + 1..];
        }
        if skipOversizedLine {
          if newline == |remaining| { return; }
          skipOversizedLine := false;
          remaining := remaining[newline + 1..];
          continue;
        }
        if newline == |remaining| {
          pendingLine := pendingLine + remaining;
          if |pendingLine| > LINE_LIMIT {
            pendingLine := [];
            skipOversizedLine := true;
          }
          return;
        }
        pendingLine := pendingLine + head;
        if |pendingLine| <= LINE_LIMIT { InspectLine(pendingLine); }
        pendingLine := [];
        remaining := remaining[newline + 1..];
      }
    }

    method Stdout(chunk: string)
      requires Valid()
      modifies this
      ensures Valid() && stream == old(stream) + chunk
    {
      FeedKeepsCoherent(BEGIN, stream);
      FeedConcat(BEGIN, stream, chunk);
      AppendTailIsTail(stream, chunk);
      stdoutTail := AppendTail(stdoutTail, chunk);
      Consume(chunk);
      stream := stream + chunk;
    }

    method Finish() returns (tail: string)
      requires Valid()
      modifies this`inspected
      ensures inspected == Short(Split(stream))
      ensures tail == LastOf(stream, TAIL_LIMIT)
    {
      FeedSplits([], stream);
      assert [] + Short(Split(stream)) == Short(Split(stream));
      if !skipOversizedLine { InspectLine(pendingLine); }
      tail := stdoutTail;
    }
  }
}
