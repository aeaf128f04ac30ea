/** Texts and their lines. */
module Lines {
  /** `n` is the first newline at offset `i` or later, or the length of the text when there is none. */
  predicate IsNextNewline(s: string, i: nat, n: nat) {
    i <= n <= |s| && (n < |s| ==> s[n] == '\n') && forall j | i <= j < n :: s[j] != '\n'
  }

  lemma {:induction false} NewlineExists(s: string, i: nat)
    requires i <= |s|
    ensures exists n: nat :: IsNextNewline(s, i, n)
    decreases |s| - i
  {
    if i == |s| || s[i] == '\n' {
      assert IsNextNewline(s, i, i);
    } else {
      NewlineExists(s, i + 1);
      var n: nat :| IsNextNewline(s, i + 1, n);
      assert IsNextNewline(s, i, n);
    }
  }

  /** `indexOf("\n")` from an offset. */
  function NextNewline(s: string, i: nat): (n: nat)
    requires i <= |s|
    ensures IsNextNewline(s, i, n)
  {
    NewlineExists(s, i);
    var n: nat :| IsNextNewline(s, i, n);
    n
  }

  lemma {:induction false} NextNewlineIs(s: string, i: nat, n: nat)
    requires IsNextNewline(s, i, n)
    ensures NextNewline(s, i) == n
  {
  }

  /** The lines of a text from offset `i` on. */
  function SplitAt(s: string, i: nat): (lines: seq<string>)
    requires i <= |s|
    ensures lines != []
    decreases |s| - i
  {
    var n := NextNewline(s, i);
    if n == |s| then [s[i..]] else [s[i..n]] + SplitAt(s, n + 1)
  }

  /** `split("\n")`. */
  function Split(s: string): seq<string> { SplitAt(s, 0) }

  /** Dropping what lies before an offset does not change the lines from there on. */
  lemma {:induction false} SplitShift(s: string, k: nat, i: nat)
    requires k + i <= |s|
    ensures SplitAt(s[k..], i) == SplitAt(s, k + i)
    decreases |s| - (k + i)
  {
    var n, t := NextNewline(s, k + i), s[k..];
    NextNewlineIs(t, i, n - k);
    if n < |s| {
      SplitShift(s, k, n - k + 1);
      assert t[i..n - k] == s[k + i..n];
    } else {
      assert t[i..] == s[k + i..];
    }
  }

  /** The first newline of a text, or its length. */
  function Newline(s: string): (n: nat)
    ensures IsNextNewline(s, 0, n)
  {
    NextNewline(s, 0)
  }

  /** Splitting takes one line off the front at a time. */
  lemma {:induction false} SplitFirst(s: string)
    ensures var n := Newline(s); Split(s) == if n == |s| then [s] else [s[..n]] + Split(s[n + 1..])
  {
    var n := Newline(s);
    if n < |s| {
      SplitShift(s, n + 1, 0);
      assert s[0..n] == s[..n];
    } else {
      assert s[0..] == s;
    }
  }

  /** `join("\n")`. */
  function Join(lines: seq<string>): string {
    if lines == [] then [] else if |lines| == 1 then lines[0] else lines[0] + ['\n'] + Join(lines[1..])
  }

  /** Splitting loses nothing: joining the lines with newlines gives the text back. */
  lemma {:induction false} JoinSplit(s: string)
    ensures Join(Split(s)) == s
    decreases |s|
  {
    var n := Newline(s);
    SplitFirst(s);
    if n < |s| {
      var rest := Split(s[n + 1..]);
      JoinSplit(s[n + 1..]);
      assert ([s[..n]] + rest)[1..] == rest;
      assert s == s[..n] + ['\n'] + s[n + 1..];
    }
  }

  /** No line of a split text holds a newline. */
  lemma {:induction false} SplitAtEveryNewline(s: string, i: nat)
    requires i < |Split(s)|
    ensures '\n' !in Split(s)[i]
    decreases |s|
  {
    SplitFirst(s);
    if Newline(s) < |s| && i > 0 { SplitAtEveryNewline(s[Newline(s) + 1..], i - 1); }
  }
}
