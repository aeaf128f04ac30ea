/** Trimming an accumulated summary to whole sections within a budget. */
module SummaryTrim {
  import opened Prelude

  const SEPARATOR: string := "\n\n--- (compacted) ---\n\n"
  const ROUNDS_MARKER: string := "_(earlier compaction rounds trimmed)_"
  const CONTEXT_MARKER: string := "_(earlier context trimmed)_\n"

  // ---- Splitting at a separator ----

  predicate StartsWith(s: string, p: string) { |p| <= |s| && s[..|p|] == p }

  /** Where the separator first occurs, or the length when it does not. */
  function Find(s: string, sep: string): (i: nat)
    ensures i <= |s| && (i < |s| ==> i + |sep| <= |s| && s[i..i + |sep|] == sep)
    decreases |s|
  {
    if s == [] || StartsWith(s, sep) then 0
    else
      var i := Find(s[1..], sep);
      assert i < |s| - 1 ==> s[1..][i..i + |sep|] == s[i + 1..i + 1 + |sep|];
      i + 1
  }

  ghost predicate OccursAt(s: string, sep: string, j: nat) { j + |sep| <= |s| && s[j..j + |sep|] == sep }

  /** The place found is the first occurrence, and there is none exactly when nothing is found. */
  lemma {:induction false} FindIsFirst(s: string, sep: string, j: nat)
    requires sep != [] && OccursAt(s, sep, j)
    ensures Find(s, sep) <= j < |s| && OccursAt(s, sep, Find(s, sep))
    decreases j
  {
    if j == 0 {
      assert s[0..|sep|] == s[..|sep|];
    } else if !StartsWith(s, sep) {
      assert s[1..][j - 1..j - 1 + |sep|] == s[j..j + |sep|];
      FindIsFirst(s[1..], sep, j - 1);
    }
  }

  /** `split`. */
  function Sections(s: string, sep: string): (parts: seq<string>)
    requires sep != []
    ensures parts != []
    decreases |s|
  {
    var i := Find(s, sep);
    if i == |s| then [s] else [s[..i]] + Sections(s[i + |sep|..], sep)
  }

  /** `join`. */
  function Join(parts: seq<string>, sep: string): string
    requires parts != []
    decreases |parts|
  {
    if |parts| == 1 then parts[0] else parts[0] + sep + Join(parts[1..], sep)
  }

  /** The length of the joined parts. */
  function JoinedLength(parts: seq<string>, sep: string): nat
    requires parts != []
    decreases |parts|
  {
    if |parts| == 1 then |parts[0]| else |parts[0]| + |sep| + JoinedLength(parts[1..], sep)
  }

  lemma {:induction false} JoinedLengthIsLength(parts: seq<string>, sep: string)
    requires parts != []
    ensures |Join(parts, sep)| == JoinedLength(parts, sep)
    decreases |parts|
  {
    if |parts| > 1 { JoinedLengthIsLength(parts[1..], sep); }
  }

  lemma {:induction false} JoinOneMore(head: string, rest: seq<string>, sep: string)
    requires rest != []
    ensures Join([head] + rest, sep) == head + sep + Join(rest, sep)
  {
    assert ([head] + rest)[1..] == rest;
  }

  lemma {:induction false} CutInThree(s: string, i: nat, j: nat)
    requires i <= j <= |s|
    ensures s == s[..i] + s[i..j] + s[j..]
  {
  }

  /** Splitting and joining gives the text back. */
  lemma {:induction false} JoinSections(s: string, sep: string)
    requires sep != []
    ensures Join(Sections(s, sep), sep) == s
    decreases |s|
  {
    var i := Find(s, sep);
    if i < |s| {
      var rest := s[i + |sep|..];
      JoinSections(rest, sep);
      JoinOneMore(s[..i], Sections(rest, sep), sep);
      CutInThree(s, i, i + |sep|);
    }
  }

  /** No section holds the separator. */
  lemma {:induction false} SectionsHoldNoSeparator(s: string, sep: string, k: nat, j: nat)
    requires sep != [] && k < |Sections(s, sep)|
    ensures !OccursAt(Sections(s, sep)[k], sep, j)
    decreases |s|
  {
    var i := Find(s, sep);
    if i < |s| && k > 0 {
      SectionsHoldNoSeparator(s[i + |sep|..], sep, k - 1, j);
    } else if OccursAt(Sections(s, sep)[k], sep, j) {
      assert Sections(s, sep)[k] == s[..i];
      assert s[..i][j..j + |sep|] == s[j..j + |sep|];
      FindIsFirst(s, sep, j);
    }
  }

  lemma {:induction false} SuffixTrans(a: string, b: string, c: string)
    requires IsSuffix(a, b) && IsSuffix(b, c)
    ensures IsSuffix(a, c)
  {
    assert c[|c| - |b|..][|b| - |a|..] == c[|c| - |a|..];
  }

  /** The join of the last parts is a suffix of the join of all. */
  lemma {:induction false} LastPartsAreSuffix(parts: seq<string>, k: nat, sep: string)
    requires k < |parts|
    ensures IsSuffix(Join(parts[k..], sep), Join(parts, sep))
    decreases k
  {
    if k == 0 {
      assert parts[0..] == parts;
    } else {
      LastPartsAreSuffix(parts[1..], k - 1, sep);
      assert parts[1..][k - 1..] == parts[k..];
      assert IsSuffix(Join(parts[1..], sep), Join(parts, sep));
      SuffixTrans(Join(parts[k..], sep), Join(parts[1..], sep), Join(parts, sep));
    }
  }

  /** `k` begins the longest end of the sections that fits the budget, at least the newest section. */
  ghost predicate IsLongestEnd(parts: seq<string>, budget: nat, sep: string, k: int) {
    && 0 <= k < |parts|
    && (k == |parts| - 1 || JoinedLength(parts[k..], sep) <= budget)
    && (k > 0 ==> JoinedLength(parts[k - 1..], sep) > budget)
  }

  lemma {:induction false} JoinedLengthBefore(parts: seq<string>, k: nat, sep: string)
    requires 0 < k < |parts|
    ensures JoinedLength(parts[k - 1..], sep) == |parts[k - 1]| + |sep| + JoinedLength(parts[k..], sep)
  {
    assert parts[k - 1..][1..] == parts[k..];
  }

  /** The loop of `trimAccumulatedSummary`: take sections from the newest back while they fit. */
  method LastSections(parts: seq<string>, budget: nat, sep: string) returns (k: int)
    requires parts != [] && sep != []
    ensures IsLongestEnd(parts, budget, sep, k)
  {
    var length := 0;
    k := |parts|;
    var i := |parts| - 1;
    while i >= 0
      invariant -1 <= i < |parts| && k == i + 1
      invariant k < |parts| ==> length == JoinedLength(parts[k..], sep)
      invariant k < |parts| ==> length < budget
      invariant k == |parts| ==> length == 0
      decreases i
    {
      var section := parts[i];
      var next := length + |section| + (if k < |parts| then |sep| else 0);
      if k < |parts| { JoinedLengthBefore(parts, k, sep); }
      if next > budget && k < |parts| { break; }
      k := i;
      length := next;
      if k > 0 { JoinedLengthBefore(parts, k, sep); }
      if length >= budget { break; }
      i := i - 1;
    }
  }

  /** What is kept of a summary over budget: less than all of it, exactly as it stood, and no more than fits. */
  lemma {:induction false} LongestEndOfSummary(summary: string, budget: nat, k: int)
    requires |summary| > budget && IsLongestEnd(Sections(summary, SEPARATOR), budget, SEPARATOR, k)
    requires |Sections(summary, SEPARATOR)| > 1
    ensures var parts := Sections(summary, SEPARATOR);
            && k > 0 && IsSuffix(Join(parts[k..], SEPARATOR), summary)
            && |Join(parts[k..], SEPARATOR)| <= Max(budget, |parts[|parts| - 1]|)
  {
    var parts := Sections(summary, SEPARATOR);
    JoinSections(summary, SEPARATOR);
    JoinedLengthIsLength(parts, SEPARATOR);
    JoinedLengthIsLength(parts[k..], SEPARATOR);
    LastPartsAreSuffix(parts, k, SEPARATOR);
    assert parts[0..] == parts;
  }

  /** A marker and the longest end of whole sections that fits, as it stood in the summary. */
  ghost predicate IsTrimmed(summary: string, budget: nat, k: int, out: string) {
    var parts := Sections(summary, SEPARATOR);
    && IsLongestEnd(parts, budget, SEPARATOR, k) && k > 0
    && out == ROUNDS_MARKER + SEPARATOR + Join(parts[k..], SEPARATOR)
    && IsSuffix(Join(parts[k..], SEPARATOR), summary)
    && |Join(parts[k..], SEPARATOR)| <= Max(budget, |parts[|parts| - 1]|)
  }

  /** `trimAccumulatedSummary`. */
  method TrimSummary(summary: string, budget: nat) returns (out: string)
    ensures |summary| <= budget ==> out == summary
    ensures |summary| > budget && |Sections(summary, SEPARATOR)| == 1 ==>
            out == CONTEXT_MARKER + summary[|summary| - budget..]
    ensures |summary| > budget && |Sections(summary, SEPARATOR)| > 1 ==>
            exists k: int :: IsTrimmed(summary, budget, k, out)
  {
    if |summary| <= budget { return summary; }
    var parts := Sections(summary, SEPARATOR);
    if |parts| <= 1 { return CONTEXT_MARKER + summary[Max(0, |summary| - budget)..]; }
    var first := LastSections(parts, budget, SEPARATOR);
    LongestEndOfSummary(summary, budget, first);
    out := ROUNDS_MARKER + SEPARATOR + Join(parts[first..], SEPARATOR);
    assert IsTrimmed(summary, budget, first, out);
  }
}
