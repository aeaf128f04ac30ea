/** Transcript compaction: where the history is cut, what is kept, and how summaries are trimmed. */
module Compaction {
  import opened Prelude

  // ---- Messages ----

  datatype Role = System | User | Assistant(calls: set<string>) | ToolResult(call: string)

  /** A message as compaction sees it: its role and its estimated size. */
  datatype Message = Message(role: Role, tokens: nat, text: string)

  function Total(messages: seq<Message>): nat
    decreases |messages|
  {
    if messages == [] then 0 else messages[0].tokens + Total(messages[1..])
  }

  /** The assistant message at `i` made the call that the result at `j` answers, with only results in between. */
  predicate Answers(h: seq<Message>, i: int, j: int) {
    && 0 <= i < j < |h| && h[i].role.Assistant? && h[j].role.ToolResult? && h[j].role.call in h[i].role.calls
    && forall k | i < k < j :: h[k].role.ToolResult?
  }

  /** Every tool result follows the message that made its call. */
  ghost predicate WellFormed(h: seq<Message>) {
    forall j | 0 <= j < |h| && h[j].role.ToolResult? :: exists i :: Answers(h, i, j)
  }

  // ---- Where to cut ----

  function Budget(h: seq<Message>, keepRatio: real): nat {
    var share := (Total(h) as real * keepRatio).Floor;
    if share < 1 then 1 else share
  }

  /** What may be kept: the whole part of the given share of the total, but at least one. */
  ghost predicate IsShare(total: nat, ratio: real, budget: nat) {
    && budget >= 1 && total as real * ratio < (budget + 1) as real
    && (budget > 1 ==> budget as real <= total as real * ratio)
  }

  lemma {:induction false} BudgetIsTheShare(h: seq<Message>, keepRatio: real, budget: nat)
    ensures IsShare(Total(h), keepRatio, budget) <==> budget == Budget(h, keepRatio)
  {
  }

  /** The total is that of its messages, whichever of them is taken out first. */
  lemma {:induction false} TotalAddsEveryMessage(h: seq<Message>, i: nat)
    requires i < |h|
    ensures Total(h) == Total(h[..i] + h[i + 1..]) + h[i].tokens && Total([]) == 0
    decreases |h|
  {
    if i == 0 {
      assert h[..0] + h[1..] == h[1..];
    } else {
      TotalAddsEveryMessage(h[1..], i - 1);
      var rest := h[1..][..i - 1] + h[1..][i..];
      assert h[..i] + h[i + 1..] == [h[0]] + rest;
      assert ([h[0]] + rest)[1..] == rest;
    }
  }

  /** `cut` is where the shortest end of the history that meets the budget begins, but never the first message. */
  ghost predicate IsBudgetCut(h: seq<Message>, budget: nat, cut: int) {
    && 1 <= cut < |h|
    && Total(h[cut + 1..]) < budget
    && (cut == 1 || Total(h[cut..]) >= budget)
  }

  /** There is only one such place. */
  lemma {:induction false} BudgetCutIsUnique(h: seq<Message>, budget: nat, a: int, b: int)
    requires IsBudgetCut(h, budget, a) && IsBudgetCut(h, budget, b)
    ensures a == b
  {
    if a < b { TotalOfEnd(h, a + 1, b); }
    if b < a { TotalOfEnd(h, b + 1, a); }
  }

  /** A longer end of the history is at least as large. */
  lemma {:induction false} TotalOfEnd(h: seq<Message>, a: nat, b: nat)
    requires a <= b <= |h|
    ensures Total(h[b..]) <= Total(h[a..])
    decreases b - a
  {
    if a < b {
      TotalOfEnd(h, a + 1, b);
      assert h[a..][1..] == h[a + 1..];
    }
  }

  /** `split` is the cut moved back over tool results, to the message that made their calls if there is one. */
  ghost predicate IsSplit(h: seq<Message>, cut: int, split: int) {
    && 1 <= split <= cut < |h|
    && (forall k | split < k <= cut :: h[k].role.ToolResult?)
    && (split == 1 || !h[split].role.ToolResult?)
  }

  method SplitMessages(h: seq<Message>, keepRatio: real) returns (splitAt: int)
    ensures |h| < 2 ==> splitAt == |h| - 1
    ensures |h| >= 2 ==> exists cut: int :: IsBudgetCut(h, Budget(h, keepRatio), cut) && IsSplit(h, cut, splitAt)
  {
    var budget := Budget(h, keepRatio);
    var keptTokens := 0;
    splitAt := |h| - 1;
    var i := |h| - 1;
    assert |h| > 0 ==> h[|h|..] == [];
    while i > 0
      invariant |h| >= 1 ==> 0 <= i < |h|
      invariant |h| == 0 ==> i == -1
      invariant splitAt == if i < |h| - 1 then i + 1 else |h| - 1
      invariant |h| >= 1 ==> keptTokens == Total(h[i + 1..])
      invariant i < |h| - 1 ==> keptTokens < budget
    {
      assert h[i..][1..] == h[i + 1..];
      keptTokens := keptTokens + h[i].tokens;
      splitAt := i;
      if keptTokens >= budget { break; }
      i := i - 1;
    }
    if |h| < 2 { return; }
    ghost var cut := splitAt;
    assert IsBudgetCut(h, budget, cut);
    while h[splitAt].role.ToolResult? && splitAt > 1
      invariant 1 <= splitAt <= cut
      invariant forall k | splitAt < k <= cut :: h[k].role.ToolResult?
    {
      splitAt := splitAt - 1;
    }
    assert IsSplit(h, cut, splitAt);
  }

  /** The kept part of a well-formed history is well formed exactly when it does not begin with a tool result. */
  lemma {:induction false} KeptIsWellFormedExactlyWhen(h: seq<Message>, split: nat)
    requires WellFormed(h) && split < |h|
    ensures WellFormed(h[split..]) <==> !h[split].role.ToolResult?
  {
    var kept := h[split..];
    if !h[split].role.ToolResult? {
      forall j | 0 <= j < |kept| && kept[j].role.ToolResult? ensures exists i :: Answers(kept, i, j) {
        var i :| Answers(h, i, split + j);
        assert i >= split;
        assert Answers(kept, i - split, j);
      }
    }
  }

  /**
   * A history that begins with a user message: something is compacted, something is kept, and no kept tool result
   * is separated from its call.
   */
  lemma {:induction false} SplitKeepsCallsWithResults(h: seq<Message>, cut: int, split: int)
    requires WellFormed(h) && |h| >= 2 && h[0].role.User? && IsSplit(h, cut, split)
    ensures 0 < split < |h| && WellFormed(h[split..])
  {
    KeptIsWellFormedExactlyWhen(h, split);
  }

  // ---- The transform ----

  function Conversation(messages: seq<Message>): (h: seq<Message>)
    ensures forall m | m in h :: !m.role.System?
    decreases |messages|
  {
    if messages == [] then []
    else (if messages[0].role.System? then [] else [messages[0]]) + Conversation(messages[1..])
  }

  lemma {:induction false} ConversationConcat(a: seq<Message>, b: seq<Message>)
    ensures Conversation(a + b) == Conversation(a) + Conversation(b)
    decreases |a|
  {
    if a == [] {
      assert a + b == b;
    } else {
      assert (a + b)[1..] == a[1..] + b;
      ConversationConcat(a[1..], b);
    }
  }

  lemma {:induction false} ConversationOfConversation(h: seq<Message>)
    requires forall m | m in h :: !m.role.System?
    ensures Conversation(h) == h
    decreases |h|
  {
    if h != [] {
      assert h[0] in h;
      ConversationOfConversation(h[1..]);
    }
  }

  /** A conversation fit to send: it starts with the user, and every result follows its call. */
  ghost predicate Sendable(messages: seq<Message>) {
    var h := Conversation(messages);
    h != [] && h[0].role.User? && WellFormed(h)
  }

  /** What a compaction makes of the messages: the instructions, a summary, and an end of the conversation. */
  ghost predicate IsCompaction(
      messages: seq<Message>, baseline: Option<Message>, summary: Message, k: nat, out: seq<Message>) {
    var h := Conversation(messages);
    0 < k < |h| && out == (if baseline.Some? then [baseline.value] else []) + [summary] + h[k..]
  }

  lemma {:induction false} CompactedConversation(
      messages: seq<Message>, baseline: Option<Message>, summary: Message, k: nat, out: seq<Message>)
    requires IsCompaction(messages, baseline, summary, k, out)
    requires summary.role.User? && (baseline.Some? ==> baseline.value.role.System?)
    ensures Conversation(out) == [summary] + Conversation(messages)[k..]
  {
    var kept := Conversation(messages)[k..];
    var head := if baseline.Some? then [baseline.value] else [];
    forall m | m in kept ensures !m.role.System? { assert m in Conversation(messages); }
    ConversationOfConversation(kept);
    ConversationConcat(head + [summary], kept);
    ConversationConcat(head, [summary]);
    assert Conversation([summary]) == [summary] && Conversation(head) == [] && [] + [summary] == [summary];
  }

  lemma {:induction false} SummaryThenKept(summary: Message, kept: seq<Message>)
    requires summary.role.User? && WellFormed(kept)
    ensures WellFormed([summary] + kept)
  {
    var h := [summary] + kept;
    forall j | 0 <= j < |h| && h[j].role.ToolResult? ensures exists i :: Answers(h, i, j) {
      var i :| Answers(kept, i, j - 1);
      assert Answers(h, i + 1, j);
    }
  }

  /** Compacting a sendable conversation gives a sendable one, whose end is the old one's end, message for message. */
  lemma {:induction false} CompactionStaysSendable(
    messages: seq<Message>, baseline: Option<Message>, summary: Message, cut: int, k: nat, out: seq<Message>)
    requires Sendable(messages) && IsSplit(Conversation(messages), cut, k)
    requires IsCompaction(messages, baseline, summary, k, out)
    requires summary.role.User? && (baseline.Some? ==> baseline.value.role.System?)
    ensures Sendable(out) && Conversation(out)[1..] == Conversation(messages)[k..]
  {
    var h := Conversation(messages);
    SplitKeepsCallsWithResults(h, cut, k);
    CompactedConversation(messages, baseline, summary, k, out);
    SummaryThenKept(summary, h[k..]);
    assert ([summary] + h[k..])[1..] == h[k..];
  }

  /** A turn that answers its own calls can follow any sendable conversation. */
  lemma {:induction false} TurnStaysSendable(messages: seq<Message>, turn: seq<Message>)
    requires Sendable(messages) && WellFormed(Conversation(turn))
    ensures Sendable(messages + turn)
  {
    ConversationConcat(messages, turn);
    var a, b := Conversation(messages), Conversation(turn);
    var h := a + b;
    forall j | 0 <= j < |h| && h[j].role.ToolResult? ensures exists i :: Answers(h, i, j) {
      if j < |a| {
        var i :| Answers(a, i, j);
        assert Answers(h, i, j);
      } else {
        var i :| Answers(b, i, j - |a|);
        assert Answers(h, i + |a|, j);
      }
    }
  }

  /** One step of a session's life: a turn that answers its own calls is added, or the messages are compacted. */
  ghost predicate Continues(before: seq<Message>, after: seq<Message>) {
    || (exists turn: seq<Message> :: after == before + turn && WellFormed(Conversation(turn)))
    || (exists baseline: Option<Message>, summary: Message, cut: int, k: nat ::
          && IsSplit(Conversation(before), cut, k) && IsCompaction(before, baseline, summary, k, after)
          && summary.role.User? && (baseline.Some? ==> baseline.value.role.System?))
  }

  lemma {:induction false} NothingAddedContinues(messages: seq<Message>)
    ensures Continues(messages, messages)
  {
    assert messages == messages + [] && WellFormed(Conversation([]));
  }

  /** Over any number of turns and compactions in any order, no tool result ever loses its call. */
  lemma {:induction false} EveryStateIsSendable(states: seq<seq<Message>>, n: nat)
    requires n < |states| && Sendable(states[0])
    requires forall i | 0 <= i < |states| - 1 :: Continues(states[i], states[i + 1])
    ensures Sendable(states[n])
    decreases n
  {
    if n > 0 {
      EveryStateIsSendable(states, n - 1);
      var before, after := states[n - 1], states[n - 1 + 1];
      assert Continues(before, after);
      if turn: seq<Message> :| after == before + turn && WellFormed(Conversation(turn)) {
        TurnStaysSendable(before, turn);
      } else {
        var baseline: Option<Message>, summary: Message, cut: int, k: nat :|
          && IsSplit(Conversation(before), cut, k) && IsCompaction(before, baseline, summary, k, after)
          && summary.role.User? && (baseline.Some? ==> baseline.value.role.System?);
        CompactionStaysSendable(before, baseline, summary, cut, k, after);
      }
    }
  }

  class CompactionTransform {
    const contextWindow: real
    const threshold: real
    const keepRatio: real
    var compactionCount: nat

    constructor(contextWindow: real, threshold: real, keepRatio: real)
      ensures this.contextWindow == contextWindow && this.threshold == threshold && this.keepRatio == keepRatio
      ensures compactionCount == 0
    {
      this.contextWindow, this.threshold, this.keepRatio := contextWindow, threshold, keepRatio;
      compactionCount := 0;
    }

    /**
     * One call. `contextTokens` is the provider's estimate, `baseline` the current instructions, `summary` the
     * message built from what is compacted.
     */
    method Apply(messages: seq<Message>, contextTokens: nat, baseline: Option<Message>, summary: Message)
      returns (out: seq<Message>)
      requires summary.role.User? && (baseline.Some? ==> baseline.value.role.System?)
      modifies this
      ensures var due := Max(Total(messages), contextTokens) as real >= contextWindow * threshold;
              if |messages| <= 1 || !due || |Conversation(messages)| <= 1 then
                out == messages && compactionCount == old(compactionCount)
              else
                && (exists cut: int, k: nat ::
                      && IsBudgetCut(Conversation(messages), Budget(Conversation(messages), keepRatio), cut)
                      && IsSplit(Conversation(messages), cut, k) && IsCompaction(messages, baseline, summary, k, out))
                && compactionCount == old(compactionCount) + 1
      ensures IsShare(Total(Conversation(messages)), keepRatio, Budget(Conversation(messages), keepRatio))
      ensures Continues(messages, out)
      ensures Sendable(messages) ==> Sendable(out)
    {
      out := messages;
      NothingAddedContinues(messages);
      BudgetIsTheShare(Conversation(messages), keepRatio, Budget(Conversation(messages), keepRatio));
      if |messages| <= 1 { return; }
      var tokensBefore := Max(Total(messages), contextTokens);
      if tokensBefore as real < contextWindow * threshold { return; }
      var history := Conversation(messages);
      if |history| <= 1 { return; }
      var splitAt := SplitMessages(history, keepRatio);
      var kept := history[splitAt..];
      out := (if baseline.Some? then [baseline.value] else []) + [summary] + kept;
      compactionCount := compactionCount + 1;
      assert IsCompaction(messages, baseline, summary, splitAt, out);
      ghost var cut: int :| IsBudgetCut(history, Budget(history, keepRatio), cut) && IsSplit(history, cut, splitAt);
      if Sendable(messages) { CompactionStaysSendable(messages, baseline, summary, cut, splitAt, out); }
    }
  }
}
