/**
 * The conversation-history manager of the LLM wrapper (companion/llm.py).
 *
 * The wrapper keeps two parallel lists: the role-tagged history entries sent
 * to the model and the token cost of every entry ever appended.  After each
 * append it scans the cost list from the newest entry backwards, summing
 * costs, and cuts the history at the first index whose suffix sum reaches the
 * budget `n_ctx - max_tokens` (or at index 0).  The cost list itself is never
 * cut, so after the first drop the index is computed over more entries than
 * the history holds; the model keeps that behaviour.
 */
module CompanionLlm {
  import opened Wrappers

  /** One `{"role": ..., "content": ...}` dictionary of the history. */
  datatype Entry = Entry(role: string, content: string)

  /** The fixed instruction that opens every prompt. */
  const SystemInstruction := Entry("system", "You are an AI assistant.")

  /** Default values used when the configuration leaves a key out. */
  const DefaultMaxTokens := 256
  const DefaultNCtx := 2048

  /** The `model` section of the configuration, as far as the history manager reads it. */
  datatype ModelConfig = ModelConfig(maxTokens: Option<int>, nCtx: Option<int>)

  /** The text whose tokens are counted for an entry: `f"{role}: {content}"`. */
  function CostText(role: string, content: string): string
  {
    role + ": " + content
  }

  // ---------------------------------------------------------------------------
  // Suffix sums and the cutoff index
  // ---------------------------------------------------------------------------

  function Sum(s: seq<nat>): nat
  {
    if s == [] then 0 else s[0] + Sum(s[1..])
  }

  /** The total cost of the entries from index `j` to the newest. */
  function SuffixSum(s: seq<nat>, j: nat): nat
    requires j <= |s|
  {
    Sum(s[j..])
  }

  lemma SumAt(s: seq<nat>, i: nat)
    requires i < |s|
    ensures SuffixSum(s, i) == s[i] + SuffixSum(s, i + 1)
  {
    assert s[i..][1..] == s[i + 1..];
  }

  /** Costs are never negative, so a longer suffix never sums to less. */
  lemma {:induction false} SuffixSumAntitone(s: seq<nat>, i: nat, j: nat)
    requires i <= j <= |s|
    ensures SuffixSum(s, j) <= SuffixSum(s, i)
    decreases j - i
  {
    if i < j {
      SumAt(s, i);
      SuffixSumAntitone(s, i + 1, j);
    }
  }

  /**
   * `i` is where the backward scan stops: every strictly shorter suffix stays
   * below the budget, and the suffix starting at `i` reaches it unless `i` is
   * the oldest index.
   */
  predicate IsCutoff(tokens: seq<nat>, budget: int, i: int)
  {
    && 0 <= i < |tokens|
    && (forall j :: i < j < |tokens| ==> SuffixSum(tokens, j) < budget)
    && (SuffixSum(tokens, i) >= budget || i == 0)
  }

  /** There is only one index the scan can stop at. */
  lemma CutoffUnique(tokens: seq<nat>, budget: int, i: int, k: int)
    requires IsCutoff(tokens, budget, i) && IsCutoff(tokens, budget, k)
    ensures i == k
  {
  }

  lemma TailBelowBudget(tokens: seq<nat>, budget: int)
    requires |tokens| > 0
    requires |tokens| == 1 || Sum(tokens[1..]) < budget
    ensures IsCutoff(tokens, budget, 0)
  {
    forall j | 0 < j < |tokens|
      ensures SuffixSum(tokens, j) < budget
    {
      SuffixSumAntitone(tokens, 1, j);
    }
  }

  lemma CutoffShift(tokens: seq<nat>, budget: int, k: nat)
    requires |tokens| > 1 && Sum(tokens[1..]) >= budget
    requires IsCutoff(tokens[1..], budget, k)
    ensures IsCutoff(tokens, budget, k + 1)
  {
    forall j | k + 1 < j < |tokens|
      ensures SuffixSum(tokens, j) < budget
    {
      assert tokens[j..] == tokens[1..][j - 1..];
      assert SuffixSum(tokens[1..], j - 1) < budget;
    }
    assert tokens[k + 1..] == tokens[1..][k..];
  }

  /**
   * Reference definition of the cutoff, written from the oldest end: the cut
   * moves past the oldest entry exactly when the remaining entries alone
   * still reach the budget.
   */
  function Cutoff(tokens: seq<nat>, budget: int): (i: nat)
    requires |tokens| > 0
    ensures IsCutoff(tokens, budget, i)
    decreases |tokens|
  {
    if |tokens| == 1 || Sum(tokens[1..]) < budget then
      TailBelowBudget(tokens, budget);
      0
    else
      var k := Cutoff(tokens[1..], budget);
      CutoffShift(tokens, budget, k);
      k + 1
  }

  /** When the newest entry alone reaches the budget, the scan stops at it. */
  lemma CutoffNewestReachesBudget(tokens: seq<nat>, budget: int)
    requires |tokens| > 0 && tokens[|tokens| - 1] >= budget
    ensures Cutoff(tokens, budget) == |tokens| - 1
  {
    SumAt(tokens, |tokens| - 1);
    assert IsCutoff(tokens, budget, |tokens| - 1);
    CutoffUnique(tokens, budget, |tokens| - 1, Cutoff(tokens, budget));
  }

  /** A budget of zero or less stops the scan at the newest entry. */
  lemma CutoffNonPositiveBudget(tokens: seq<nat>, budget: int)
    requires |tokens| > 0 && budget <= 0
    ensures Cutoff(tokens, budget) == |tokens| - 1
  {
    CutoffNewestReachesBudget(tokens, budget);
  }

  /**
   * Four entries of 30 tokens against a budget of 80: the scan sums 30, 60,
   * then 90 at index 1 and stops there, so three entries are kept.
   */
  lemma CutoffFourThirties()
    ensures Cutoff([30, 30, 30, 30], 80) == 1
  {
    var t: seq<nat> := [30, 30, 30, 30];
    assert t[3..] == [30] && t[2..] == [30, 30] && t[1..] == [30, 30, 30];
    SumAt(t, 3);
    SumAt(t, 2);
    SumAt(t, 1);
    assert SuffixSum(t, 1) == 90;
    assert IsCutoff(t, 80, 1);
    CutoffUnique(t, 80, 1, Cutoff(t, 80));
  }

  // ---------------------------------------------------------------------------
  // Python slicing and suffixes
  // ---------------------------------------------------------------------------

  ghost predicate IsSuffix<T>(r: seq<T>, s: seq<T>)
  {
    |r| <= |s| && r == s[|s| - |r|..]
  }

  /** Python's `s[i:]` for `i >= 0`: empty once `i` passes the end. */
  function Slice<T>(s: seq<T>, i: nat): (r: seq<T>)
    ensures |r| == if i <= |s| then |s| - i else 0
    ensures IsSuffix(r, s)
  {
    if i <= |s| then s[i..] else []
  }

  lemma SuffixTransitive<T>(a: seq<T>, b: seq<T>, c: seq<T>)
    requires IsSuffix(a, b) && IsSuffix(b, c)
    ensures IsSuffix(a, c)
  {
    assert c[|c| - |b|..][|b| - |a|..] == c[|c| - |a|..];
  }

  lemma SuffixAppend<T>(a: seq<T>, b: seq<T>, x: T)
    requires IsSuffix(a, b)
    ensures IsSuffix(a + [x], b + [x])
  {
    assert (b + [x])[|b| + 1 - (|a| + 1)..] == b[|b| - |a|..] + [x];
  }

  /** The history after appending `e` (cost `c`) to `history` and cutting. */
  function TrimmedHistory(history: seq<Entry>, tokens: seq<nat>, e: Entry, c: nat, budget: int): seq<Entry>
  {
    Slice(history + [e], Cutoff(tokens + [c], budget))
  }

  /**
   * While the two lists are aligned, the kept history holds exactly the
   * entries from the cutoff on: it is never empty and ends with the new entry.
   */
  lemma AlignedTrimKeepsNewest(history: seq<Entry>, tokens: seq<nat>, e: Entry, c: nat, budget: int)
    requires |history| == |tokens|
    ensures var r := TrimmedHistory(history, tokens, e, c, budget);
      && |r| == |tokens| + 1 - Cutoff(tokens + [c], budget)
      && r != [] && r[|r| - 1] == e
      && r == (history + [e])[Cutoff(tokens + [c], budget)..]
  {
  }

  /** Aligned lists stay aligned exactly when the scan reached the oldest entry. */
  lemma AlignedStaysAligned(history: seq<Entry>, tokens: seq<nat>, e: Entry, c: nat, budget: int)
    requires |history| == |tokens|
    ensures |TrimmedHistory(history, tokens, e, c, budget)| == |tokens| + 1
        <==> Cutoff(tokens + [c], budget) == 0
  {
  }

  /**
   * When the new entry alone reaches the budget the cut falls at its index in
   * the cost list; with aligned lists that keeps exactly the new entry.
   */
  lemma NewestOverBudgetTrim(history: seq<Entry>, tokens: seq<nat>, e: Entry, c: nat, budget: int)
    requires c >= budget
    ensures TrimmedHistory(history, tokens, e, c, budget) == Slice(history + [e], |tokens|)
    ensures |history| == |tokens| ==> TrimmedHistory(history, tokens, e, c, budget) == [e]
  {
    CutoffNewestReachesBudget(tokens + [c], budget);
  }

  /**
   * Once the history is shorter than the cost list, the same cutoff applied
   * to it keeps fewer entries than the scan accounted for, and none at all
   * when the cutoff reaches past the history's end.
   */
  lemma MisalignedTrimDropsMore(history: seq<Entry>, tokens: seq<nat>, e: Entry, c: nat, budget: int)
    requires |history| < |tokens|
    ensures var i := Cutoff(tokens + [c], budget);
      var r := TrimmedHistory(history, tokens, e, c, budget);
      && |r| < |tokens| + 1 - i
      && (r == [] <==> i > |history|)
  {
  }

  // ---------------------------------------------------------------------------
  // Prompt assembly
  // ---------------------------------------------------------------------------

  /** Python truthiness of an optional string: not `None` and not empty. */
  predicate Truthy(context: Option<string>)
  {
    context.Some? && context.value != ""
  }

  /**
   * `_prepare_prompt_with_context` over the given history: the system
   * instruction, every history entry in order, then the context as a system
   * message when it is truthy.
   */
  function BuildPrompt(history: seq<Entry>, context: Option<string>): (r: seq<Entry>)
    ensures |r| == |history| + (if Truthy(context) then 2 else 1)
    ensures r[0] == SystemInstruction
    ensures r[1..|history| + 1] == history
    ensures Truthy(context) ==> r[|r| - 1] == Entry("system", context.value)
  {
    [SystemInstruction] + history + (if Truthy(context) then [Entry("system", context.value)] else [])
  }

  // ---------------------------------------------------------------------------
  // The LLM object
  // ---------------------------------------------------------------------------

  class Llm {
    const maxTokens: int
    const nCtx: int
    /** `len(self.model.tokenize(text.encode('utf-8')))`, supplied by the engine. */
    const countTokens: string -> nat

    var conversationHistory: seq<Entry>
    var conversationHistoryTokens: seq<nat>
    /** Every entry ever appended, oldest first; it is what the cost list describes. */
    ghost var appended: seq<Entry>

    /**
     * The cost list holds the cost of every entry ever appended, in order,
     * and the history is a suffix of those entries.
     */
    ghost predicate Valid()
      reads this
    {
      && |appended| == |conversationHistoryTokens|
      && (forall k :: 0 <= k < |appended| ==>
            conversationHistoryTokens[k] == countTokens(CostText(appended[k].role, appended[k].content)))
      && IsSuffix(conversationHistory, appended)
    }

    function Budget(): int
      reads this
    {
      nCtx - maxTokens
    }

    constructor (config: ModelConfig, countTokens: string -> nat)
      ensures Valid()
      ensures maxTokens == config.maxTokens.GetOr(DefaultMaxTokens)
      ensures nCtx == config.nCtx.GetOr(DefaultNCtx)
      ensures this.countTokens == countTokens
      ensures conversationHistory == [] && conversationHistoryTokens == [] && appended == []
    {
      maxTokens := config.maxTokens.GetOr(DefaultMaxTokens);
      nCtx := config.nCtx.GetOr(DefaultNCtx);
      this.countTokens := countTokens;
      conversationHistory := [];
      conversationHistoryTokens := [];
      appended := [];
    }

    /**
     * `_update_conversation_history`: append the entry and its cost, scan the
     * cost list backwards to the cutoff, and slice the history there.
     */
    method UpdateConversationHistory(content: string, role: string)
      requires Valid()
      modifies this`conversationHistory, this`conversationHistoryTokens, this`appended
      ensures Valid()
      ensures appended == old(appended) + [Entry(role, content)]
      ensures conversationHistoryTokens == old(conversationHistoryTokens) + [countTokens(CostText(role, content))]
      ensures conversationHistory
        == TrimmedHistory(old(conversationHistory), old(conversationHistoryTokens),
                          Entry(role, content), countTokens(CostText(role, content)), Budget())
    {
      var entry := Entry(role, content);
      var cost := countTokens(CostText(role, content));
      ghost var oldHistory, oldAppended := conversationHistory, appended;
      conversationHistory := conversationHistory + [entry];
      conversationHistoryTokens := conversationHistoryTokens + [cost];
      appended := appended + [entry];

      var tokens := conversationHistoryTokens;
      var budget := nCtx - maxTokens;
      var totalTokens := 0;
      var i := |tokens| - 1;
      while i >= 0
        invariant 0 <= i < |tokens|
        invariant totalTokens == SuffixSum(tokens, i + 1)
        invariant forall j :: i < j < |tokens| ==> SuffixSum(tokens, j) < budget
        modifies {}
        decreases i
      {
        SumAt(tokens, i);
        totalTokens := totalTokens + tokens[i];
        if totalTokens >= budget || i == 0 {
          break;
        }
        i := i - 1;
      }
      assert IsCutoff(tokens, budget, i);
      CutoffUnique(tokens, budget, i, Cutoff(tokens, budget));

      conversationHistory := Slice(conversationHistory, i);
      AppendKeepsValid(oldHistory, oldAppended, old(conversationHistoryTokens), entry, cost, budget);
    }

    /** The invariant survives adding one entry with its cost and cutting. */
    lemma AppendKeepsValid(history: seq<Entry>, entries: seq<Entry>, tokens: seq<nat>, e: Entry, c: nat, budget: int)
      requires |entries| == |tokens| && IsSuffix(history, entries)
      requires forall k :: 0 <= k < |entries| ==>
                 tokens[k] == countTokens(CostText(entries[k].role, entries[k].content))
      requires c == countTokens(CostText(e.role, e.content))
      ensures IsSuffix(TrimmedHistory(history, tokens, e, c, budget), entries + [e])
      ensures forall k :: 0 <= k < |entries| + 1 ==>
                (tokens + [c])[k] == countTokens(CostText((entries + [e])[k].role, (entries + [e])[k].content))
    {
      SuffixAppend(history, entries, e);
      SuffixTransitive(TrimmedHistory(history, tokens, e, c, budget), history + [e], entries + [e]);
    }

    /**
     * The history bookkeeping of `generate_response`: the user turn is
     * recorded, the prompt is built from the trimmed history, and the
     * engine's reply (a parameter here) is recorded as the assistant turn.
     */
    method GenerateResponse(prompt: string, context: Option<string>, reply: string)
      returns (conversation: seq<Entry>)
      requires Valid()
      modifies this`conversationHistory, this`conversationHistoryTokens, this`appended
      ensures Valid()
      ensures appended == old(appended) + [Entry("user", prompt), Entry("assistant", reply)]
      ensures conversationHistoryTokens == old(conversationHistoryTokens)
        + [countTokens(CostText("user", prompt)), countTokens(CostText("assistant", reply))]
      ensures conversation == BuildPrompt(
        TrimmedHistory(old(conversationHistory), old(conversationHistoryTokens),
                       Entry("user", prompt), countTokens(CostText("user", prompt)), Budget()),
        context)
      ensures conversationHistory == TrimmedHistory(
        TrimmedHistory(old(conversationHistory), old(conversationHistoryTokens),
                       Entry("user", prompt), countTokens(CostText("user", prompt)), Budget()),
        old(conversationHistoryTokens) + [countTokens(CostText("user", prompt))],
        Entry("assistant", reply), countTokens(CostText("assistant", reply)), Budget())
    {
      ghost var tokens0, entries0 := conversationHistoryTokens, appended;
      UpdateConversationHistory(prompt, "user");
      conversation := BuildPrompt(conversationHistory, context);
      ghost var tokens1, entries1 := conversationHistoryTokens, appended;
      UpdateConversationHistory(reply, "assistant");
      assert conversationHistoryTokens == tokens1 + [countTokens(CostText("assistant", reply))];
      assert appended == entries1 + [Entry("assistant", reply)];
    }
  }

  /**
   * Three turns, each costing at least the whole budget on its own, recorded
   * from an empty history: the second update drops the first turn, and the
   * third, scanning a cost list one longer than the history, leaves the
   * history empty.
   */
  lemma MisalignmentEmptiesHistory(budget: int, cost: nat, a: Entry, b: Entry, c: Entry)
    requires cost >= budget
    ensures TrimmedHistory([], [], a, cost, budget) == [a]
    ensures TrimmedHistory([a], [cost], b, cost, budget) == [b]
    ensures TrimmedHistory([b], [cost, cost], c, cost, budget) == []
  {
    NewestOverBudgetTrim([], [], a, cost, budget);
    NewestOverBudgetTrim([a], [cost], b, cost, budget);
    NewestOverBudgetTrim([b], [cost, cost], c, cost, budget);
    assert [cost] + [cost] == [cost, cost];
  }
}
