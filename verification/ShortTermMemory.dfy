/** The short-term conversation window: services/ai/agent/memory.py. */
module ShortTermMemory {
  datatype Message = Message(role: string, content: string)

  /** `int(len(text) * 0.25)`: the product is exact, so this is the floor of a quarter of the length. */
  function TokenEstimate(text: string): (r: nat)
    ensures 4 * r <= |text| < 4 * r + 4
  {
    |text| / 4
  }

  function Tokens(messages: seq<Message>): nat {
    if messages == [] then 0 else TokenEstimate(messages[0].content) + Tokens(messages[1..])
  }

  // ---------------------------------------------------------------- what the window stands for

  /** The suffix from k on fits the budget; a single message always fits. */
  ghost predicate FitsFrom(history: seq<Message>, k: nat, budget: int)
    requires k <= |history|
  {
    |history| - k <= 1 || Tokens(history[k..]) <= budget
  }

  /** The suffix from k on is the longest one that fits, and keeps at least the last message. */
  ghost predicate WindowFrom(history: seq<Message>, k: nat, budget: int) {
    && k <= |history| && (history != [] ==> k < |history|)
    && FitsFrom(history, k, budget)
    && forall j {:trigger FitsFrom(history, j, budget)} :: 0 <= j < k ==> !FitsFrom(history, j, budget)
  }

  ghost predicate LongestFitting(history: seq<Message>, w: seq<Message>, budget: int) {
    exists k: nat :: WindowFrom(history, k, budget) && w == history[k..]
  }

  lemma {:induction false} LongerHasMoreTokens(messages: seq<Message>, j: nat, k: nat)
    requires j <= k <= |messages|
    ensures Tokens(messages[j..]) >= Tokens(messages[k..])
    decreases k - j
  {
    if j < k {
      assert messages[j..][1..] == messages[j + 1..];
      LongerHasMoreTokens(messages, j + 1, k);
    }
  }

  lemma {:induction false} TokensAppend(messages: seq<Message>, m: Message)
    ensures Tokens(messages + [m]) == Tokens(messages) + TokenEstimate(m.content)
  {
    if messages != [] {
      assert (messages + [m])[1..] == messages[1..] + [m];
      TokensAppend(messages[1..], m);
    } else {
      assert (messages + [m])[1..] == [];
    }
  }

  /** The history determines the window, and every shorter non-empty suffix fits as well. */
  lemma WindowIsUnique(history: seq<Message>, k: nat, budget: int, j: nat)
    requires WindowFrom(history, k, budget) && j <= |history| && (history != [] ==> j < |history|)
    ensures FitsFrom(history, j, budget) <==> k <= j
    ensures WindowFrom(history, j, budget) ==> j == k
  {
    if k <= j {
      LongerHasMoreTokens(history, k, j);
    }
  }

  /** The last messages, at least one: within the budget unless it is one alone, and beyond it with one more. */
  ghost predicate IsWindow(history: seq<Message>, w: seq<Message>, budget: int) {
    && 0 < |w| <= |history| && w == history[|history| - |w|..]
    && (|w| > 1 ==> Tokens(w) <= budget)
    && (|w| < |history| ==> Tokens(history[|history| - |w| - 1..]) > budget)
  }

  lemma WindowIs(history: seq<Message>, k: nat, budget: int)
    requires history != [] && WindowFrom(history, k, budget)
    ensures IsWindow(history, history[k..], budget)
  {
    if k > 0 {
      assert !FitsFrom(history, k - 1, budget);
    }
  }

  lemma SuffixAppend(history: seq<Message>, m: Message, j: nat, budget: int)
    requires j < |history| && !FitsFrom(history, j, budget)
    ensures !FitsFrom(history + [m], j, budget)
  {
    assert (history + [m])[j..] == history[j..] + [m];
    TokensAppend(history[j..], m);
  }

  lemma SuffixOfSuffix(history: seq<Message>, k: nat, j: nat, budget: int)
    requires k + j <= |history|
    ensures FitsFrom(history[k..], j, budget) == FitsFrom(history, k + j, budget)
  {
    assert history[k..][j..] == history[k + j..];
  }

  /** What did not fit before an addition does not fit after it, so trimming the window and the new message gives
      the window of the whole history. */
  lemma TrimmingIsIncremental(history: seq<Message>, k: nat, m: Message, i: nat, budget: int)
    requires WindowFrom(history, k, budget) && WindowFrom(history[k..] + [m], i, budget)
    ensures WindowFrom(history + [m], k + i, budget)
    ensures (history + [m])[k + i..] == (history[k..] + [m])[i..]
  {
    var all := history + [m];
    assert all[k..] == history[k..] + [m];
    SuffixOfSuffix(all, k, i, budget);
    forall j | 0 <= j < k + i
      ensures !FitsFrom(all, j, budget)
    {
      if j < k {
        assert !FitsFrom(history, j, budget);
        SuffixAppend(history, m, j, budget);
      } else {
        SuffixOfSuffix(all, k, j - k, budget);
        assert !FitsFrom(all[k..], j - k, budget);
      }
    }
    assert all[k..][i..] == all[k + i..];
  }

  // ---------------------------------------------------------------- the manager

  method TotalTokens(messages: seq<Message>) returns (total: nat)
    ensures total == Tokens(messages)
  {
    total := 0;
    for i := 0 to |messages|
      invariant total == Tokens(messages[..i])
    {
      TokensAppend(messages[..i], messages[i]);
      assert messages[..i + 1] == messages[..i] + [messages[i]];
      total := total + TokenEstimate(messages[i].content);
    }
    assert messages[..|messages|] == messages;
  }

  class MemoryManager {
    const budget: int
    var shortTerm: seq<Message>
    /** Everything added since the last clear. */
    ghost var history: seq<Message>

    ghost predicate Valid()
      reads this
    {
      LongestFitting(history, shortTerm, budget)
    }

    constructor (budget: int)
      ensures Valid() && this.budget == budget && history == [] && shortTerm == []
    {
      this.budget := budget;
      shortTerm, history := [], [];
      new;
      assert WindowFrom(history, 0, budget) && shortTerm == history[0..];
    }

    method AddToShortTerm(role: string, content: string)
      requires Valid()
      modifies this
      ensures Valid() && history == old(history) + [Message(role, content)]
      ensures IsWindow(history, shortTerm, budget)
    {
      ghost var k: nat :| WindowFrom(history, k, budget) && shortTerm == history[k..];
      shortTerm := shortTerm + [Message(role, content)];
      ghost var i := TrimShortTerm();
      TrimmingIsIncremental(history, k, Message(role, content), i, budget);
      history := history + [Message(role, content)];
      assert WindowFrom(history, k + i, budget);
      WindowIs(history, k + i, budget);
    }

    /** `_trim_short_term`: the total is summed anew in every round. */
    method TrimShortTerm() returns (ghost k: nat)
      modifies this`shortTerm
      ensures WindowFrom(old(shortTerm), k, budget) && shortTerm == old(shortTerm)[k..]
    {
      ghost var start := shortTerm;
      k := 0;
      while |shortTerm| > 1
        invariant k <= |start| && (start != [] ==> k < |start|) && shortTerm == start[k..]
        invariant forall j {:trigger FitsFrom(start, j, budget)} :: 0 <= j < k ==> !FitsFrom(start, j, budget)
        decreases |shortTerm|
      {
        var total := TotalTokens(shortTerm);
        if total <= budget {
          break;
        }
        assert !FitsFrom(start, k, budget);
        shortTerm := shortTerm[1..];
        k := k + 1;
      }
    }

    method ClearShortTerm()
      modifies this
      ensures Valid() && history == [] && shortTerm == []
    {
      shortTerm, history := [], [];
      assert WindowFrom(history, 0, budget) && shortTerm == history[0..];
    }
  }
}
