/** The check that expected event types appear in order in a stream, and the poll that feeds
    it. */
module Events {
  /** Positions in the haystack, strictly increasing, that spell the needle. */
  ghost predicate Spells(at: seq<nat>, haystack: seq<int>, needle: seq<int>) {
    && |at| == |needle|
    && (forall i :: 0 <= i < |at| ==> at[i] < |haystack| && haystack[at[i]] == needle[i])
    && (forall i, j :: 0 <= i < j < |at| ==> at[i] < at[j])
  }

  ghost predicate IsSubsequence(haystack: seq<int>, needle: seq<int>) {
    exists at :: Spells(at, haystack, needle)
  }

  /** `at` spells needle[..n] before position it, and no spelling of it ends earlier. */
  ghost predicate Greedy(at: seq<nat>, haystack: seq<int>, needle: seq<int>, n: nat, it: nat)
    requires n <= |needle|
  {
    && Spells(at, haystack, needle[..n])
    && (forall i :: 0 <= i < n ==> at[i] < it)
    && (n == 0 ==> it == 0)
    && (forall other :: Spells(other, haystack, needle[..n]) && n > 0 ==> it <= other[n - 1] + 1)
  }

  lemma Restrict(at: seq<nat>, haystack: seq<int>, needle: seq<int>, n: nat)
    requires Spells(at, haystack, needle) && n <= |needle|
    ensures Spells(at[..n], haystack, needle[..n])
  {
  }

  lemma GreedyStep(at: seq<nat>, haystack: seq<int>, needle: seq<int>, n: nat, from: nat, it: nat)
    requires n < |needle| && Greedy(at, haystack, needle, n, from) && from <= it < |haystack|
    requires haystack[it] == needle[n] && forall k :: from <= k < it ==> haystack[k] != needle[n]
    ensures Greedy(at + [it], haystack, needle, n + 1, it + 1)
  {
    assert needle[..n + 1] == needle[..n] + [needle[n]];
    forall other | Spells(other, haystack, needle[..n + 1]) ensures it <= other[n] {
      Restrict(other, haystack, needle[..n + 1], n);
      assert needle[..n + 1][..n] == needle[..n];
      if n > 0 {
        assert from <= other[..n][n - 1] + 1;
      }
      assert haystack[other[n]] == needle[n];
    }
  }

  lemma SpellingReaches(at: seq<nat>, haystack: seq<int>, needle: seq<int>, n: nat, from: nat, other: seq<nat>)
    requires n < |needle| && Greedy(at, haystack, needle, n, from) && Spells(other, haystack, needle)
    ensures from <= other[n] < |haystack| && haystack[other[n]] == needle[n]
  {
    Restrict(other, haystack, needle, n);
    if n > 0 {
      assert from <= other[..n][n - 1] + 1;
    }
  }

  lemma NoneLeft(at: seq<nat>, haystack: seq<int>, needle: seq<int>, n: nat, from: nat)
    requires n < |needle| && Greedy(at, haystack, needle, n, from)
    requires forall k :: from <= k < |haystack| ==> haystack[k] != needle[n]
    ensures !IsSubsequence(haystack, needle)
  {
    forall other ensures !Spells(other, haystack, needle) {
      if Spells(other, haystack, needle) {
        SpellingReaches(at, haystack, needle, n, from, other);
      }
    }
  }

  /** One iterator over the haystack, consumed by every element of the needle in turn. */
  method SubsequencePresent(haystack: seq<int>, needle: seq<int>) returns (present: bool)
    ensures present <==> IsSubsequence(haystack, needle)
  {
    var it := 0;
    ghost var at: seq<nat> := [];
    for n := 0 to |needle|
      invariant 0 <= it <= |haystack|
      invariant Greedy(at, haystack, needle, n, it)
    {
      ghost var from := it;
      while it < |haystack| && haystack[it] != needle[n]
        invariant from <= it <= |haystack|
        invariant forall k :: from <= k < it ==> haystack[k] != needle[n]
      {
        it := it + 1;
      }
      if it == |haystack| {
        NoneLeft(at, haystack, needle, n, from);
        return false;
      }
      GreedyStep(at, haystack, needle, n, from, it);
      at := at + [it];
      it := it + 1;
    }
    assert needle[..|needle|] == needle;
    return true;
  }

  /** What was there in order stays there in order, whatever the stream adds. */
  lemma StaysPresent(haystack: seq<int>, more: seq<int>, needle: seq<int>)
    requires IsSubsequence(haystack, needle)
    ensures IsSubsequence(haystack + more, needle)
  {
    var at :| Spells(at, haystack, needle);
    assert Spells(at, haystack + more, needle);
  }

  /** The polled check: every poll appends what the queue holds and looks again. */
  class Watch {
    const expected: seq<int>
    var seen: seq<int>

    constructor (expected: seq<int>)
      ensures this.expected == expected && seen == []
    {
      this.expected, seen := expected, [];
    }

    method Poll(drained: seq<int>) returns (found: bool)
      modifies this
      ensures seen == old(seen) + drained
      ensures found <==> IsSubsequence(seen, expected)
      ensures IsSubsequence(old(seen), expected) ==> found
    {
      if IsSubsequence(seen, expected) {
        StaysPresent(seen, drained, expected);
      }
      seen := seen + drained;
      found := SubsequencePresent(seen, expected);
    }
  }
}
