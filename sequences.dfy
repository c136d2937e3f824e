/**
 * Collapsing runs of equal adjacent elements, the rule behind both
 * `remove_consecutive_duplicates` helpers (one over lines, one over words).
 */
module Sequences {

  /** Keeps an element only when it differs from the element before it in the input. */
  function Dedup<T(==)>(xs: seq<T>): (r: seq<T>)
    ensures |r| <= |xs|
    ensures |xs| > 0 ==> |r| > 0 && r[|r| - 1] == xs[|xs| - 1]
    decreases |xs|
  {
    if |xs| == 0 then []
    else
      var r := Dedup(xs[..|xs| - 1]);
      if |r| > 0 && r[|r| - 1] == xs[|xs| - 1] then r else r + [xs[|xs| - 1]]
  }

  predicate NoAdjacentEqual<T(==)>(s: seq<T>) {
    forall k :: 0 < k < |s| ==> s[k - 1] != s[k]
  }

  /** `idx` picks out `r` from `xs` in increasing order. */
  ghost predicate PicksOut<T>(r: seq<T>, xs: seq<T>, idx: seq<nat>) {
    |idx| == |r|
    && (forall k :: 0 <= k < |idx| ==> idx[k] < |xs| && r[k] == xs[idx[k]])
    && (forall k :: 0 < k < |idx| ==> idx[k - 1] < idx[k])
  }

  /** No two neighbours of the result are equal. */
  lemma {:induction false} DedupNoAdjacent<T>(xs: seq<T>)
    ensures NoAdjacentEqual(Dedup(xs))
    decreases |xs|
  {
    if |xs| > 0 {
      DedupNoAdjacent(xs[..|xs| - 1]);
    }
  }

  /**
   * The result is a subsequence of the input that starts with the input's
   * first element, and every dropped element equals the one before it.
   */
  lemma {:induction false} DedupSubsequence<T>(xs: seq<T>) returns (idx: seq<nat>)
    ensures PicksOut(Dedup(xs), xs, idx)
    ensures |xs| > 0 ==> |idx| > 0 && idx[0] == 0
    ensures forall j :: 0 < j < |xs| && xs[j - 1] != xs[j] ==> j in idx
    decreases |xs|
  {
    if |xs| == 0 {
      idx := [];
    } else {
      var init := xs[..|xs| - 1];
      var prev := DedupSubsequence(init);
      var r := Dedup(init);
      if |r| > 0 && r[|r| - 1] == xs[|xs| - 1] {
        idx := prev;
        PicksKept(xs, prev);
        assert r[|r| - 1] == init[|init| - 1];
      } else {
        idx := prev + [|xs| - 1];
        PicksExtended(xs, prev);
      }
      ChangesKept(xs, prev, idx);
    }
  }

  /** The last element repeats the result so far, so the result and its picks stay as they were. */
  lemma PicksKept<T>(xs: seq<T>, prev: seq<nat>)
    requires |xs| > 0 && PicksOut(Dedup(xs[..|xs| - 1]), xs[..|xs| - 1], prev)
    requires var r := Dedup(xs[..|xs| - 1]); |r| > 0 && r[|r| - 1] == xs[|xs| - 1]
    ensures PicksOut(Dedup(xs), xs, prev)
  {
    var init := xs[..|xs| - 1];
    assert forall k :: 0 <= k < |init| ==> init[k] == xs[k];
  }

  /** The last element differs from the result so far and is picked. */
  lemma PicksExtended<T>(xs: seq<T>, prev: seq<nat>)
    requires |xs| > 0 && PicksOut(Dedup(xs[..|xs| - 1]), xs[..|xs| - 1], prev)
    requires var r := Dedup(xs[..|xs| - 1]); !(|r| > 0 && r[|r| - 1] == xs[|xs| - 1])
    ensures PicksOut(Dedup(xs), xs, prev + [|xs| - 1])
  {
    var init := xs[..|xs| - 1];
    assert forall k :: 0 <= k < |init| ==> init[k] == xs[k];
    if |prev| > 0 {
      assert prev[|prev| - 1] < |init|;
    }
  }

  /** Every index where the input changes value is among the picks. */
  lemma ChangesKept<T>(xs: seq<T>, prev: seq<nat>, idx: seq<nat>)
    requires |xs| > 0
    requires forall j :: 0 < j < |xs| - 1 && xs[..|xs| - 1][j - 1] != xs[..|xs| - 1][j] ==> j in prev
    requires idx == prev || idx == prev + [|xs| - 1]
    requires |xs| > 1 && xs[|xs| - 2] != xs[|xs| - 1] ==> idx == prev + [|xs| - 1]
    ensures forall j :: 0 < j < |xs| && xs[j - 1] != xs[j] ==> j in idx
  {
    var init := xs[..|xs| - 1];
    forall j | 0 < j < |xs| && xs[j - 1] != xs[j]
      ensures j in idx
    {
      if j < |xs| - 1 {
        assert init[j - 1] == xs[j - 1] && init[j] == xs[j];
        assert j in prev;
      } else {
        assert idx[|idx| - 1] == j;
      }
    }
  }

  /** A sequence without equal neighbours is its own dedup. */
  lemma {:induction false} DedupFixed<T>(s: seq<T>)
    requires NoAdjacentEqual(s)
    ensures Dedup(s) == s
    decreases |s|
  {
    if |s| > 0 {
      var init := s[..|s| - 1];
      DedupFixed(init);
      assert s == init + [s[|s| - 1]];
    }
  }

  /** Deduplicating twice is deduplicating once. */
  lemma DedupIdempotent<T>(xs: seq<T>)
    ensures Dedup(Dedup(xs)) == Dedup(xs)
  {
    DedupNoAdjacent(xs);
    DedupFixed(Dedup(xs));
  }

  /** Every element of the result comes from the input. */
  lemma DedupElements<T>(xs: seq<T>, k: nat)
    requires k < |Dedup(xs)|
    ensures Dedup(xs)[k] in xs
  {
    var idx := DedupSubsequence(xs);
    assert Dedup(xs)[k] == xs[idx[k]];
  }
}
