/**
 * Weighted choice among the candidates of a context: cumulative counts,
 * a draw below the total, and a scan for the first cumulative count that
 * the draw selects.
 */
module Sampling {
  import opened Tokens

  function Sum(s: seq<nat>): nat {
    if s == [] then 0 else Sum(s[..|s| - 1]) + s[|s| - 1]
  }

  lemma {:induction false} SumMonotone(s: seq<nat>, i: nat, j: nat)
    requires i <= j <= |s|
    ensures Sum(s[..i]) <= Sum(s[..j])
    decreases j - i
  {
    if i < j {
      assert s[..j][..j - 1] == s[..j - 1];
      SumMonotone(s, i, j - 1);
    }
  }

  /** A list of counts that are all at least one sums to at least its length. */
  lemma {:induction false} SumAtLeastLength(s: seq<nat>)
    requires forall i :: 0 <= i < |s| ==> s[i] >= 1
    ensures Sum(s) >= |s|
  {
    if s != [] {
      SumAtLeastLength(s[..|s| - 1]);
    }
  }

  /** Cumulative sums, as numpy.cumsum computes them: entry i is the sum of the first i + 1 counts. */
  function PrefixSums(counts: seq<nat>): (cum: seq<nat>)
    ensures |cum| == |counts|
    ensures forall i :: 0 <= i < |cum| ==> cum[i] == Sum(counts[..i + 1])
  {
    if counts == [] then []
    else
      var init := counts[..|counts| - 1];
      assert forall i :: 0 <= i <= |init| ==> init[..i] == counts[..i];
      assert counts[..|counts|] == counts;
      PrefixSums(init) + [Sum(counts)]
  }

  /** Line 85: numpy.cumsum over the counts. */
  method CumSum(counts: seq<nat>) returns (cum: seq<nat>)
    ensures cum == PrefixSums(counts)
  {
    cum := [];
    var total := 0;
    var i := 0;
    while i < |counts|
      invariant 0 <= i <= |counts|
      invariant |cum| == i
      invariant total == Sum(counts[..i])
      invariant forall j :: 0 <= j < i ==> cum[j] == Sum(counts[..j + 1])
    {
      assert counts[..i + 1][..i] == counts[..i];
      total := total + counts[i];
      cum := cum + [total];
      i := i + 1;
    }
  }

  /** The least index whose cumulative count is strictly above the draw (|cum| if there is none). */
  function FirstAbove(cum: seq<nat>, coin: nat): (k: nat)
    ensures k <= |cum|
    ensures forall j :: 0 <= j < k ==> cum[j] <= coin
    ensures k < |cum| ==> cum[k] > coin
  {
    if cum == [] then 0 else if cum[0] > coin then 0 else 1 + FirstAbove(cum[1..], coin)
  }

  /** The least index whose cumulative count is at least the draw (|cum| if there is none). */
  function FirstAtLeast(cum: seq<nat>, coin: nat): (k: nat)
    ensures k <= |cum|
    ensures forall j :: 0 <= j < k ==> cum[j] < coin
    ensures k < |cum| ==> cum[k] >= coin
  {
    if cum == [] then 0 else if cum[0] >= coin then 0 else 1 + FirstAtLeast(cum[1..], coin)
  }

  /**
   * Lines 87-89 as written: return the first candidate whose cumulative
   * count is at least the draw.  The draw is below the total, so the scan
   * always returns.
   */
  method ChooseWeightedAsWritten(words: seq<Word>, cumcounts: seq<nat>, coin: nat) returns (w: Word)
    requires |words| == |cumcounts| > 0
    requires coin < cumcounts[|cumcounts| - 1]
    ensures FirstAtLeast(cumcounts, coin) < |words|
    ensures w == words[FirstAtLeast(cumcounts, coin)]
  {
    var index := 0;
    while index < |cumcounts|
      invariant 0 <= index <= |cumcounts|
      invariant forall j :: 0 <= j < index ==> cumcounts[j] < coin
    {
      if cumcounts[index] >= coin {
        assert FirstAtLeast(cumcounts, coin) == index;
        return words[index];
      }
      index := index + 1;
    }
    assert false;
  }

  /**
   * Lines 87-89 with the comparison made strict: return the first candidate
   * whose cumulative count is above the draw, so that each candidate is
   * chosen by exactly as many draws as its count.
   */
  method ChooseWeighted(words: seq<Word>, cumcounts: seq<nat>, coin: nat) returns (w: Word)
    requires |words| == |cumcounts| > 0
    requires coin < cumcounts[|cumcounts| - 1]
    ensures FirstAbove(cumcounts, coin) < |words|
    ensures w == words[FirstAbove(cumcounts, coin)]
  {
    var index := 0;
    while index < |cumcounts|
      invariant 0 <= index <= |cumcounts|
      invariant forall j :: 0 <= j < index ==> cumcounts[j] <= coin
    {
      if cumcounts[index] > coin {
        assert FirstAbove(cumcounts, coin) == index;
        return words[index];
      }
      index := index + 1;
    }
    assert false;
  }

  /**
   * With the strict comparison, candidate k is chosen exactly by the draws
   * in [Sum(counts[..k]), Sum(counts[..k + 1])), an interval of counts[k]
   * draws: the selection probability is count / total.
   */
  lemma ChosenInterval(counts: seq<nat>, coin: nat, k: nat)
    requires k < |counts|
    ensures Sum(counts[..k + 1]) == Sum(counts[..k]) + counts[k]
    ensures FirstAbove(PrefixSums(counts), coin) == k <==>
      Sum(counts[..k]) <= coin < Sum(counts[..k + 1])
  {
    assert counts[..k + 1][..k] == counts[..k];
    var cum := PrefixSums(counts);
    var f := FirstAbove(cum, coin);
    if f == k {
      if k > 0 {
        assert cum[k - 1] <= coin;
      }
    }
    if Sum(counts[..k]) <= coin < Sum(counts[..k + 1]) {
      if f < k {
        SumMonotone(counts, f + 1, k);
      }
    }
  }

  /**
   * As written, candidate k is chosen by the draws in
   * (Sum(counts[..k]), Sum(counts[..k + 1])], and the first candidate also
   * by draw 0: one draw too many for the first candidate and, because the
   * draw stays below the total, one too few for the last.
   */
  lemma ChosenIntervalAsWritten(counts: seq<nat>, coin: nat, k: nat)
    requires k < |counts|
    ensures FirstAtLeast(PrefixSums(counts), coin) == k <==>
      (k == 0 || Sum(counts[..k]) < coin) && coin <= Sum(counts[..k + 1])
  {
    assert counts[..k + 1][..k] == counts[..k];
    var cum := PrefixSums(counts);
    var f := FirstAtLeast(cum, coin);
    if f == k {
      if k > 0 {
        assert cum[k - 1] < coin;
      }
    }
    if (k == 0 || Sum(counts[..k]) < coin) && coin <= Sum(counts[..k + 1]) {
      if f < k {
        SumMonotone(counts, f + 1, k);
      }
    }
  }

  /**
   * Counts 9 and 1, draws 0 to 9: as written every draw picks the first
   * candidate, so the second, seen once in ten, is never picked; with the
   * strict comparison draw 9 picks it.
   */
  lemma BoundaryDraw()
    ensures forall coin: nat :: coin < 10 ==> FirstAtLeast(PrefixSums([9, 1]), coin) == 0
    ensures FirstAbove(PrefixSums([9, 1]), 9) == 1
  {
    var counts: seq<nat> := [9, 1];
    assert counts[..1] == [9] && counts[..2] == counts && [9][..0] == [];
    assert Sum([9]) == 9 && Sum(counts) == 10;
    var cum := PrefixSums(counts);
    assert cum[0] == 9 && cum[1] == 10;
    assert cum[1..][0] == 10;
  }

  /**
   * Two candidates seen once each (the context "the cat" of the corpus
   * "the cat sat" / "the cat ran"): as written both draws pick the first,
   * so the second line can never be generated.
   */
  lemma EvenSplit()
    ensures FirstAtLeast(PrefixSums([1, 1]), 0) == 0 && FirstAtLeast(PrefixSums([1, 1]), 1) == 0
    ensures FirstAbove(PrefixSums([1, 1]), 0) == 0 && FirstAbove(PrefixSums([1, 1]), 1) == 1
  {
    var counts: seq<nat> := [1, 1];
    assert counts[..1] == [1] && counts[..2] == counts && [1][..0] == [];
    assert Sum([1]) == 1 && Sum(counts) == 2;
    var cum := PrefixSums(counts);
    assert cum[0] == 1 && cum[1] == 2;
    assert cum[1..][0] == 2;
  }
}
