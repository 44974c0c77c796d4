/** The trigram extractor: a window of width three slid over a token sequence. */
module Ngrams {
  import opened Tokens

  /** Two consecutive tokens, the lookup key of the model. */
  type Context = (Word, Word)
  /** A context extended by the token that followed it. */
  type Trigram = (Word, Word, Word)

  function ContextOf(t: Trigram): Context {
    (t.0, t.1)
  }

  /** The windows of three consecutive tokens, left to right. */
  function Trigrams(tokens: seq<Word>): seq<Trigram> {
    if |tokens| < 3 then [] else [(tokens[0], tokens[1], tokens[2])] + Trigrams(tokens[1..])
  }

  /** n tokens give max(0, n - 2) trigrams. */
  lemma {:induction false} TrigramsLength(tokens: seq<Word>)
    ensures |Trigrams(tokens)| == if |tokens| >= 2 then |tokens| - 2 else 0
  {
    if |tokens| >= 3 {
      TrigramsLength(tokens[1..]);
    }
  }

  /** Trigram i is the three tokens starting at position i. */
  lemma {:induction false} TrigramsAt(tokens: seq<Word>, i: nat)
    requires i + 2 < |tokens|
    ensures i < |Trigrams(tokens)|
    ensures Trigrams(tokens)[i] == (tokens[i], tokens[i + 1], tokens[i + 2])
  {
    TrigramsLength(tokens);
    if i > 0 {
      TrigramsAt(tokens[1..], i - 1);
    }
  }

  /** Lines 20-28: collect (tokens[idx], tokens[idx+1], tokens[idx+2]) for each idx of tokens[:-2]. */
  method GenerateTrigrams(tokens: seq<Word>) returns (trigrams: seq<Trigram>)
    ensures |trigrams| == if |tokens| >= 2 then |tokens| - 2 else 0
    ensures forall i :: 0 <= i < |trigrams| ==> trigrams[i] == (tokens[i], tokens[i + 1], tokens[i + 2])
    ensures trigrams == Trigrams(tokens)
  {
    var head := if |tokens| >= 2 then tokens[..|tokens| - 2] else [];
    trigrams := [];
    var idx := 0;
    while idx < |head|
      invariant 0 <= idx <= |head|
      invariant |trigrams| == idx
      invariant forall i :: 0 <= i < idx ==> trigrams[i] == (tokens[i], tokens[i + 1], tokens[i + 2])
    {
      var item := head[idx];
      trigrams := trigrams + [(item, tokens[idx + 1], tokens[idx + 2])];
      idx := idx + 1;
    }
    TrigramsLength(tokens);
    forall i | 0 <= i < |trigrams|
      ensures trigrams[i] == Trigrams(tokens)[i]
    {
      TrigramsAt(tokens, i);
    }
  }
}
