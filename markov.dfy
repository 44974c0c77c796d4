/**
 * The trigram Markov model: training fills the two tables, the sampler
 * draws a successor of a context, the generator walks until the end marker.
 */
module MarkovGenerator {
  import opened Tokens
  import opened Ngrams
  import opened Tables
  import opened Sampling

  datatype Option<T> = None | Some(value: T)

  /** A source of draws that stays below the bound it is asked for. */
  ghost predicate BoundedStream(stream: (nat, nat) -> nat) {
    forall k: nat, n: nat :: 0 < n ==> stream(k, n) < n
  }

  /**
   * The process-wide random source: draw number k asked for a value below n
   * is stream(k, n); drawn counts the draws taken so far.
   */
  class Rng {
    const stream: (nat, nat) -> nat
    var drawn: nat

    ghost predicate Valid() {
      BoundedStream(stream)
    }

    constructor (stream: (nat, nat) -> nat)
      requires BoundedStream(stream)
      ensures Valid() && this.stream == stream && drawn == 0
    {
      this.stream := stream;
      drawn := 0;
    }

    /** An integer below n, as numpy.random.randint(n) returns: the stream's value for this draw. */
    method RandInt(n: nat) returns (x: nat)
      requires Valid() && 0 < n
      modifies this
      ensures x < n && x == stream(old(drawn), n)
      ensures drawn == old(drawn) + 1
    {
      x := stream(drawn, n);
      drawn := drawn + 1;
    }
  }

  /** The trigrams of a whole corpus, line after line. */
  function CorpusTrigrams(lines: seq<string>): seq<Trigram> {
    if lines == [] then []
    else CorpusTrigrams(lines[..|lines| - 1]) + Trigrams(Tokenize(lines[|lines| - 1]))
  }

  /** A line without a marker word gives trigrams with the markers in place. */
  lemma LineMarkersPlaced(line: string)
    requires End !in Split(Lower(line)) && Begin !in Split(Lower(line))
    ensures forall t :: t in Trigrams(Tokenize(line)) ==> MarkersPlaced(t)
  {
    var tok := Tokenize(line);
    SentinelsOnlyAtEnds(line);
    TrigramsLength(tok);
    forall t | t in Trigrams(tok)
      ensures MarkersPlaced(t)
    {
      var i :| 0 <= i < |Trigrams(tok)| && Trigrams(tok)[i] == t;
      TrigramsAt(tok, i);
      assert tok[i] == tok[..|tok| - 1][i] && tok[i + 1] == tok[..|tok| - 1][i + 1];
      assert tok[i + 2] == tok[2..][i];
    }
  }

  /** A corpus without marker words gives trigrams with the markers in place. */
  lemma {:induction false} CorpusMarkersPlaced(lines: seq<string>)
    requires forall l :: l in lines ==> End !in Split(Lower(l)) && Begin !in Split(Lower(l))
    ensures forall t :: t in CorpusTrigrams(lines) ==> MarkersPlaced(t)
  {
    if lines != [] {
      var init, last := lines[..|lines| - 1], lines[|lines| - 1];
      assert forall l :: l in init ==> l in lines;
      CorpusMarkersPlaced(init);
      LineMarkersPlaced(last);
    }
  }

  /**
   * Trained on lines with no marker word, no context of the list table
   * holds the end marker and no candidate list holds the begin marker.
   */
  lemma TrainedMarkers(lines: seq<string>)
    requires forall l :: l in lines ==> End !in Split(Lower(l)) && Begin !in Split(Lower(l))
    ensures var b := CandidateLists(CorpusTrigrams(lines));
      forall ctx :: ctx in b ==> ctx.0 != End && ctx.1 != End && Begin !in b[ctx]
  {
    CorpusMarkersPlaced(lines);
    forall ctx | ctx in CandidateLists(CorpusTrigrams(lines))
      ensures ctx.0 != End && ctx.1 != End && Begin !in CandidateLists(CorpusTrigrams(lines))[ctx]
    {
      MarkersInTables(CorpusTrigrams(lines), ctx);
    }
  }

  lemma AppendSlice<T>(a: seq<T>, s: seq<T>, j: nat)
    requires j < |s|
    ensures a + s[..j + 1] == (a + s[..j]) + [s[j]]
  {
    assert s[..j + 1] == s[..j] + [s[j]];
  }

  /** The counts of the candidates of ctx, in candidate order. */
  function Weights(m: Matrix, ctx: Context, cands: seq<Word>): seq<nat> {
    seq(|cands|, i requires 0 <= i < |cands| => Weight(m, (ctx.0, ctx.1, cands[i])))
  }

  /** Every candidate of ctx has a count of at least one. */
  ghost predicate Weighted(m: Matrix, ctx: Context, cands: seq<Word>) {
    forall i :: 0 <= i < |cands| ==> Weight(m, (ctx.0, ctx.1, cands[i])) >= 1
  }

  /**
   * The index of the candidate that draw number k picks among the
   * candidates of ctx: the first whose cumulative count is at least the
   * draw taken below the total count (|cands| if there is none).
   */
  function Choice(m: Matrix, ctx: Context, cands: seq<Word>, stream: (nat, nat) -> nat, k: nat): (i: nat)
    ensures i <= |cands|
  {
    var counts := Weights(m, ctx, cands);
    FirstAtLeast(PrefixSums(counts), stream(k, Sum(counts)))
  }

  /** A bounded stream and counts of at least one make the picked index a candidate's. */
  lemma ChoiceInRange(m: Matrix, ctx: Context, cands: seq<Word>, stream: (nat, nat) -> nat, k: nat)
    requires cands != [] && Weighted(m, ctx, cands) && BoundedStream(stream)
    ensures Choice(m, ctx, cands, stream, k) < |cands|
  {
    var counts := Weights(m, ctx, cands);
    SumAtLeastLength(counts);
    assert counts[..|counts|] == counts;
    var cum := PrefixSums(counts);
    assert cum[|cum| - 1] == Sum(counts);
    assert stream(k, Sum(counts)) < Sum(counts);
  }

  /**
   * Candidate i is picked exactly by the draws in
   * (Sum(W[..i]), Sum(W[..i + 1])] of its counts W, and the first
   * candidate also by draw 0: weighted by count, but off by one at the
   * boundaries.
   */
  lemma ChoiceInterval(m: Matrix, ctx: Context, cands: seq<Word>, stream: (nat, nat) -> nat, k: nat, i: nat)
    requires i < |cands|
    ensures var counts := Weights(m, ctx, cands);
      var coin := stream(k, Sum(counts));
      Choice(m, ctx, cands, stream, k) == i <==>
        (i == 0 || Sum(counts[..i]) < coin) && coin <= Sum(counts[..i + 1])
  {
    var counts := Weights(m, ctx, cands);
    ChosenIntervalAsWritten(counts, stream(k, Sum(counts)), i);
  }

  /**
   * The successor the sampler picks for ctx with draw number k, and the
   * number of draws taken afterwards.  An unseen context gives the end
   * marker and takes no draw; otherwise one draw picks the successor (the
   * end marker stands in for a draw that picks no candidate, which the
   * tables of a model never allow: see SamplePicksCandidate).
   */
  function Sample(m: Matrix, b: Bigrams, ctx: Context, stream: (nat, nat) -> nat, k: nat): (r: (Word, nat))
    ensures CandidatesIn(b, ctx) == [] ==> r == (End, k)
    ensures CandidatesIn(b, ctx) != [] ==> r.1 == k + 1
  {
    var cands := CandidatesIn(b, ctx);
    if cands == [] then (End, k)
    else
      var i := Choice(m, ctx, cands, stream, k);
      if i < |cands| then (cands[i], k + 1) else (End, k + 1)
  }

  /**
   * The sampler's pick spelled out: the counts of the candidates, their
   * cumulative sums, the draw below the total, and the first cumulative sum
   * at least the draw.
   */
  lemma SampleIs(m: Matrix, b: Bigrams, ctx: Context, stream: (nat, nat) -> nat, k: nat,
                 counts: seq<nat>, cum: seq<nat>, coin: nat, words: seq<Word>, w: Word, k': nat)
    requires CandidatesIn(b, ctx) != [] && Weighted(m, ctx, CandidatesIn(b, ctx)) && BoundedStream(stream)
    requires counts == Weights(m, ctx, CandidatesIn(b, ctx)) && cum == PrefixSums(counts)
    requires coin == stream(k, cum[|cum| - 1])
    requires words == CandidatesIn(b, ctx) && FirstAtLeast(cum, coin) < |words|
    requires w == words[FirstAtLeast(cum, coin)] && k' == k + 1
    ensures (w, k') == Sample(m, b, ctx, stream, k)
  {
    assert counts[..|counts|] == counts;
    ChoiceInRange(m, ctx, CandidatesIn(b, ctx), stream, k);
  }

  /** A context with candidates gives one of them. */
  lemma SamplePicksCandidate(m: Matrix, b: Bigrams, ctx: Context, stream: (nat, nat) -> nat, k: nat)
    requires Consistent(m, b) && BoundedStream(stream)
    requires CandidatesIn(b, ctx) != []
    ensures Choice(m, ctx, CandidatesIn(b, ctx), stream, k) < |CandidatesIn(b, ctx)|
    ensures Sample(m, b, ctx, stream, k) ==
      (CandidatesIn(b, ctx)[Choice(m, ctx, CandidatesIn(b, ctx), stream, k)], k + 1)
    ensures Sample(m, b, ctx, stream, k).0 in CandidatesIn(b, ctx)
  {
    var cands := CandidatesIn(b, ctx);
    assert Weighted(m, ctx, cands) by {
      assert forall i :: 0 <= i < |cands| ==> cands[i] in b[ctx];
    }
    ChoiceInRange(m, ctx, cands, stream, k);
  }

  /** The sampler reads a context's candidate list and nothing else of the list table. */
  lemma SampleReadsCandidates(m: Matrix, b1: Bigrams, b2: Bigrams, ctx: Context, stream: (nat, nat) -> nat, k: nat)
    requires CandidatesIn(b1, ctx) == CandidatesIn(b2, ctx)
    ensures Sample(m, b1, ctx, stream, k) == Sample(m, b2, ctx, stream, k)
  {
  }

  /** A source of successors: given a context and a draw number, a word and the next draw number. */
  type Picker = (Context, nat) -> (Word, nat)

  /** The sampler over the given tables and stream, as a picker. */
  function Sampler(m: Matrix, b: Bigrams, stream: (nat, nat) -> nat): Picker {
    (ctx: Context, k: nat) => Sample(m, b, ctx, stream, k)
  }

  function PrefixWith(ws: seq<Word>, r: Option<(seq<Word>, nat)>): Option<(seq<Word>, nat)> {
    match r
    case None => None
    case Some((rest, k)) => Some((ws + rest, k))
  }

  lemma PrefixWithAppend(ws: seq<Word>, x: Word, r: Option<(seq<Word>, nat)>)
    ensures PrefixWith(ws, PrefixWith([x], r)) == PrefixWith(ws + [x], r)
    ensures PrefixWith([], r) == r
  {
    if r.Some? {
      assert ws + ([x] + r.value.0) == (ws + [x]) + r.value.0;
      assert [] + r.value.0 == r.value.0;
    }
  }

  /**
   * The words the generator collects from the pair (prev, cur) on, with the
   * draws taken, or None when more than fuel words would be needed.
   */
  function Walk(pick: Picker, prev: Word, cur: Word, k: nat, fuel: nat): (r: Option<(seq<Word>, nat)>)
    ensures r.Some? ==> |r.value.0| <= fuel && (r.value.0 == [] <==> cur == End)
    decreases fuel
  {
    if cur == End then Some(([], k))
    else if fuel == 0 then None
    else
      var (next, k') := pick((prev, cur), k);
      PrefixWith([cur], Walk(pick, cur, next, k', fuel - 1))
  }

  /** One step of the walk: collect the current word, pick its successor and go on from there. */
  lemma WalkStep(pick: Picker, prev: Word, cur: Word, k: nat, fuel: nat, next: Word, k': nat, fuel': nat)
    requires cur != End && fuel == fuel' + 1
    requires next == pick((prev, cur), k).0 && k' == pick((prev, cur), k).1
    ensures Walk(pick, prev, cur, k, fuel) == PrefixWith([cur], Walk(pick, cur, next, k', fuel'))
  {
  }

  /**
   * Collecting the current word moves the sampler's walk on to the pair
   * (cur, sampled successor), whichever list table with the same
   * candidates was sampled.
   */
  lemma WalkAdvance(m: Matrix, b: Bigrams, read: Bigrams, stream: (nat, nat) -> nat,
                    whole: Option<(seq<Word>, nat)>, before: seq<Word>, prev: Word, cur: Word, k: nat, fuel: nat,
                    after: seq<Word>, next: Word, k': nat, fuel': nat)
    requires SameCandidates(read, b)
    requires cur != End && fuel == fuel' + 1 && after == before + [cur]
    requires (next, k') == Sample(m, read, (prev, cur), stream, k)
    requires PrefixWith(before, Walk(Sampler(m, b, stream), prev, cur, k, fuel)) == whole
    ensures PrefixWith(after, Walk(Sampler(m, b, stream), cur, next, k', fuel')) == whole
  {
    var pick := Sampler(m, b, stream);
    SampleReadsCandidates(m, read, b, (prev, cur), stream, k);
    assert pick((prev, cur), k) == Sample(m, b, (prev, cur), stream, k);
    WalkStep(pick, prev, cur, k, fuel, next, k', fuel');
    PrefixWithAppend(before, cur, Walk(pick, cur, next, k', fuel'));
  }

  /** The walk has stopped: at the end marker it gives the words collected so far, out of fuel nothing. */
  lemma WalkExit(pick: Picker, before: seq<Word>, prev: Word, cur: Word, k: nat, fuel: nat,
                 whole: Option<(seq<Word>, nat)>)
    requires PrefixWith(before, Walk(pick, prev, cur, k, fuel)) == whole
    requires cur == End || fuel == 0
    ensures cur == End ==> whole == Some((before, k))
    ensures cur != End ==> whole == None
  {
    if cur == End {
      assert before + [] == before;
    }
  }

  /** The absent initial word and the empty one both mean: draw it from the begin context. */
  predicate NoInitialWord(initialWord: Option<Word>) {
    initialWord.None? || initialWord.value == ""
  }

  /** The words of one generated paragraph and the draws taken after it. */
  function Paragraph(m: Matrix, b: Bigrams, initialWord: Option<Word>, stream: (nat, nat) -> nat, k: nat, fuel: nat)
    : (r: Option<(seq<Word>, nat)>)
    ensures r.Some? ==> |r.value.0| <= fuel
    ensures r.Some? && !NoInitialWord(initialWord) ==> (r.value.0 == [] <==> initialWord.value == End)
  {
    if NoInitialWord(initialWord) then
      var (first, k') := Sample(m, b, (Begin, Begin), stream, k);
      Walk(Sampler(m, b, stream), Begin, first, k', fuel)
    else Walk(Sampler(m, b, stream), Begin, initialWord.value, k, fuel)
  }

  /** A paragraph is the walk from the begin marker and its first word. */
  lemma ParagraphStart(m: Matrix, b: Bigrams, initialWord: Option<Word>, stream: (nat, nat) -> nat,
                       k: nat, fuel: nat, start: Word, k': nat)
    requires NoInitialWord(initialWord) ==>
      start == Sample(m, b, (Begin, Begin), stream, k).0 && k' == Sample(m, b, (Begin, Begin), stream, k).1
    requires !NoInitialWord(initialWord) ==> start == initialWord.value && k' == k
    ensures Paragraph(m, b, initialWord, stream, k, fuel) == Walk(Sampler(m, b, stream), Begin, start, k', fuel)
  {
  }

  function Rendered(p: Option<(seq<Word>, nat)>): Option<string> {
    match p
    case None => None
    case Some((ws, _)) => Some(Join(ws))
  }

  /** A walk that ends and does not start at the end marker collects cur and then a walk that ends. */
  lemma WalkUnfold(pick: Picker, prev: Word, cur: Word, k: nat, fuel: nat, ws: seq<Word>, k': nat)
    requires Walk(pick, prev, cur, k, fuel) == Some((ws, k'))
    requires cur != End
    ensures fuel > 0 && |ws| >= 1 && ws[0] == cur
    ensures var s := pick((prev, cur), k);
      Walk(pick, cur, s.0, s.1, fuel - 1) == Some((ws[1..], k'))
  {
    var s := pick((prev, cur), k);
    assert fuel > 0;
    WalkStep(pick, prev, cur, k, fuel, s.0, s.1, fuel - 1);
    var sub := Walk(pick, cur, s.0, s.1, fuel - 1);
    assert PrefixWith([cur], sub) == Some((ws, k'));
    assert sub.Some?;
    assert sub.value.0 == ws[1..];
  }

  /**
   * A walk that ends is empty exactly when it starts at the end marker,
   * starts with the current word, has at most fuel words and holds no end
   * marker.
   */
  lemma {:induction false} WalkWords(pick: Picker, prev: Word, cur: Word, k: nat, fuel: nat,
                                     ws: seq<Word>, k': nat)
    requires Walk(pick, prev, cur, k, fuel) == Some((ws, k'))
    ensures ws == [] <==> cur == End
    ensures ws != [] ==> ws[0] == cur
    ensures |ws| <= fuel
    ensures forall i :: 0 <= i < |ws| ==> ws[i] != End
    decreases fuel
  {
    if cur != End {
      WalkUnfold(pick, prev, cur, k, fuel, ws, k');
      var s := pick((prev, cur), k);
      var rest := ws[1..];
      WalkWords(pick, cur, s.0, s.1, fuel - 1, rest, k');
      forall i | 0 <= i < |ws|
        ensures ws[i] != End
      {
        if i > 0 {
          assert ws[i] == rest[i - 1];
        }
      }
    }
  }

  /** Each word from the third on is a candidate of the two words before it. */
  ghost predicate Chained(b: Bigrams, ws: seq<Word>) {
    forall i :: 2 <= i < |ws| ==> ws[i] in CandidatesIn(b, (ws[i - 2], ws[i - 1]))
  }

  /** Putting cur in front of a chained walk that starts with a candidate of (cur, its first word). */
  lemma ChainedCons(b: Bigrams, cur: Word, rest: seq<Word>)
    requires Chained(b, rest)
    requires |rest| >= 2 ==> rest[1] in CandidatesIn(b, (cur, rest[0]))
    ensures Chained(b, [cur] + rest)
  {
    var ws := [cur] + rest;
    forall i | 2 <= i < |ws|
      ensures ws[i] in CandidatesIn(b, (ws[i - 2], ws[i - 1]))
    {
      assert ws[i] == rest[i - 1] && ws[i - 1] == rest[i - 2];
      if i > 2 {
        assert ws[i - 2] == rest[i - 3];
      }
    }
  }

  /** A picker that gives, for every context, the end marker or one of its candidates. */
  ghost predicate PicksFrom(b: Bigrams, pick: Picker) {
    forall ctx, j :: pick(ctx, j).0 == End || pick(ctx, j).0 in CandidatesIn(b, ctx)
  }

  /** The sampler over consistent tables and a bounded stream picks from the candidate lists. */
  lemma SamplerPicksFrom(m: Matrix, b: Bigrams, stream: (nat, nat) -> nat)
    requires Consistent(m, b) && BoundedStream(stream)
    ensures PicksFrom(b, Sampler(m, b, stream))
  {
    var pick := Sampler(m, b, stream);
    forall ctx, j
      ensures pick(ctx, j).0 == End || pick(ctx, j).0 in CandidatesIn(b, ctx)
    {
      if CandidatesIn(b, ctx) != [] {
        SamplePicksCandidate(m, b, ctx, stream, j);
      }
    }
  }

  /**
   * In a walk that ends, each word after the first is a candidate of the
   * two words before it (the pair it starts from for the second word).
   */
  lemma {:induction false} WalkFollowsModel(b: Bigrams, pick: Picker, prev: Word, cur: Word, k: nat, fuel: nat,
                                            ws: seq<Word>, k': nat)
    requires PicksFrom(b, pick)
    requires Walk(pick, prev, cur, k, fuel) == Some((ws, k'))
    ensures |ws| >= 2 ==> ws[1] in CandidatesIn(b, (prev, cur))
    ensures Chained(b, ws)
    decreases fuel
  {
    if cur != End {
      WalkUnfold(pick, prev, cur, k, fuel, ws, k');
      var s := pick((prev, cur), k);
      var rest := ws[1..];
      WalkFollowsModel(b, pick, cur, s.0, s.1, fuel - 1, rest, k');
      WalkWords(pick, cur, s.0, s.1, fuel - 1, rest, k');
      assert ws == [cur] + rest;
      ChainedCons(b, cur, rest);
    }
  }

  /**
   * A paragraph that ends: from a given initial word it starts with that
   * word, and it is empty, rendering as "", when that word is the end
   * marker; without one it starts with a candidate of the begin context.
   * It never holds the end marker and each further word is a candidate of
   * the two words before it.
   */
  lemma ParagraphShape(m: Matrix, b: Bigrams, initialWord: Option<Word>, stream: (nat, nat) -> nat,
                       k: nat, fuel: nat, ws: seq<Word>, k': nat)
    requires Consistent(m, b) && BoundedStream(stream)
    requires Paragraph(m, b, initialWord, stream, k, fuel) == Some((ws, k'))
    ensures !NoInitialWord(initialWord) ==>
      (ws == [] <==> initialWord.value == End) && (ws != [] ==> ws[0] == initialWord.value)
    ensures NoInitialWord(initialWord) && ws != [] ==> ws[0] in CandidatesIn(b, (Begin, Begin))
    ensures |ws| >= 2 ==> ws[1] in CandidatesIn(b, (Begin, ws[0]))
    ensures !NoInitialWord(initialWord) && initialWord.value == End ==> Join(ws) == ""
    ensures forall i :: 0 <= i < |ws| ==> ws[i] != End
    ensures Chained(b, ws)
  {
    var pick := Sampler(m, b, stream);
    SamplerPicksFrom(m, b, stream);
    if NoInitialWord(initialWord) {
      var (first, k1) := Sample(m, b, (Begin, Begin), stream, k);
      assert (first, k1) == pick((Begin, Begin), k);
      WalkWords(pick, Begin, first, k1, fuel, ws, k');
      WalkFollowsModel(b, pick, Begin, first, k1, fuel, ws, k');
    } else {
      WalkWords(pick, Begin, initialWord.value, k, fuel, ws, k');
      WalkFollowsModel(b, pick, Begin, initialWord.value, k, fuel, ws, k');
    }
  }

  /**
   * Over tables whose candidate lists never hold the begin marker, it is
   * never generated: no word after the first is the begin marker, nor the
   * first when it was drawn.
   */
  lemma ParagraphWithoutBegin(m: Matrix, b: Bigrams, initialWord: Option<Word>, stream: (nat, nat) -> nat,
                              k: nat, fuel: nat, ws: seq<Word>, k': nat)
    requires Consistent(m, b) && BoundedStream(stream)
    requires forall ctx :: ctx in b ==> Begin !in b[ctx]
    requires Paragraph(m, b, initialWord, stream, k, fuel) == Some((ws, k'))
    ensures forall i :: 1 <= i < |ws| ==> ws[i] != Begin
    ensures NoInitialWord(initialWord) ==> forall i :: 0 <= i < |ws| ==> ws[i] != Begin
  {
    ParagraphShape(m, b, initialWord, stream, k, fuel, ws, k');
    forall i | 0 <= i < |ws| && (i >= 1 || NoInitialWord(initialWord))
      ensures ws[i] != Begin
    {
      if i >= 2 {
        assert ws[i] in CandidatesIn(b, (ws[i - 2], ws[i - 1]));
      }
    }
  }

  /** Inserting an empty list for an unseen context keeps the tables consistent and every candidate list. */
  lemma InsertEmptyList(m: Matrix, b: Bigrams, ctx: Context)
    requires Consistent(m, b) && ctx !in b
    ensures Consistent(m, b[ctx := []])
    ensures SameCandidates(b[ctx := []], b)
  {
  }

  /** The model object: the trigram count table and the candidate lists. */
  class Markov {
    var matrix: Matrix
    var bigrams: Bigrams

    ghost predicate Valid()
      reads this
    {
      Consistent(matrix, bigrams)
    }

    constructor ()
      ensures Valid() && matrix == map[] && bigrams == map[]
    {
      matrix := map[];
      bigrams := map[];
    }

    /**
     * Lines 31-65: reset both tables, then count every trigram of every
     * line and append a successor to its context's list the first time its
     * trigram is seen.  The result depends on the corpus alone.
     */
    method GenerateMatrix(lines: seq<string>)
      modifies this
      ensures matrix == TrigramCounts(CorpusTrigrams(lines))
      ensures bigrams == CandidateLists(CorpusTrigrams(lines))
      ensures Valid()
    {
      matrix := map[];
      bigrams := map[];
      var i := 0;
      while i < |lines|
        invariant 0 <= i <= |lines|
        invariant matrix == TrigramCounts(CorpusTrigrams(lines[..i]))
        invariant bigrams == CandidateLists(CorpusTrigrams(lines[..i]))
      {
        ghost var done := CorpusTrigrams(lines[..i]);
        var headline := Tokenize(lines[i]);
        var trigrams := GenerateTrigrams(headline);
        var j := 0;
        assert done + trigrams[..j] == done;
        while j < |trigrams|
          invariant 0 <= j <= |trigrams|
          invariant matrix == TrigramCounts(done + trigrams[..j])
          invariant bigrams == CandidateLists(done + trigrams[..j])
        {
          AppendSlice(done, trigrams, j);
          RecordStep(done + trigrams[..j], trigrams[j]);
          Observe(trigrams[j]);
          j := j + 1;
        }
        assert trigrams[..j] == trigrams;
        assert lines[..i + 1][..i] == lines[..i];
        assert CorpusTrigrams(lines[..i + 1]) == done + trigrams;
        i := i + 1;
      }
      assert lines[..i] == lines;
      TablesConsistent(CorpusTrigrams(lines));
    }

    /**
     * Lines 58-65: record one more trigram.  Its count goes up by one and
     * its flag is set; its successor joins its context's list only if the
     * trigram had not been seen before.
     */
    method Observe(trigram: Trigram)
      modifies this
      ensures matrix == Counted(old(matrix), trigram)
      ensures bigrams == Listed(old(matrix), old(bigrams), trigram)
      ensures old(Valid()) ==> Valid()
    {
      if Valid() {
        RecordKeepsConsistent(matrix, bigrams, trigram);
      }
      var bigram := (trigram.0, trigram.1);
      var currentWord := trigram.2;
      var (oldCount, seenBefore) := if trigram in matrix then matrix[trigram] else (0, false);
      if !seenBefore {
        bigrams := bigrams[bigram := CandidatesIn(bigrams, bigram) + [currentWord]];
      }
      matrix := matrix[trigram := (1 + oldCount, true)];
    }

    /**
     * Lines 68-89: the successor of (prevWord, currentWord).  Looking the
     * context up inserts an empty list for a context not seen before, which
     * is the only change to the model; an empty list gives the end marker
     * without a draw, otherwise one draw below the total count picks the
     * candidate.
     */
    method NextWord(prevWord: Word, currentWord: Word, rng: Rng) returns (w: Word)
      requires Valid() && rng.Valid()
      modifies this, rng
      ensures Valid() && matrix == old(matrix)
      ensures bigrams == if (prevWord, currentWord) in old(bigrams) then old(bigrams)
                         else old(bigrams)[(prevWord, currentWord) := []]
      ensures SameCandidates(bigrams, old(bigrams)) && AddsEmptyLists(bigrams, old(bigrams))
      ensures (w, rng.drawn) == Sample(old(matrix), old(bigrams), (prevWord, currentWord), rng.stream, old(rng.drawn))
    {
      ghost var b0, k0 := bigrams, rng.drawn;
      var bigram := (prevWord, currentWord);
      if bigram !in bigrams {
        InsertEmptyList(matrix, bigrams, bigram);
        bigrams := bigrams[bigram := []];
      }
      assert Valid() && SameCandidates(bigrams, b0);
      var candidates := bigrams[bigram];
      assert candidates == CandidatesIn(b0, bigram);
      var words: seq<Word> := [];
      var counts: seq<nat> := [];
      var i := 0;
      while i < |candidates|
        invariant 0 <= i <= |candidates|
        invariant words == candidates[..i]
        invariant counts == Weights(matrix, bigram, candidates)[..i]
      {
        assert candidates[i] in bigrams[bigram];
        var trigram := (bigram.0, bigram.1, candidates[i]);
        var (count, _) := matrix[trigram];
        words := words + [candidates[i]];
        counts := counts + [count];
        i := i + 1;
      }
      assert words == candidates;
      assert counts == Weights(matrix, bigram, candidates);
      if |counts| == 0 {
        assert CandidatesIn(b0, bigram) == [];
        return End;
      }
      var cumcounts := CumSum(counts);
      assert Weighted(matrix, bigram, candidates) by {
        assert forall j :: 0 <= j < |candidates| ==> candidates[j] in bigrams[bigram];
      }
      SumAtLeastLength(counts);
      assert counts[..|counts|] == counts;
      var coin := rng.RandInt(cumcounts[|cumcounts| - 1]);
      w := ChooseWeightedAsWritten(words, cumcounts, coin);
      SampleIs(matrix, b0, bigram, rng.stream, k0, counts, cumcounts, coin, words, w, rng.drawn);
    }

    /**
     * Lines 92-107: generate one paragraph.  The walk starts from the begin
     * marker and the initial word (drawn from the begin context when none is
     * given), collects words until the sampler gives the end marker and
     * joins them with single spaces.  Gives None when fuel runs out first.
     */
    method GenerateParagraph(initialWord: Option<Word>, rng: Rng, fuel: nat) returns (r: Option<string>)
      requires Valid() && rng.Valid()
      modifies this, rng
      ensures Valid() && matrix == old(matrix)
      ensures SameCandidates(bigrams, old(bigrams))
      ensures AddsEmptyLists(bigrams, old(bigrams))
      ensures r == Rendered(Paragraph(old(matrix), old(bigrams), initialWord, rng.stream, old(rng.drawn), fuel))
      ensures r.Some? ==> rng.drawn == Paragraph(old(matrix), old(bigrams), initialWord, rng.stream, old(rng.drawn), fuel).value.1
    {
      ghost var m0, b0, k0 := matrix, bigrams, rng.drawn;
      var start: Word;
      if NoInitialWord(initialWord) {
        start := NextWord(Begin, Begin, rng);
      } else {
        start := initialWord.value;
      }
      ghost var k1 := rng.drawn;
      ghost var pick := Sampler(m0, b0, rng.stream);
      ghost var whole := Walk(pick, Begin, start, k1, fuel);
      ParagraphStart(m0, b0, initialWord, rng.stream, k0, fuel, start, k1);
      var prevWord := Begin;
      var currentWord := start;
      var paragraph := [start];
      var remaining := fuel;
      PrefixWithAppend([], start, whole);
      assert paragraph[1..] == [];
      while currentWord != End && remaining > 0
        invariant Valid() && matrix == m0
        invariant SameCandidates(bigrams, b0)
        invariant AddsEmptyLists(bigrams, b0)
        invariant |paragraph| >= 1
        invariant PrefixWith(paragraph[1..], Walk(pick, prevWord, currentWord, rng.drawn, remaining)) == whole
        decreases remaining
      {
        ghost var before, prev0, cur0, k, fuel0, read := paragraph[1..], prevWord, currentWord, rng.drawn, remaining, bigrams;
        paragraph := paragraph + [currentWord];
        var next := NextWord(prevWord, currentWord, rng);
        prevWord, currentWord := currentWord, next;
        remaining := remaining - 1;
        SameCandidatesTrans(bigrams, read, b0);
        AddsEmptyListsTrans(bigrams, read, b0);
        WalkAdvance(m0, b0, read, rng.stream, whole, before, prev0, cur0, k, fuel0,
                    paragraph[1..], currentWord, rng.drawn, remaining);
      }
      WalkExit(pick, paragraph[1..], prevWord, currentWord, rng.drawn, remaining, whole);
      if currentWord == End {
        r := Some(Join(paragraph[1..]));
      } else {
        r := None;
      }
    }
  }
}
