/**
 * What the two tables of the model should hold after a stream of trigrams:
 * the trigram count table and, per context, the candidate list of distinct
 * successors in the order they were first seen.
 */
module Tables {
  import opened Tokens
  import opened Ngrams

  /** Trigram -> (number of occurrences, seen-before flag). */
  type Matrix = map<Trigram, (nat, bool)>
  /** Context -> candidate list. */
  type Bigrams = map<Context, seq<Word>>

  /** A context absent from the table has no candidates (the table is a defaultdict of lists). */
  function CandidatesIn(b: Bigrams, ctx: Context): seq<Word> {
    if ctx in b then b[ctx] else []
  }

  /** The occurrence count a trigram has in the table, 0 when it is absent. */
  function Weight(m: Matrix, t: Trigram): nat {
    if t in m then m[t].0 else 0
  }

  function Occurrences(ts: seq<Trigram>, t: Trigram): nat {
    multiset(ts)[t]
  }

  /** The successor of every trigram of ts with context ctx, one per occurrence, in stream order. */
  function Followers(ts: seq<Trigram>, ctx: Context): seq<Word> {
    if ts == [] then []
    else
      var last := ts[|ts| - 1];
      Followers(ts[..|ts| - 1], ctx) + (if ContextOf(last) == ctx then [last.2] else [])
  }

  lemma {:induction false} FollowersMembership(ts: seq<Trigram>, ctx: Context, w: Word)
    ensures w in Followers(ts, ctx) <==> (ctx.0, ctx.1, w) in ts
  {
    if ts != [] {
      var init := ts[..|ts| - 1];
      FollowersMembership(init, ctx, w);
      assert ts == init + [ts[|ts| - 1]];
    }
  }

  /** Position of the first occurrence of x in s. */
  function FirstIndex(s: seq<Word>, x: Word): (i: nat)
    requires x in s
    ensures i < |s| && s[i] == x
    ensures forall j :: 0 <= j < i ==> s[j] != x
  {
    if s[0] == x then 0 else 1 + FirstIndex(s[1..], x)
  }

  lemma FirstIndexExtend(s: seq<Word>, y: Word, x: Word)
    requires x in s
    ensures FirstIndex(s + [y], x) == FirstIndex(s, x)
  {
    var i, j := FirstIndex(s + [y], x), FirstIndex(s, x);
    assert (s + [y])[j] == x;
    assert s[i] == (s + [y])[i] by { assert i <= j; }
  }

  lemma FirstIndexNew(s: seq<Word>, x: Word)
    requires x !in s
    ensures FirstIndex(s + [x], x) == |s|
  {
    assert forall j :: 0 <= j < |s| ==> (s + [x])[j] == s[j];
  }

  predicate NoDuplicates(s: seq<Word>) {
    forall i, j :: 0 <= i < j < |s| ==> s[i] != s[j]
  }

  /** The distinct elements of s, each kept where it first occurs. */
  function Distinct(s: seq<Word>): seq<Word> {
    if s == [] then []
    else
      var init := s[..|s| - 1];
      if s[|s| - 1] in init then Distinct(init) else Distinct(init) + [s[|s| - 1]]
  }

  /**
   * Distinct(s) holds exactly the elements of s, each once, ordered by the
   * position of their first occurrence in s.
   */
  lemma {:induction false} DistinctProperties(s: seq<Word>)
    ensures forall x :: x in Distinct(s) <==> x in s
    ensures NoDuplicates(Distinct(s))
    ensures forall i, j :: 0 <= i < j < |Distinct(s)| ==>
      FirstIndex(s, Distinct(s)[i]) < FirstIndex(s, Distinct(s)[j])
  {
    if s != [] {
      var init, x := s[..|s| - 1], s[|s| - 1];
      assert s == init + [x];
      DistinctProperties(init);
      var d := Distinct(init);
      forall y | y in init
        ensures FirstIndex(s, y) == FirstIndex(init, y)
      {
        FirstIndexExtend(init, x, y);
      }
      if x !in init {
        FirstIndexNew(init, x);
        assert Distinct(s) == d + [x];
        forall i, j | 0 <= i < j < |Distinct(s)|
          ensures FirstIndex(s, Distinct(s)[i]) < FirstIndex(s, Distinct(s)[j])
        {
          if j == |d| {
            assert Distinct(s)[i] == d[i];
          } else {
            assert Distinct(s)[i] == d[i] && Distinct(s)[j] == d[j];
          }
        }
      }
    }
  }

  /** The candidate list of ctx: the distinct successors of ctx, in order of first sighting. */
  function Successors(ts: seq<Trigram>, ctx: Context): seq<Word> {
    Distinct(Followers(ts, ctx))
  }

  /** The contexts of all trigrams of ts. */
  function Contexts(ts: seq<Trigram>): set<Context> {
    set t | t in ts :: ContextOf(t)
  }

  /** The flag a trigram carries in the count table: set once the trigram has been seen. */
  function SeenBefore(m: Matrix, t: Trigram): bool {
    t in m && m[t].1
  }

  /** The count table after recording t: one more occurrence, flag set. */
  function Counted(m: Matrix, t: Trigram): Matrix {
    m[t := (1 + Weight(m, t), true)]
  }

  /** The list table after recording t: its successor joins its context's list unless t was seen before. */
  function Listed(m: Matrix, b: Bigrams, t: Trigram): Bigrams {
    if SeenBefore(m, t) then b else b[ContextOf(t) := CandidatesIn(b, ContextOf(t)) + [t.2]]
  }

  /** The count table after recording the trigrams of ts one by one into an empty table. */
  function TrigramCounts(ts: seq<Trigram>): Matrix {
    if ts == [] then map[]
    else Counted(TrigramCounts(ts[..|ts| - 1]), ts[|ts| - 1])
  }

  /** The list table after recording the trigrams of ts one by one into empty tables. */
  function CandidateLists(ts: seq<Trigram>): Bigrams {
    if ts == [] then map[]
    else
      var init := ts[..|ts| - 1];
      Listed(TrigramCounts(init), CandidateLists(init), ts[|ts| - 1])
  }

  /** Recording one more trigram extends the stream the tables were built from. */
  lemma RecordStep(ts: seq<Trigram>, t: Trigram)
    ensures TrigramCounts(ts + [t]) == Counted(TrigramCounts(ts), t)
    ensures CandidateLists(ts + [t]) == Listed(TrigramCounts(ts), CandidateLists(ts), t)
  {
    assert (ts + [t])[..|ts|] == ts;
  }

  /**
   * The invariant the sampler relies on: every candidate of every context
   * has a trigram count of at least one.
   */
  ghost predicate Consistent(m: Matrix, b: Bigrams) {
    forall ctx, w :: ctx in b && w in b[ctx] ==> Weight(m, (ctx.0, ctx.1, w)) >= 1
  }

  /** Two list tables that give every context the same candidates. */
  ghost predicate SameCandidates(b1: Bigrams, b2: Bigrams) {
    forall ctx :: CandidatesIn(b1, ctx) == CandidatesIn(b2, ctx)
  }

  lemma SameCandidatesTrans(b1: Bigrams, b2: Bigrams, b3: Bigrams)
    requires SameCandidates(b1, b2) && SameCandidates(b2, b3)
    ensures SameCandidates(b1, b3)
  {
  }

  /** Recording one trigram keeps every candidate's count at least one. */
  lemma RecordKeepsConsistent(m: Matrix, b: Bigrams, t: Trigram)
    requires Consistent(m, b)
    ensures Consistent(Counted(m, t), Listed(m, b, t))
  {
    var m', b' := Counted(m, t), Listed(m, b, t);
    forall ctx, w | ctx in b' && w in b'[ctx]
      ensures Weight(m', (ctx.0, ctx.1, w)) >= 1
    {
      if (ctx.0, ctx.1, w) != t {
        assert w in CandidatesIn(b, ctx);
      }
    }
  }

  /** b is b0 with empty lists added for contexts b0 does not have, and nothing else changed. */
  ghost predicate AddsEmptyLists(b: Bigrams, b0: Bigrams) {
    && (forall ctx :: ctx in b0 ==> ctx in b && b[ctx] == b0[ctx])
    && (forall ctx :: ctx in b && ctx !in b0 ==> b[ctx] == [])
  }

  lemma AddsEmptyListsTrans(b1: Bigrams, b2: Bigrams, b3: Bigrams)
    requires AddsEmptyLists(b1, b2) && AddsEmptyLists(b2, b3)
    ensures AddsEmptyLists(b1, b3)
  {
  }

  /**
   * The count table has one key per distinct trigram of the stream, holding
   * its number of occurrences and a set flag.
   */
  lemma {:induction false} TrigramCountsExact(ts: seq<Trigram>, t: Trigram)
    ensures t in TrigramCounts(ts) <==> Occurrences(ts, t) >= 1
    ensures t in TrigramCounts(ts) ==> TrigramCounts(ts)[t] == (Occurrences(ts, t), true)
  {
    if ts != [] {
      var init, last := ts[..|ts| - 1], ts[|ts| - 1];
      assert ts == init + [last];
      assert multiset(ts) == multiset(init) + multiset{last};
      TrigramCountsExact(init, t);
    }
  }

  /** The flag says whether the trigram occurs in the stream so far. */
  lemma SeenBeforeOccurs(ts: seq<Trigram>, t: Trigram)
    ensures SeenBefore(TrigramCounts(ts), t) <==> t in ts
    ensures Weight(TrigramCounts(ts), t) == Occurrences(ts, t)
  {
    TrigramCountsExact(ts, t);
  }

  /** A context with no trigram has no followers. */
  lemma NoFollowers(ts: seq<Trigram>, ctx: Context)
    requires ctx !in Contexts(ts)
    ensures Followers(ts, ctx) == []
  {
    var f := Followers(ts, ctx);
    if f != [] {
      FollowersMembership(ts, ctx, f[0]);
    }
  }

  lemma ContextsStep(ts: seq<Trigram>, t: Trigram)
    ensures Contexts(ts + [t]) == Contexts(ts) + {ContextOf(t)}
  {
    var us := ts + [t];
    forall c ensures c in Contexts(us) <==> c in Contexts(ts) + {ContextOf(t)} {
      if c in Contexts(us) {
        var v :| v in us && ContextOf(v) == c;
        if v != t { assert v in ts; }
      }
      if c in Contexts(ts) {
        var v :| v in ts && ContextOf(v) == c;
        assert v in us;
      }
    }
  }

  lemma SuccessorsStep(ts: seq<Trigram>, t: Trigram, c: Context)
    ensures Successors(ts + [t], c) ==
      if c == ContextOf(t) && t !in ts then Successors(ts, c) + [t.2] else Successors(ts, c)
  {
    var us := ts + [t];
    assert us[..|us| - 1] == ts;
    if c == ContextOf(t) {
      var f := Followers(us, c);
      assert f == Followers(ts, c) + [t.2];
      assert f[..|f| - 1] == Followers(ts, c);
      FollowersMembership(ts, c, t.2);
      assert t == (c.0, c.1, t.2);
    } else {
      assert Followers(us, c) == Followers(ts, c);
    }
  }

  /** The list table has a key for exactly the contexts of the stream. */
  lemma {:induction false} CandidateListDomain(ts: seq<Trigram>, ctx: Context)
    ensures ctx in CandidateLists(ts) <==> ctx in Contexts(ts)
  {
    if ts != [] {
      var init, t := ts[..|ts| - 1], ts[|ts| - 1];
      assert ts == init + [t];
      CandidateListDomain(init, ctx);
      ContextsStep(init, t);
      SeenBeforeOccurs(init, t);
      if t in init {
        assert ContextOf(t) in Contexts(init);
      }
    }
  }

  /** Recording trigram by trigram keeps, per context, the distinct successors in order of first sighting. */
  lemma {:induction false} CandidatesAreSuccessors(ts: seq<Trigram>, ctx: Context)
    ensures CandidatesIn(CandidateLists(ts), ctx) == Successors(ts, ctx)
  {
    if ts != [] {
      var init, t := ts[..|ts| - 1], ts[|ts| - 1];
      assert ts == init + [t];
      CandidatesAreSuccessors(init, ctx);
      SeenBeforeOccurs(init, t);
      SuccessorsStep(init, t, ctx);
    }
  }

  /**
   * A context has a candidate list exactly when some trigram has that
   * context, and then the list is not empty.
   */
  lemma CandidateListKeys(ts: seq<Trigram>, ctx: Context)
    ensures ctx in CandidateLists(ts) <==> exists w :: (ctx.0, ctx.1, w) in ts
    ensures ctx in CandidateLists(ts) ==> CandidateLists(ts)[ctx] != []
  {
    CandidateListDomain(ts, ctx);
    if ctx in CandidateLists(ts) {
      var t :| t in ts && ContextOf(t) == ctx;
      assert t == (ctx.0, ctx.1, t.2);
      FollowersMembership(ts, ctx, t.2);
      DistinctProperties(Followers(ts, ctx));
      CandidatesAreSuccessors(ts, ctx);
      assert t.2 in CandidateLists(ts)[ctx];
    } else {
      forall w ensures (ctx.0, ctx.1, w) !in ts {
        FollowersMembership(ts, ctx, w);
        NoFollowers(ts, ctx);
      }
    }
  }

  /**
   * The candidate list of a context has no duplicates, lists the successors
   * in order of first sighting, and holds w exactly when the trigram
   * (ctx, w) has a count of at least one.
   */
  lemma CandidateListFacts(ts: seq<Trigram>, ctx: Context)
    ensures forall w :: w in CandidatesIn(CandidateLists(ts), ctx) <==> w in Followers(ts, ctx)
    ensures NoDuplicates(CandidatesIn(CandidateLists(ts), ctx))
    ensures forall i, j :: 0 <= i < j < |CandidatesIn(CandidateLists(ts), ctx)| ==>
      FirstIndex(Followers(ts, ctx), CandidatesIn(CandidateLists(ts), ctx)[i]) <
      FirstIndex(Followers(ts, ctx), CandidatesIn(CandidateLists(ts), ctx)[j])
    ensures forall w :: w in CandidatesIn(CandidateLists(ts), ctx) <==>
      Weight(TrigramCounts(ts), (ctx.0, ctx.1, w)) >= 1
  {
    CandidatesAreSuccessors(ts, ctx);
    DistinctProperties(Followers(ts, ctx));
    forall w ensures w in Followers(ts, ctx) <==> Weight(TrigramCounts(ts), (ctx.0, ctx.1, w)) >= 1 {
      FollowersMembership(ts, ctx, w);
      SeenBeforeOccurs(ts, (ctx.0, ctx.1, w));
    }
  }

  /** The tables built from any stream satisfy the sampler's invariant. */
  lemma TablesConsistent(ts: seq<Trigram>)
    ensures Consistent(TrigramCounts(ts), CandidateLists(ts))
  {
    forall ctx, w | ctx in CandidateLists(ts) && w in CandidateLists(ts)[ctx]
      ensures Weight(TrigramCounts(ts), (ctx.0, ctx.1, w)) >= 1
    {
      CandidateListFacts(ts, ctx);
    }
  }

  /** The markers sit where the tokenizer puts them: the end marker never in a context, the begin marker never a successor. */
  predicate MarkersPlaced(t: Trigram) {
    t.0 != End && t.1 != End && t.2 != Begin
  }

  /**
   * From trigrams with the markers in place, no context of the list table
   * holds the end marker and no candidate list holds the begin marker.
   */
  lemma MarkersInTables(ts: seq<Trigram>, ctx: Context)
    requires forall t :: t in ts ==> MarkersPlaced(t)
    requires ctx in CandidateLists(ts)
    ensures ctx.0 != End && ctx.1 != End
    ensures Begin !in CandidateLists(ts)[ctx]
  {
    CandidateListDomain(ts, ctx);
    var t :| t in ts && ContextOf(t) == ctx;
    assert MarkersPlaced(t);
    CandidateListFacts(ts, ctx);
    FollowersMembership(ts, ctx, Begin);
  }

  /** Counts never decrease as the stream grows. */
  lemma CountsGrow(ts: seq<Trigram>, us: seq<Trigram>, t: Trigram)
    ensures Weight(TrigramCounts(ts), t) <= Weight(TrigramCounts(ts + us), t)
  {
    SeenBeforeOccurs(ts, t);
    SeenBeforeOccurs(ts + us, t);
    assert multiset(ts + us) == multiset(ts) + multiset(us);
  }
}
