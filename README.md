# Trigram Markov text generator, modelled in Dafny

`markovgenerator.py` trains a trigram Markov chain on a text corpus and then
generates headlines from it. This project models the core of that file and
proves properties of the model:

- **Tokenizer** (line 17). A line becomes two begin markers `^`, the line's
  lower-cased whitespace-separated words, and one end marker `$`.
- **Trigram extractor** (`generateTrigrams`).
- **Training** (`generateMatrix`). It fills two tables held by the `Markov`
  object:
  - the count table `matrix`, which maps a trigram to its count and a
    seen-before flag;
  - the list table `bigrams`, which maps a two-word context to its
    candidate successors.
- **Sampler** (`generateNextWord`). It draws one successor of a context,
  weighted by the trigram counts.
- **Generator** (`generateParagraph`). It walks from the begin context until
  the end marker and joins the words with spaces.

The modules follow the program:

- `Tokens` (tokens.dfy): words, markers, ASCII lower-casing, splitting, joining.
- `Ngrams` (ngrams.dfy): contexts, trigrams and the window method.
- `Tables` (tables.dfy): what the two tables hold after a stream of trigrams.
  - `TrigramCounts` and `CandidateLists` record the trigrams one by one, as
    the training loop does.
  - The lemmas characterise the result declaratively: occurrence counts,
    distinct successors in order of first sighting, and the key sets.
- `Sampling` (sampling.dfy): cumulative sums and the scan that picks an
  index, in the source's form and in the corrected form.
- `MarkovGenerator` (markov.dfy): the random source, the sampler and the
  walk as functions, and the `Markov` class with the training, sampling and
  generation methods.
  - Each method is proved against those functions.
  - The functions' properties are proved as lemmas.

The random source (`numpy.random`) is a class `Rng` with two parts:

- a fixed stream `stream(k, n)`, the value of draw number `k` when a value
  below `n` is asked for;
- a counter `drawn` of the draws taken so far.

The only thing assumed about the stream is that every draw stays below its
bound (`BoundedStream`). The unbounded generation loop is given a fuel
bound.

Three behaviours of the code are worth stating plainly, and the model
follows the code in each:

- **Markers in the corpus.** Nothing filters `^` or `$` out of a line, so a
  line can hold a marker as a word. `Tokens.SentinelsOnlyAtEnds` states that
  the markers occur only at the ends exactly when the line has no such word.
  For a corpus with no marker word, `MarkovGenerator.TrainedMarkers` states
  that no context holds `$` and no candidate list holds `^`.
  `MarkovGenerator.ParagraphWithoutBegin` states that `^` is then never
  generated.
- **Sampling changes the model.** Looking a context up in the `defaultdict`
  (line 76) inserts an empty list for an unseen context.
  `MarkovGenerator.Markov.NextWord` states that insertion as its only change.
- **Weighting.** The comment at line 84 says the successor is picked "with
  probability weighted by frequency in training corpus". The `>=` comparison
  of line 88 misses this by one draw at the boundaries (see "## Findings").
  The sampler of the model, and so `NextWord` and `GenerateParagraph`, use
  the comparison as written. The strict comparison is given beside it in
  `Sampling`.

## Model

| member | source | states |
|---|---|---|
| Tokens.Lower | markovgenerator.py:17 | lower-casing keeps the length and maps every character through ASCII lower-casing |
| Tokens.LowerChar | markovgenerator.py:17 | an upper-case ASCII letter becomes the letter 32 code points up, the lower-case one; every other character is kept; whitespace stays whitespace |
| Tokens.Split | markovgenerator.py:17 | every word splitting produces is non-empty and holds no whitespace |
| Tokens.SplitJoin | markovgenerator.py:17 | splitting a single-space join of well-formed words gives back exactly those words |
| Tokens.SplitKeepsText | markovgenerator.py:17 | splitting loses and adds no text: the words run together are exactly the line's non-whitespace characters, in order |
| Tokens.JoinSplitSqueezes | markovgenerator.py:17 | splitting cuts exactly at the runs of whitespace: the words joined with single spaces are the line trimmed, with every inner whitespace run turned into one space (`Squeeze`, defined character by character) |
| Tokens.Join | markovgenerator.py:106 | `' '.join`: the words with one space between neighbours; it has no contract of its own, and `Tokens.SplitJoin` and `Tokens.JoinSplitSqueezes` state what it gives |
| Tokens.SplitJoinSplit | markovgenerator.py:17 | joining the words of any line with single spaces and splitting again gives the same words |
| Tokens.Tokenize | markovgenerator.py:17 | the tokens of a line are `^`, `^`, the words, `$` (at least three tokens), and the words run together are exactly the lower-cased line's non-whitespace characters, in order; `Tokens.TokenizeShape` gives the words as `Split(Lower(line))` |
| Tokens.TokenizeShape | markovgenerator.py:17 | a tokenized line is `^`, `^`, the line's words, `$`; it has three tokens more than the line has words and never fewer than three; every word is non-empty and has no whitespace, and no word has an upper-case letter |
| Tokens.SentinelsOnlyAtEnds | markovgenerator.py:17 | `$` occurs before the last token, or `^` after the first two, exactly when the line itself has such a word |
| Ngrams.Trigrams | markovgenerator.py:20-28 | the windows of three consecutive tokens, left to right; it has no contract of its own, and `Ngrams.TrigramsLength` and `Ngrams.TrigramsAt` state its length and its entries |
| Ngrams.TrigramsLength | markovgenerator.py:23-28 | n tokens give max(0, n - 2) trigrams |
| Ngrams.TrigramsAt | markovgenerator.py:25-26 | trigram i is (t[i], t[i+1], t[i+2]) |
| Ngrams.GenerateTrigrams | markovgenerator.py:20-28 | the loop returns max(0, n - 2) trigrams, trigram i being (t[i], t[i+1], t[i+2]), in left-to-right order |
| Tables.Counted | markovgenerator.py:60-65 | the count table after one trigram: its entry becomes (1 + its old count, or 0, True); it has no contract of its own, and `Tables.TrigramCountsExact` states what a fold of it holds |
| Tables.Listed | markovgenerator.py:58-63 | the list table after one trigram: its successor is appended to its context's list only when the trigram's flag was not set; it has no contract of its own, and `Tables.CandidatesAreSuccessors` states what a fold of it holds |
| Tables.TrigramCounts | markovgenerator.py:56-65 | the count table after recording a stream of trigrams one by one into an empty table; its contents are stated by `Tables.TrigramCountsExact` and `Tables.SeenBeforeOccurs` |
| Tables.CandidateLists | markovgenerator.py:56-65 | the list table after recording a stream of trigrams one by one into empty tables; its contents are stated by `Tables.CandidatesAreSuccessors`, `Tables.CandidateListDomain` and `Tables.CandidateListFacts` |
| Tables.RecordKeepsConsistent | markovgenerator.py:58-65 | recording one trigram into consistent tables leaves them consistent: every candidate still has a count of at least one |
| Tables.DistinctProperties | markovgenerator.py:60-63 | the distinct-successor list holds exactly the elements of the follower list, each once, ordered by first occurrence |
| Tables.TrigramCountsExact | markovgenerator.py:56-65 | after a stream of trigrams, a trigram is a key of the count table exactly when it occurs, and its entry is (its number of occurrences, True) |
| Tables.SeenBeforeOccurs | markovgenerator.py:60-62 | the seen-before flag is set exactly when the trigram occurred earlier in the stream; the stored count is its number of occurrences |
| Tables.CountsGrow | markovgenerator.py:65 | a trigram's count never decreases when more trigrams are recorded |
| Tables.CandidateListDomain | markovgenerator.py:58-63 | a context is a key of the list table exactly when some trigram of the stream has that context |
| Tables.CandidatesAreSuccessors | markovgenerator.py:58-63 | recording trigram by trigram leaves, per context, the distinct successors in order of first sighting |
| Tables.CandidateListKeys | markovgenerator.py:58-63 | a context has a list exactly when some trigram (ctx, w) occurs, and that list is never empty |
| Tables.CandidateListFacts | markovgenerator.py:58-65 | a candidate list has no duplicates and is ordered by first sighting; w is in it exactly when w followed the context, and exactly when (ctx, w) has a count of at least one |
| Tables.MarkersInTables | markovgenerator.py:58-63 | from trigrams with the markers in place, no context of the list table holds `$` and no candidate list holds `^` |
| Tables.TablesConsistent | markovgenerator.py:58-65 | every candidate of every context of the trained tables has a count of at least one, which is what the sampler's lookups and draw rely on |
| MarkovGenerator.CorpusTrigrams | markovgenerator.py:50-56 | the trigrams of the tokenized lines of the corpus, line after line, in the order the training loop records them; it has no contract of its own, and `MarkovGenerator.Markov.GenerateMatrix` and `MarkovGenerator.CorpusMarkersPlaced` are stated over it |
| MarkovGenerator.LineMarkersPlaced | markovgenerator.py:17-28 | a line without a marker word gives trigrams whose first two words are not `$` and whose third is not `^` |
| MarkovGenerator.CorpusMarkersPlaced | markovgenerator.py:17-28 | the same for every trigram of a corpus without marker words |
| MarkovGenerator.TrainedMarkers | markovgenerator.py:47-65 | trained on lines without marker words, no context of the list table holds `$` and no candidate list holds `^` |
| MarkovGenerator.Markov.GenerateMatrix | markovgenerator.py:31-65 | training resets both tables and leaves exactly the tables recorded from the corpus's trigrams, line after line, so the result depends on the corpus alone; the tables are consistent |
| MarkovGenerator.Markov.Observe | markovgenerator.py:58-65 | recording a trigram raises its count by one and sets its flag; its successor joins its context's list only if the trigram had not been seen before; consistent tables stay consistent |
| MarkovGenerator.Rng.RandInt | markovgenerator.py:86 | a draw below the positive bound, read from the stream at the current draw number, and the draw number goes up by one |
| Sampling.PrefixSums | markovgenerator.py:85 | cumulative sums: as many as counts, entry i is the sum of the first i + 1 counts |
| Sampling.CumSum | markovgenerator.py:85 | the running-total loop computes the cumulative sums |
| Sampling.FirstAtLeast | markovgenerator.py:87-88 | the scan of line 88 as a function: the least index whose cumulative count is at least the draw, every earlier one below it, and the length when there is none |
| Sampling.ChooseWeightedAsWritten | markovgenerator.py:87-89 | with the source's `>=`, the scan returns the candidate at the first cumulative count at least the draw, and a draw below the total always finds one |
| Sampling.ChooseWeighted | markovgenerator.py:87-89 | with the strict comparison, the scan returns the candidate at the first cumulative count above the draw, and a draw below the total always finds one |
| Sampling.ChosenInterval | markovgenerator.py:85-89 | with the strict comparison, candidate k is chosen exactly by the draws in [Sum(counts[..k]), Sum(counts[..k+1])), which is counts[k] draws |
| Sampling.ChosenIntervalAsWritten | markovgenerator.py:85-89 | as written, candidate k is chosen exactly by the draws in (Sum(counts[..k]), Sum(counts[..k+1])], plus draw 0 for the first candidate |
| Sampling.BoundaryDraw | markovgenerator.py:86-89 | for counts 9 and 1, as written all ten draws pick the first candidate; with the strict comparison draw 9 picks the second |
| Sampling.EvenSplit | markovgenerator.py:86-89 | for counts 1 and 1, as written both draws pick the first candidate; with the strict comparison each draw picks a different one |
| MarkovGenerator.Weights | markovgenerator.py:76-80 | the `counts` list: the count of each candidate's trigram, in candidate order; it has no contract of its own; `MarkovGenerator.Choice` draws over it, and `MarkovGenerator.Markov.NextWord`'s loop builds it |
| MarkovGenerator.Choice | markovgenerator.py:85-89 | the index picked among the candidates with counts W is `FirstAtLeast(PrefixSums(W), draw)`, at most the number of candidates; what that means is stated by `MarkovGenerator.ChoiceInterval` and `MarkovGenerator.ChoiceInRange` |
| MarkovGenerator.ChoiceInRange | markovgenerator.py:85-89 | when the counts are all at least one and the draw is below the total, the picked index is a candidate's |
| MarkovGenerator.ChoiceInterval | markovgenerator.py:84-89 | with line 88's `>=`, candidate i is picked exactly by the draws in (Sum(W[..i]), Sum(W[..i+1])] of its counts W, and the first candidate also by draw 0 |
| MarkovGenerator.Sample | markovgenerator.py:76-89 | a context without candidates gives `$` and takes no draw; otherwise exactly one draw is taken |
| MarkovGenerator.SamplePicksCandidate | markovgenerator.py:85-89 | for consistent tables and a context with candidates, the picked index is in range and the sampler gives that candidate and one draw, so the scan never falls through |
| MarkovGenerator.SampleReadsCandidates | markovgenerator.py:76-78 | the sampler depends on the context's candidate list and nothing else of the list table |
| MarkovGenerator.InsertEmptyList | markovgenerator.py:76 | inserting an empty list for an unseen context keeps the tables consistent and every context's candidates |
| MarkovGenerator.Markov.NextWord | markovgenerator.py:68-89 | the count table is unchanged; the list table changes only by an empty list for an unseen context, so every candidate list is the same; the tables stay consistent; the word and the draws taken are the sampler's: `$` with no draw for no candidates, otherwise the candidate at the first cumulative count at least one draw below the total, as line 88 compares |
| MarkovGenerator.Walk | markovgenerator.py:98-104 | the words the loop collects from a pair of words on, with the draws taken, or None when more than the fuel's words would be needed; a finished walk has at most fuel words and is empty exactly when it starts at `$` |
| MarkovGenerator.WalkExit | markovgenerator.py:102-106 | `Walk`'s two base cases at the loop's exit, as the definition gives them: at `$` the words collected so far, out of fuel nothing |
| MarkovGenerator.WalkWords | markovgenerator.py:100-104 | a finished walk is empty exactly when it starts at `$`; it starts with the current word, has at most fuel words and never holds `$` |
| MarkovGenerator.SamplerPicksFrom | markovgenerator.py:87-89 | over consistent tables, every pick of the sampler is `$` or a candidate of its context |
| MarkovGenerator.WalkFollowsModel | markovgenerator.py:102-104 | in a finished walk, each word after the first is a candidate of the two words before it |
| MarkovGenerator.NoInitialWord | markovgenerator.py:95 | `not initial_word`: no initial word, or the empty one; it has no contract of its own, and `MarkovGenerator.Paragraph` draws the first word exactly in this case |
| MarkovGenerator.Paragraph | markovgenerator.py:92-106 | the paragraph's words are the walk from `^` and the initial word, drawn from (`^`, `^`) when it is absent or empty; they are at most fuel words, and from a given initial word they are empty exactly when that word is `$` |
| MarkovGenerator.ParagraphShape | markovgenerator.py:95-107 | a given initial word starts the paragraph, and `$` as initial word gives ""; without one, the first word is a candidate of (`^`, `^`); no word is `$`; the second word is a candidate of (`^`, first word) and each later word a candidate of the two before it |
| MarkovGenerator.ParagraphWithoutBegin | markovgenerator.py:95-104 | over tables whose lists never hold `^`, no word after the first is `^`, nor the first when it was drawn |
| MarkovGenerator.Markov.GenerateParagraph | markovgenerator.py:92-107 | the counts are unchanged; the list table keeps every entry it had and gains only empty lists for unseen contexts, so every candidate list is the same; the result is the space-joined walk the sampler gives from the initial word (drawn from (`^`, `^`) when it is absent or empty), with the draws it takes, the sampler picking with line 88's `>=`; or None when the fuel runs out first |

## Left out

- File reading and the generator protocol of `read` (lines 15-16). The corpus is a sequence of lines passed to `GenerateMatrix`.
- Python's full Unicode `lower()` and `split()`. The source is Python 2 on byte strings, so lower-casing and whitespace are the ASCII ones. `strip()` is not modelled separately because `split()` already drops surrounding whitespace.
- The distribution of `numpy.random.randint` (line 86). Draws come from a fixed stream, and the only assumption is that each draw stays below its bound.
- `markovIt`, the `TWEETING` switch, printing, the retry below 120 characters and the Twitter client (lines 110-133). These are output code and an external service.
- The `__main__` call to an undefined `main()` (lines 136-137).
- Calling the sampler or generator on a `Markov` object that was never trained. In Python that fails because the tables do not exist; here the constructor starts with empty tables.
- The `KeyError` of line 78 for a candidate missing from the count table. The methods require consistent tables, under which it cannot happen (`Tables.TablesConsistent`).
- MarkovGenerator.Markov.GenerateParagraph: the loop is bounded by a fuel argument, and the method gives None when the walk needs more steps. The source loop has no bound and may not terminate.
- MarkovGenerator.Sample: it is total. For a draw that picks no candidate it gives `$`, a case that consistent tables and a bounded stream rule out (`MarkovGenerator.SamplePicksCandidate`).

## Findings

| source | as written | input that shows it | evidently intended | confidence | as-written member | corrected member |
|---|---|---|---|---|---|---|
| markovgenerator.py:86-88 | `coin` is drawn from [0, total) and the scan returns the first candidate with `cumcount >= coin`. So the first candidate also wins draw 0, and the last candidate loses the draw equal to the total, which never comes. | Counts 9 and 1 (cumulative 9, 10): all ten draws 0..9 pick the first candidate, so the second, seen once in ten, is never generated. Counts 1 and 1: both draws pick the first candidate. | Each candidate is chosen by exactly as many draws as its count: the first cumulative count strictly above the draw. | not executed | Sampling.ChooseWeightedAsWritten, Sampling.ChosenIntervalAsWritten, MarkovGenerator.ChoiceInterval, Sampling.BoundaryDraw | Sampling.ChooseWeighted, Sampling.ChosenInterval |

The class follows the program as written: `MarkovGenerator.Markov.NextWord`
calls `Sampling.ChooseWeightedAsWritten`. The corrected scan and its exact
draw intervals stand beside it in `Sampling`. Using the corrected scan in
the class means four changes:

- `FirstAbove` for `FirstAtLeast` in `MarkovGenerator.Choice`;
- the same in `MarkovGenerator.SampleIs`;
- `Sampling.ChooseWeighted` for `Sampling.ChooseWeightedAsWritten` in
  `MarkovGenerator.Markov.NextWord`;
- `MarkovGenerator.ChoiceInterval` restated with `Sampling.ChosenInterval`,
  so that it gives the interval [Sum(W[..i]), Sum(W[..i+1])).

`MarkovGenerator.ChoiceInterval` is then a corrected member rather than an
as-written one. The rest of the model verifies unchanged.
