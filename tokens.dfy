/**
 * The tokenizer: one line of training text becomes the words of the line
 * between two begin markers and one end marker.  markovgenerator.py runs
 * on Python 2 byte strings, so lower-casing and whitespace are the ASCII ones.
 */
module Tokens {
  type Word = string

  /** The begin marker, put twice in front of every line. */
  const Begin: Word := "^"
  /** The end marker, put once after every line and returned by an unseen context. */
  const End: Word := "$"

  /** Space, tab, line feed, vertical tab, form feed and carriage return. */
  predicate IsSpace(c: char) {
    c == ' ' || '\t' <= c <= '\r'
  }

  predicate IsUpper(c: char) {
    'A' <= c <= 'Z'
  }

  function LowerChar(c: char): (r: char)
    ensures !IsUpper(r)
    ensures IsUpper(c) ==> r as int == c as int + 32
    ensures IsSpace(r) <==> IsSpace(c)
    ensures !IsUpper(c) ==> r == c
  {
    if IsUpper(c) then (c as int + 32) as char else c
  }

  /** ASCII lower-casing of a whole line. */
  function Lower(s: string): (r: string)
    ensures |r| == |s|
    ensures forall i :: 0 <= i < |s| ==> r[i] == LowerChar(s[i])
  {
    if s == [] then [] else [LowerChar(s[0])] + Lower(s[1..])
  }

  predicate NoSpace(w: string) {
    forall i :: 0 <= i < |w| ==> !IsSpace(w[i])
  }

  /** A word as splitting produces it: not empty, no whitespace in it. */
  predicate IsWord(w: string) {
    w != [] && NoSpace(w)
  }

  /** Length of the run of non-whitespace characters at the start of s. */
  function WordLength(s: string): (n: nat)
    ensures n <= |s|
    ensures NoSpace(s[..n])
    ensures n < |s| ==> IsSpace(s[n])
  {
    if s == [] || IsSpace(s[0]) then 0 else 1 + WordLength(s[1..])
  }

  /** Splitting on runs of whitespace; leading and trailing whitespace give no words. */
  function Split(s: string): (r: seq<Word>)
    ensures forall i :: 0 <= i < |r| ==> IsWord(r[i])
    decreases |s|
  {
    if s == [] then []
    else if IsSpace(s[0]) then Split(s[1..])
    else
      var n := WordLength(s);
      [s[..n]] + Split(s[n..])
  }

  /** Joining words with one space between neighbours. */
  function Join(ws: seq<Word>): string {
    if ws == [] then ""
    else if |ws| == 1 then ws[0]
    else ws[0] + " " + Join(ws[1..])
  }

  lemma {:induction false} WordLengthOfWord(w: string, rest: string)
    requires NoSpace(w)
    requires rest == [] || IsSpace(rest[0])
    ensures WordLength(w + rest) == |w|
    decreases |w|
  {
    if w != [] {
      assert (w + rest)[1..] == w[1..] + rest;
      WordLengthOfWord(w[1..], rest);
    }
  }

  /** Splitting undoes joining, for words that splitting could have produced. */
  lemma {:induction false} SplitJoin(ws: seq<Word>)
    requires forall i :: 0 <= i < |ws| ==> IsWord(ws[i])
    ensures Split(Join(ws)) == ws
  {
    if |ws| == 1 {
      var w := ws[0];
      assert w + [] == w;
      WordLengthOfWord(w, []);
      assert w[..|w|] == w;
      assert w[|w|..] == [];
    } else if |ws| > 1 {
      var w, rest := ws[0], Join(ws[1..]);
      var s := w + " " + rest;
      assert s == w + (" " + rest);
      WordLengthOfWord(w, " " + rest);
      assert s[..|w|] == w;
      assert s[|w|..] == " " + rest;
      assert (" " + rest)[1..] == rest;
      SplitJoin(ws[1..]);
      assert Split(s) == [w] + Split(" " + rest);
    }
  }

  /** Every character of every word of Split(s) is a character of s. */
  lemma {:induction false} SplitKeepsChars(s: string, i: nat, j: nat)
    requires i < |Split(s)| && j < |Split(s)[i]|
    ensures Split(s)[i][j] in s
    decreases |s|
  {
    if IsSpace(s[0]) {
      SplitKeepsChars(s[1..], i, j);
    } else {
      var n := WordLength(s);
      if i == 0 {
        assert Split(s)[0] == s[..n];
      } else {
        assert Split(s)[i] == Split(s[n..])[i - 1];
        SplitKeepsChars(s[n..], i - 1, j);
      }
    }
  }

  /** The characters of s that are not whitespace, in order. */
  function NonSpace(s: string): (r: string)
    ensures NoSpace(r)
  {
    if s == [] then []
    else if IsSpace(s[0]) then NonSpace(s[1..])
    else [s[0]] + NonSpace(s[1..])
  }

  /** The words run together, with nothing between them. */
  function Concat(ws: seq<Word>): string {
    if ws == [] then [] else ws[0] + Concat(ws[1..])
  }

  lemma {:induction false} NonSpaceAppend(w: string, rest: string)
    requires NoSpace(w)
    ensures NonSpace(w + rest) == w + NonSpace(rest)
    decreases |w|
  {
    if w != [] {
      assert (w + rest)[1..] == w[1..] + rest;
      NonSpaceAppend(w[1..], rest);
      assert w == [w[0]] + w[1..];
    } else {
      assert w + rest == rest;
    }
  }

  /**
   * Splitting loses no text and adds none: the words, run together, are
   * exactly the characters of the line that are not whitespace, in order.
   */
  lemma {:induction false} SplitKeepsText(s: string)
    ensures Concat(Split(s)) == NonSpace(s)
    decreases |s|
  {
    if s != [] {
      if IsSpace(s[0]) {
        SplitKeepsText(s[1..]);
      } else {
        var n := WordLength(s);
        var ws := Split(s);
        assert ws == [s[..n]] + Split(s[n..]);
        assert ws[0] == s[..n] && ws[1..] == Split(s[n..]);
        SplitKeepsText(s[n..]);
        assert s == s[..n] + s[n..];
        NonSpaceAppend(s[..n], s[n..]);
      }
    }
  }

  /**
   * The line read left to right with the whitespace before the first word
   * and after the last dropped, and every run between two words turned into
   * one space.  started: a word has been emitted; gap: whitespace has been
   * seen since the last word.
   */
  function SqueezeFrom(s: string, started: bool, gap: bool): string
    decreases |s|
  {
    if s == [] then ""
    else if IsSpace(s[0]) then SqueezeFrom(s[1..], started, started)
    else (if gap then " " else "") + [s[0]] + SqueezeFrom(s[1..], true, false)
  }

  /** s trimmed, with each inner run of whitespace turned into one space. */
  function Squeeze(s: string): string {
    SqueezeFrom(s, false, false)
  }

  lemma JoinCons(w: Word, ws: seq<Word>)
    ensures Join([w] + ws) == w + (if ws == [] then "" else " " + Join(ws))
  {
    assert ([w] + ws)[1..] == ws;
  }

  lemma {:induction false} SqueezeWord(w: string, rest: string)
    requires NoSpace(w)
    ensures SqueezeFrom(w + rest, true, false) == w + SqueezeFrom(rest, true, false)
    decreases |w|
  {
    if w == [] {
      assert w + rest == rest;
    } else {
      assert (w + rest)[1..] == w[1..] + rest;
      SqueezeWord(w[1..], rest);
      assert w == [w[0]] + w[1..];
    }
  }

  /** What follows a word in the joined line: nothing at the end, else one space and the joined words. */
  function AfterWord(s: string): string {
    if Split(s) == [] then "" else " " + Join(Split(s))
  }

  /** The joined line is its first word and what follows it. */
  lemma SplitHead(s: string)
    requires s != [] && !IsSpace(s[0])
    ensures Join(Split(s)) == s[..WordLength(s)] + AfterWord(s[WordLength(s)..])
  {
    var n := WordLength(s);
    var w, ws := s[..n], Split(s[n..]);
    assert Split(s) == [w] + ws;
    JoinCons(w, ws);
  }

  /** After a word, with whitespace seen since, the squeeze is what follows a word. */
  lemma {:induction false} SqueezeAfterGap(s: string)
    ensures SqueezeFrom(s, true, true) == AfterWord(s)
    decreases |s|, 1
  {
    if s != [] {
      if IsSpace(s[0]) {
        SqueezeAfterGap(s[1..]);
      } else {
        var tail := SqueezeFrom(s[1..], true, false);
        assert SqueezeFrom(s, true, true) == " " + [s[0]] + tail;
        assert SqueezeFrom(s, true, false) == "" + [s[0]] + tail;
        SqueezeMidWord(s);
        assert Split(s) != [];
      }
    }
  }

  /** At the start of a word, the squeeze continues as the joined words. */
  lemma {:induction false} SqueezeMidWord(s: string)
    requires s != [] && !IsSpace(s[0])
    ensures SqueezeFrom(s, true, false) == Join(Split(s))
    decreases |s|, 0
  {
    var n := WordLength(s);
    SplitHead(s);
    var rest := s[n..];
    assert s == s[..n] + rest;
    SqueezeWord(s[..n], rest);
    if rest != [] {
      assert rest[0] == s[n];
      SqueezeAfterGap(rest[1..]);
      assert Split(rest) == Split(rest[1..]);
    }
  }

  /**
   * Splitting cuts exactly at the runs of whitespace: joining the words of a
   * line with single spaces gives the line trimmed, with every inner run of
   * whitespace turned into one space.
   */
  lemma {:induction false} JoinSplitSqueezes(s: string)
    ensures Join(Split(s)) == Squeeze(s)
    decreases |s|
  {
    if s != [] {
      if IsSpace(s[0]) {
        JoinSplitSqueezes(s[1..]);
      } else {
        SqueezeMidWord(s);
      }
    }
  }

  /** Joining the words of a line with single spaces and splitting again gives the same words. */
  lemma SplitJoinSplit(s: string)
    ensures Split(Join(Split(s))) == Split(s)
  {
    SplitJoin(Split(s));
  }

  /** Line 17: the tokens of one line of training text. */
  function Tokenize(line: string): (t: seq<Word>)
    ensures |t| >= 3 && t[..2] == [Begin, Begin] && t[|t| - 1] == End
    ensures Concat(t[2..|t| - 1]) == NonSpace(Lower(line))
  {
    var words := Split(Lower(line));
    SplitKeepsText(Lower(line));
    var t := [Begin, Begin] + words + [End];
    assert t[2..|t| - 1] == words;
    t
  }

  /**
   * A tokenized line is two begin markers, the line's words and the end
   * marker; so it has three tokens more than the line has words, and never
   * fewer than three.  Every word between the markers is non-empty, holds
   * no whitespace and no upper-case letter.
   */
  lemma TokenizeShape(line: string)
    ensures var t, words := Tokenize(line), Split(Lower(line));
      && |t| == |words| + 3 >= 3
      && t[0] == Begin && t[1] == Begin && t[|t| - 1] == End
      && t[2..|t| - 1] == words
      && (forall i :: 2 <= i < |t| - 1 ==> IsWord(t[i]))
      && (forall i, j :: 2 <= i < |t| - 1 && 0 <= j < |t[i]| ==> !IsUpper(t[i][j]))
  {
    var t, low := Tokenize(line), Lower(line);
    var words := Split(low);
    assert t[2..|t| - 1] == words;
    forall i, j | 2 <= i < |t| - 1 && 0 <= j < |t[i]|
      ensures !IsUpper(t[i][j])
    {
      assert t[i] == words[i - 2];
      SplitKeepsChars(low, i - 2, j);
      var c := t[i][j];
      var p :| 0 <= p < |low| && low[p] == c;
      assert low[p] == LowerChar(line[p]);
    }
  }

  /**
   * The markers occur only where the tokenizer puts them exactly when the
   * line itself has no word equal to a marker: the end marker is last, and
   * the begin markers are the first two tokens.
   */
  lemma SentinelsOnlyAtEnds(line: string)
    ensures var t, words := Tokenize(line), Split(Lower(line));
      && (End in t[..|t| - 1] <==> End in words)
      && (Begin in t[2..] <==> Begin in words)
  {
    var t, words := Tokenize(line), Split(Lower(line));
    assert t[..|t| - 1] == [Begin, Begin] + words;
    assert t[2..] == words + [End];
  }
}
