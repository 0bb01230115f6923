/** `normalize_name` of app/pantry/service.py: the one rule for "the same item". */
module Names {

  /** What Python knows of characters: which are whitespace, and what each case-folds to. */
  datatype Script = Script(space: char -> bool, fold: char -> string) {

    /** Folding is stable, never erases a letter and never makes whitespace; a space is one. */
    ghost predicate Lawful() {
      && space(' ') && fold(' ') == " "
      && forall c | !space(c) ::
           fold(c) != "" && forall d | d in fold(c) :: !space(d) && fold(d) == [d]
    }

    /** The number of characters before the first whitespace. */
    function WordLength(s: string): (n: nat)
      ensures n <= |s|
      ensures forall i | 0 <= i < n :: !space(s[i])
      ensures n < |s| ==> space(s[n])
    {
      if s == "" || space(s[0]) then 0 else 1 + WordLength(s[1..])
    }

    /** `s.split()`. */
    function Words(s: string): seq<string>
      decreases |s|
    {
      if s == "" then []
      else if space(s[0]) then Words(s[1..])
      else [s[..WordLength(s)]] + Words(s[WordLength(s)..])
    }

    /** `s.casefold()`. */
    function Fold(s: string): string {
      if s == "" then "" else fold(s[0]) + Fold(s[1..])
    }

    function FoldEach(words: seq<string>): seq<string> {
      seq(|words|, i requires 0 <= i < |words| => Fold(words[i]))
    }

    function NormalizeName(raw: string): string {
      Fold(Join(Words(raw)))
    }

    ghost predicate Word(w: string) {
      w != "" && forall c | c in w :: !space(c)
    }

    ghost predicate AreWords(words: seq<string>) {
      forall i | 0 <= i < |words| :: Word(words[i])
    }
  }

  /** `" ".join(words)`. */
  function Join(words: seq<string>): string {
    if words == [] then "" else if |words| == 1 then words[0] else words[0] + " " + Join(words[1..])
  }

  lemma {:induction false} WordsAreWords(u: Script, s: string)
    ensures u.AreWords(u.Words(s))
    decreases |s|
  {
    if s != "" {
      if u.space(s[0]) {
        WordsAreWords(u, s[1..]);
      } else {
        WordsAreWords(u, s[u.WordLength(s)..]);
      }
    }
  }

  lemma {:induction false} WordLengthOfPrefix(u: Script, w: string, rest: string)
    requires u.Word(w) && (rest == "" || u.space(rest[0]))
    ensures u.WordLength(w + rest) == |w|
  {
    assert (w + rest)[1..] == w[1..] + rest;
    if |w| > 1 {
      WordLengthOfPrefix(u, w[1..], rest);
    } else {
      assert w[1..] + rest == rest;
    }
  }

  /** Splitting a joined list of words gives the words back. */
  lemma {:induction false} SplitJoin(u: Script, words: seq<string>)
    requires u.space(' ') && u.AreWords(words)
    ensures u.Words(Join(words)) == words
  {
    if words != [] {
      var w, tail := words[0], words[1..];
      var rest := if tail == [] then "" else " " + Join(tail);
      assert Join(words) == w + rest;
      WordLengthOfPrefix(u, w, rest);
      assert (w + rest)[..|w|] == w && (w + rest)[|w|..] == rest;
      SplitJoin(u, tail);
      if tail != [] {
        assert rest[1..] == Join(tail);
      }
      assert words == [w] + tail;
    }
  }

  lemma {:induction false} FoldConcat(u: Script, a: string, b: string)
    ensures u.Fold(a + b) == u.Fold(a) + u.Fold(b)
  {
    if a == "" {
      assert a + b == b;
    } else {
      assert (a + b)[1..] == a[1..] + b;
      FoldConcat(u, a[1..], b);
    }
  }

  lemma {:induction false} FoldJoin(u: Script, words: seq<string>)
    requires u.Lawful()
    ensures u.Fold(Join(words)) == Join(u.FoldEach(words))
  {
    if |words| > 1 {
      FoldJoin(u, words[1..]);
      FoldConcat(u, words[0], " " + Join(words[1..]));
      FoldConcat(u, " ", Join(words[1..]));
      assert u.Fold(" ") == " " by {
        assert u.Fold("") == "";
      }
      assert words[0] + " " + Join(words[1..]) == words[0] + (" " + Join(words[1..]));
      assert u.FoldEach(words)[1..] == u.FoldEach(words[1..]);
    }
  }

  /** Folding a word gives a word, which folding again does not change. */
  lemma {:induction false} FoldStable(u: Script, w: string)
    requires u.Lawful() && forall c | c in w :: !u.space(c)
    ensures forall d | d in u.Fold(w) :: !u.space(d) && u.fold(d) == [d]
    ensures w != "" ==> u.Fold(w) != ""
  {
    if w != "" {
      assert w[0] in w && forall c | c in w[1..] :: c in w;
      FoldStable(u, w[1..]);
    }
  }

  lemma {:induction false} FoldFixed(u: Script, w: string)
    requires forall d | d in w :: u.fold(d) == [d]
    ensures u.Fold(w) == w
  {
    if w != "" {
      assert w[0] in w && forall c | c in w[1..] :: c in w;
      FoldFixed(u, w[1..]);
      assert w == [w[0]] + w[1..];
    }
  }

  lemma {:induction false} FoldEachWords(u: Script, words: seq<string>)
    requires u.Lawful() && u.AreWords(words)
    ensures u.AreWords(u.FoldEach(words)) && u.FoldEach(u.FoldEach(words)) == u.FoldEach(words)
  {
    forall i | 0 <= i < |words|
      ensures u.Word(u.Fold(words[i])) && u.Fold(u.Fold(words[i])) == u.Fold(words[i])
    {
      FoldStable(u, words[i]);
      FoldFixed(u, u.Fold(words[i]));
    }
  }

  /** A normalized name reads back as exactly the folded words of the name it came from. */
  lemma {:induction false} WordsOfNormalized(u: Script, raw: string)
    requires u.Lawful()
    ensures u.Words(u.NormalizeName(raw)) == u.FoldEach(u.Words(raw))
  {
    WordsAreWords(u, raw);
    FoldJoin(u, u.Words(raw));
    FoldEachWords(u, u.Words(raw));
    SplitJoin(u, u.FoldEach(u.Words(raw)));
  }

  lemma {:induction false} NormalizeIdempotent(u: Script, raw: string)
    requires u.Lawful()
    ensures u.NormalizeName(u.NormalizeName(raw)) == u.NormalizeName(raw)
  {
    WordsOfNormalized(u, raw);
    WordsAreWords(u, raw);
    FoldEachWords(u, u.Words(raw));
    FoldJoin(u, u.Words(raw));
    FoldJoin(u, u.FoldEach(u.Words(raw)));
  }

  /** Two names are the same item exactly when their words agree up to case. */
  lemma {:induction false} SameItemExactlySameWords(u: Script, a: string, b: string)
    requires u.Lawful()
    ensures u.NormalizeName(a) == u.NormalizeName(b) <==> u.FoldEach(u.Words(a)) == u.FoldEach(u.Words(b))
  {
    WordsOfNormalized(u, a);
    WordsOfNormalized(u, b);
    FoldJoin(u, u.Words(a));
    FoldJoin(u, u.Words(b));
  }

  lemma {:induction false} NoWordsIsBlank(u: Script, s: string)
    ensures u.Words(s) == [] <==> forall i | 0 <= i < |s| :: u.space(s[i])
    decreases |s|
  {
    if s != "" && u.space(s[0]) {
      NoWordsIsBlank(u, s[1..]);
      assert forall i | 0 < i < |s| :: s[i] == s[1..][i - 1];
      assert forall i | 0 <= i < |s| - 1 :: s[1..][i] == s[i + 1];
    }
  }

  /** The normalized form is empty exactly for a blank name. */
  lemma {:induction false} EmptyExactlyWhenBlank(u: Script, raw: string)
    requires u.Lawful()
    ensures u.NormalizeName(raw) == "" <==> forall i | 0 <= i < |raw| :: u.space(raw[i])
  {
    WordsOfNormalized(u, raw);
    NoWordsIsBlank(u, raw);
  }
}
