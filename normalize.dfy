/** Turning a document's text into the (stem, position) pairs the indexes are
    built from: lower-casing, tokenising on whole alphabetic words, dropping
    stop words and stemming the rest. */
module Normalize {
  import opened Text
  import opened Sorting

  /** The two things the preprocessing depends on besides the text: the stop
      words read at start-up and the stemmer, whose rules are not modelled. */
  datatype Normalizer = Normalizer(stopWords: set<string>, stem: string -> string)

  /** One preprocessed token: its stem and its index among all tokens of the text. */
  datatype Occurrence = Occurrence(term: string, pos: nat)

  predicate AllLetters(w: string) {
    forall c :: c in w ==> IsLetter(c)
  }

  /** A token as the tokenizer yields it: a non-empty run of lower-case ASCII letters. */
  predicate IsToken(w: string) {
    |w| > 0 && forall c :: c in w ==> 'a' <= c <= 'z'
  }

  /** The word-character runs that are made of letters only, in order. */
  function LetterRuns(chunks: seq<string>): (r: seq<string>)
    ensures forall k :: 0 <= k < |r| ==> r[k] in chunks && AllLetters(r[k])
    ensures forall w :: w in chunks && AllLetters(w) ==> w in r
  {
    if chunks == [] then []
    else
      var rest := LetterRuns(chunks[1..]);
      assert forall w :: w in chunks ==> w == chunks[0] || w in chunks[1..];
      if AllLetters(chunks[0]) then [chunks[0]] + rest else rest
  }

  lemma LowerHasNoUpper(s: string)
    ensures forall c :: c in Lower(s) ==> !IsUpper(c)
  {
    forall c | c in Lower(s) ensures !IsUpper(c) {
      var i :| 0 <= i < |Lower(s)| && Lower(s)[i] == c;
    }
  }

  /** The matches of `\b[a-zA-Z]+\b` in the lower-cased text: a match is a maximal
      run of word characters (letters, digits, `_`) that holds letters only. */
  function Tokens(text: string): (r: seq<string>)
    ensures forall k :: 0 <= k < |r| ==> IsToken(r[k])
  {
    var s := Lower(text);
    LowerHasNoUpper(s);
    LowerHasNoUpper(text);
    RunsFacts(s, IsWordChar);
    LetterRuns(Runs(s, IsWordChar))
  }

  /** The filter keeps the chunks' order and repeats: it works chunk by chunk. */
  lemma {:induction false} LetterRunsAppend(x: seq<string>, y: seq<string>)
    ensures LetterRuns(x + y) == LetterRuns(x) + LetterRuns(y)
    decreases |x|
  {
    if x == [] {
      assert x + y == y;
    } else {
      assert (x + y)[1..] == x[1..] + y;
      LetterRunsAppend(x[1..], y);
    }
  }

  /** One chunk is kept exactly when it is made of letters only. */
  lemma LetterRunsSingle(w: string)
    ensures LetterRuns([w]) == if AllLetters(w) then [w] else []
  {
    assert [w][1..] == [];
  }

  /** The four lemmas below determine `Tokens` on every text: a non-word
      character separates the tokens before it from those after it, and a
      run of word characters is one token when it is letters only and none
      otherwise. */
  lemma TokensSplit(a: string, c: char, b: string)
    requires !IsWordChar(c)
    ensures Tokens(a + [c] + b) == Tokens(a) + Tokens(b)
  {
    LowerAppend(a + [c], b);
    LowerAppend(a, [c]);
    assert Lower([c]) == [LowerChar(c)];
    RunsSplit(Lower(a), LowerChar(c), Lower(b), IsWordChar);
    LetterRunsAppend(Runs(Lower(a), IsWordChar), Runs(Lower(b), IsWordChar));
  }

  lemma TokensEmpty()
    ensures Tokens([]) == []
  {
  }

  /** A word of letters only is one token, its lower-cased form. */
  lemma TokensOfWord(w: string)
    requires |w| > 0 && forall c :: c in w ==> IsLetter(c)
    ensures Tokens(w) == [Lower(w)]
  {
    var s := Lower(w);
    assert forall k :: 0 <= k < |s| ==> IsWordChar(s[k]) by {
      forall k | 0 <= k < |s| ensures IsWordChar(s[k]) {
        assert w[k] in w;
      }
    }
    RunsWhole(s, IsWordChar);
    assert AllLetters(s) by {
      forall c | c in s ensures IsLetter(c) {
        var k :| 0 <= k < |s| && s[k] == c;
        assert w[k] in w;
      }
    }
    LetterRunsSingle(s);
  }

  /** A run of word characters holding a digit or `_` gives no token:
      `\b` does not fall inside it. */
  lemma TokensOfMixed(w: string, k: nat)
    requires (forall c :: c in w ==> IsWordChar(c)) && k < |w| && !IsLetter(w[k])
    ensures Tokens(w) == []
  {
    var s := Lower(w);
    assert forall x :: 0 <= x < |s| ==> IsWordChar(s[x]) by {
      forall x | 0 <= x < |s| ensures IsWordChar(s[x]) {
        assert w[x] in w;
      }
    }
    RunsWhole(s, IsWordChar);
    assert s[k] in s && !IsLetter(s[k]);
    LetterRunsSingle(s);
  }

  /** The pairs kept from the first `n` tokens, in token order. Positions count
      every token, so a dropped stop word still uses up its position. */
  function KeptUpTo(nz: Normalizer, toks: seq<string>, n: nat): seq<Occurrence>
    requires n <= |toks|
  {
    if n == 0 then []
    else
      var r := KeptUpTo(nz, toks, n - 1);
      if toks[n - 1] in nz.stopWords then r else r + [Occurrence(nz.stem(toks[n - 1]), n - 1)]
  }

  /** The kept pairs have increasing positions below `n`, each names a token
      that is not a stop word and carries its stem, and every such token among
      the first `n` gives a pair. */
  lemma {:induction false} KeptUpToFacts(nz: Normalizer, toks: seq<string>, n: nat)
    requires n <= |toks|
    ensures var r := KeptUpTo(nz, toks, n);
      (forall k :: 0 <= k < |r| ==> r[k].pos < n) &&
      (forall k, l :: 0 <= k < l < |r| ==> r[k].pos < r[l].pos) &&
      (forall k :: 0 <= k < |r| ==> toks[r[k].pos] !in nz.stopWords && r[k].term == nz.stem(toks[r[k].pos])) &&
      (forall p :: 0 <= p < n && toks[p] !in nz.stopWords ==> exists k :: 0 <= k < |r| && r[k].pos == p)
  {
    if n > 0 {
      KeptUpToFacts(nz, toks, n - 1);
      var r := KeptUpTo(nz, toks, n - 1);
      if toks[n - 1] !in nz.stopWords {
        var r' := r + [Occurrence(nz.stem(toks[n - 1]), n - 1)];
        assert r'[|r|].pos == n - 1;
        assert forall k :: 0 <= k < |r| ==> r'[k] == r[k];
      }
    }
  }

  /** One more token: kept, as its stem at its position, unless it is a stop word. */
  lemma KeptStep(nz: Normalizer, toks: seq<string>, n: nat)
    requires n < |toks|
    ensures KeptUpTo(nz, toks, n + 1) ==
      KeptUpTo(nz, toks, n) + (if toks[n] in nz.stopWords then [] else [Occurrence(nz.stem(toks[n]), n)])
  {
  }

  /** What the preprocessing of `text` yields: positions strictly increase, each
      pair names a token that is not a stop word and carries that token's stem,
      and every token that is not a stop word gives a pair. */
  function Preprocess(nz: Normalizer, text: string): (r: seq<Occurrence>)
    ensures var toks := Tokens(text);
      (forall k, l :: 0 <= k < l < |r| ==> r[k].pos < r[l].pos) &&
      (forall k :: 0 <= k < |r| ==>
        (r[k].pos < |toks| && toks[r[k].pos] !in nz.stopWords && r[k].term == nz.stem(toks[r[k].pos]))) &&
      (forall p :: 0 <= p < |toks| && toks[p] !in nz.stopWords ==>
        exists k :: 0 <= k < |r| && r[k].pos == p)
  {
    var toks := Tokens(text);
    KeptUpToFacts(nz, toks, |toks|);
    KeptUpTo(nz, toks, |toks|)
  }

  /** The set of stems a preprocessed text contains: `terms_in_doc`. */
  function Stems(occs: seq<Occurrence>): set<string> {
    if occs == [] then {}
    else Stems(occs[..|occs| - 1]) + {occs[|occs| - 1].term}
  }

  /** A stem is in the set exactly when some pair carries it. */
  lemma {:induction false} StemsMembers(occs: seq<Occurrence>)
    ensures forall t :: t in Stems(occs) <==> exists k :: 0 <= k < |occs| && occs[k].term == t
  {
    if occs != [] {
      var front := occs[..|occs| - 1];
      StemsMembers(front);
      assert forall k :: 0 <= k < |front| ==> front[k] == occs[k];
    }
  }

  /** The positions at which stem `t` occurs, in order; empty exactly when `t`
      is not among the stems. */
  function PositionsOf(t: string, occs: seq<Occurrence>): (r: seq<int>)
    ensures |r| > 0 <==> t in Stems(occs)
  {
    if occs == [] then []
    else
      var last := occs[|occs| - 1];
      PositionsOf(t, occs[..|occs| - 1]) + (if last.term == t then [last.pos] else [])
  }

  /** A position is listed for `t` exactly when some pair carries `t` at that position. */
  lemma {:induction false} PositionsOfMembers(t: string, occs: seq<Occurrence>)
    ensures forall p :: p in PositionsOf(t, occs) <==>
      exists k :: 0 <= k < |occs| && occs[k].term == t && occs[k].pos == p
  {
    if occs != [] {
      var front := occs[..|occs| - 1];
      PositionsOfMembers(t, front);
      assert forall k :: 0 <= k < |front| ==> front[k] == occs[k];
    }
  }

  predicate PositionsIncrease(occs: seq<Occurrence>) {
    forall k, l :: 0 <= k < l < |occs| ==> occs[k].pos < occs[l].pos
  }

  /** Positions listed in text order are strictly increasing for every stem. */
  lemma {:induction false} PositionsOfIncreasing(t: string, occs: seq<Occurrence>)
    requires PositionsIncrease(occs)
    ensures Increasing(PositionsOf(t, occs))
  {
    if occs != [] {
      var last := occs[|occs| - 1];
      var front := occs[..|occs| - 1];
      assert PositionsIncrease(front);
      PositionsOfIncreasing(t, front);
      PositionsOfMembers(t, front);
      var r := PositionsOf(t, front);
      forall p | p in r ensures p < last.pos {
        var k :| 0 <= k < |front| && front[k].term == t && front[k].pos == p;
      }
      assert forall i :: 0 <= i < |r| ==> r[i] in r;
    }
  }
}
