/** The noun filter `extract_words` of src/main.py: the morphological analyser is
    outside the model; its output is the token sequence given to the filter. */
module NounFilter {

  /** One item the analyser yields: a full token with its surface form and its
      comma-separated part-of-speech string, or a bare surface string (the
      analyser's word-splitting mode), which is not a `Token` instance. */
  datatype Token = Token(surface: string, partOfSpeech: string) | Bare(surface: string)

  /** The part-of-speech class kept by the filter: "noun". */
  const NOUN: string := "名詞"

  /** The first field of a comma-separated string, as `pos.split(",")[0]`:
      the longest prefix without a comma. */
  function FirstField(pos: string): (f: string)
    ensures f <= pos
    ensures ',' !in f
    ensures |f| < |pos| ==> pos[|f|] == ','
  {
    if pos == [] || pos[0] == ',' then [] else [pos[0]] + FirstField(pos[1..])
  }

  /** The test of the filter: a `Token` whose first part-of-speech field is `NOUN`. */
  predicate IsNoun(t: Token)
  {
    t.Token? && FirstField(t.partOfSpeech) == NOUN
  }

  /** Specification of the filter: the surfaces of the noun tokens, in input order. */
  function Nouns(tokens: seq<Token>): seq<string>
  {
    if tokens == [] then []
    else
      var last := tokens[|tokens| - 1];
      Nouns(tokens[..|tokens| - 1]) + (if IsNoun(last) then [last.surface] else [])
  }

  /** Positions of the noun tokens, in increasing order. */
  ghost function NounPositions(tokens: seq<Token>): (ps: seq<nat>)
    ensures forall k :: 0 <= k < |ps| ==> ps[k] < |tokens| && IsNoun(tokens[ps[k]])
    ensures forall k, l :: 0 <= k < l < |ps| ==> ps[k] < ps[l]
    ensures forall i :: 0 <= i < |tokens| && IsNoun(tokens[i]) ==> i in ps
  {
    if tokens == [] then []
    else
      var n := |tokens| - 1;
      NounPositions(tokens[..n]) + (if IsNoun(tokens[n]) then [n] else [])
  }

  /** `extract_words`: walks the tokens and appends the surface of each noun. */
  method ExtractWords(tokens: seq<Token>) returns (words: seq<string>)
    ensures words == Nouns(tokens)
  {
    words := [];
    for i := 0 to |tokens|
      invariant words == Nouns(tokens[..i])
    {
      var token := tokens[i];
      assert tokens[..i + 1][..i] == tokens[..i];
      if IsNoun(token) {
        words := words + [token.surface];
      }
    }
    assert tokens[..|tokens|] == tokens;
  }

  /** The filter keeps exactly the surfaces of the noun tokens, in input order:
      the k-th word is the surface of the k-th noun token. */
  lemma {:induction false} NounsAreNounSurfacesInOrder(tokens: seq<Token>)
    ensures |Nouns(tokens)| == |NounPositions(tokens)|
    ensures forall k :: 0 <= k < |Nouns(tokens)| ==>
      Nouns(tokens)[k] == tokens[NounPositions(tokens)[k]].surface
  {
    if tokens != [] {
      var n := |tokens| - 1;
      NounsAreNounSurfacesInOrder(tokens[..n]);
    }
  }

  /** The filter never yields more words than it is given tokens. */
  lemma {:induction false} NounsLength(tokens: seq<Token>)
    ensures |Nouns(tokens)| <= |tokens|
  {
    if tokens != [] {
      NounsLength(tokens[..|tokens| - 1]);
    }
  }

  /** Filtering a concatenation filters each part and keeps them in order. */
  lemma {:induction false} NounsAppend(a: seq<Token>, b: seq<Token>)
    ensures Nouns(a + b) == Nouns(a) + Nouns(b)
  {
    if b == [] {
      assert a + b == a;
    } else {
      var n := |b| - 1;
      assert (a + b)[..|a + b| - 1] == a + b[..n];
      NounsAppend(a, b[..n]);
    }
  }

  /** A word is kept exactly when some noun token has it as surface. */
  lemma NounsMembership(tokens: seq<Token>, w: string)
    ensures w in Nouns(tokens) <==>
      exists i :: 0 <= i < |tokens| && IsNoun(tokens[i]) && tokens[i].surface == w
  {
    NounsAreNounSurfacesInOrder(tokens);
    var ps := NounPositions(tokens);
    if w in Nouns(tokens) {
      var k :| 0 <= k < |Nouns(tokens)| && Nouns(tokens)[k] == w;
      assert IsNoun(tokens[ps[k]]) && tokens[ps[k]].surface == w;
    }
    if exists i :: 0 <= i < |tokens| && IsNoun(tokens[i]) && tokens[i].surface == w {
      var i :| 0 <= i < |tokens| && IsNoun(tokens[i]) && tokens[i].surface == w;
      var k :| 0 <= k < |ps| && ps[k] == i;
      assert Nouns(tokens)[k] == w;
    }
  }
}
