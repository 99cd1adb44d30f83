/**
 The filtering loop of `remove_stopwords_and_punctuation`. The NLP engine's
 tokenisation, lemmatisation and tagging are not modelled; a document is the
 sequence of token records the engine hands back.
 */
module TokenFilter {
  import opened Filtering

  /** One token of an analysed text, as the NLP engine reports it. */
  datatype Token = Token(text: string, lemmaText: string, isStop: bool, isPunct: bool, pos: string)

  /** The words the function marks as stopwords in the engine's vocabulary, besides its own list. */
  const ExtraStopwords: seq<string> :=
    ["hello", "yes", "left", "right", "like", "think", "want", "need", "cool", "okay", ""]

  /**
   The stop flag a token reads once the extra words are marked: the vocabulary
   entry is the one for the token's exact text.
   */
  predicate IsStop(t: Token) {
    t.isStop || t.text in ExtraStopwords
  }

  /** A token whose lemma is kept: no stopword, no punctuation, not tagged NUM or SYM. */
  predicate Relevant(t: Token) {
    !IsStop(t) && !t.isPunct && t.pos != "NUM" && t.pos != "SYM"
  }

  function LemmaOf(t: Token): string { t.lemmaText }

  /** The lemmas of the relevant tokens of `doc`, in document order. */
  function CleanLemmas(doc: seq<Token>): seq<string> {
    FilterMap(doc, Relevant, LemmaOf)
  }

  /** The loop of `remove_stopwords_and_punctuation` over the analysed text. */
  method RemoveStopwordsAndPunctuation(doc: seq<Token>) returns (filteredText: seq<string>)
    ensures filteredText == CleanLemmas(doc)
    ensures |filteredText| <= |doc|
  {
    filteredText := [];
    for i := 0 to |doc|
      invariant filteredText == FilterMap(doc[..i], Relevant, LemmaOf)
    {
      var word := doc[i];
      assert doc[..i + 1][..i] == doc[..i];
      if !IsStop(word) && !word.isPunct && word.pos != "NUM" && word.pos != "SYM" {
        filteredText := filteredText + [word.lemmaText];
      }
    }
    assert doc[..|doc|] == doc;
  }

  /**
   The output is exactly the lemmas of the relevant tokens: its j-th entry is
   the lemma of the j-th relevant token, and every relevant token has one.
   */
  lemma CleanLemmasExact(doc: seq<Token>)
    ensures var idx := KeptIndices(doc, Relevant);
      && |CleanLemmas(doc)| == |idx| <= |doc|
      && (forall j :: 0 <= j < |idx| ==> Relevant(doc[idx[j]]) && CleanLemmas(doc)[j] == doc[idx[j]].lemmaText)
      && (forall i :: 0 <= i < |doc| ==> (Relevant(doc[i]) <==> i in idx))
  {
    FilterMapAt(doc, Relevant, LemmaOf);
  }

  /** A stopword, punctuation, NUM or SYM token contributes nothing, wherever it stands. */
  lemma ExcludedTokenDropped(a: seq<Token>, t: Token, b: seq<Token>)
    requires !Relevant(t)
    ensures CleanLemmas(a + [t] + b) == CleanLemmas(a + b)
  {
    FilterMapAppend(a + [t], b, Relevant, LemmaOf);
    FilterMapAppend(a, [t], Relevant, LemmaOf);
    FilterMapAppend(a, b, Relevant, LemmaOf);
    assert [t][..0] == [];
  }

  /** Any other token contributes its lemma, at its own place. */
  lemma RelevantTokenKept(a: seq<Token>, t: Token, b: seq<Token>)
    requires Relevant(t)
    ensures CleanLemmas(a + [t] + b) == CleanLemmas(a) + [t.lemmaText] + CleanLemmas(b)
  {
    FilterMapAppend(a + [t], b, Relevant, LemmaOf);
    FilterMapAppend(a, [t], Relevant, LemmaOf);
    assert [t][..0] == [];
  }

  /** The extra list overrides the engine: such a token is dropped whatever its flags. */
  lemma ExtraStopwordDropped(t: Token)
    requires t.text in ExtraStopwords
    ensures CleanLemmas([t]) == []
  {
    assert [t][..0] == [];
  }

  /**
   The stop test reads the token's text, but the lemma is what is kept: a token
   whose text is not an extra stopword can still contribute one.
   */
  lemma KeptLemmaMayBeStopword()
    ensures var t := Token("wanted", "want", false, false, "VERB");
      CleanLemmas([t]) == ["want"] && "want" in ExtraStopwords
  {
    var t := Token("wanted", "want", false, false, "VERB");
    assert t.text !in ExtraStopwords;
    assert [t][..0] == [];
  }
}
