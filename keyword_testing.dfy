/**
 The glue of the keyword extractor: the seed keyword lists, the keyword list
 handed to the similarity matcher, the two stages of `keyword_generator` that
 precede that matcher, and the review selection of the batch driver.
 */
module KeywordTesting {
  import opened Filtering
  import opened PythonSplit
  import opened TokenFilter
  import opened Frequency

  const GeneralKeywords: seq<string> :=
    ["technology", "computer", "laptop", "tablet", "device", "charging", "smart",
     "headphones", "micro", "discount", "mobile", "electric"]

  const PerformanceKeywords: seq<string> :=
    ["speed", "fast", "display", "size", "brightness", "battery", "quality", "sleek",
     "lightweight", "wireless", "camera"]

  /** A review is sampled only when it has more than this many words. */
  const MinWords := 40

  /** At most this many of the long reviews are processed. */
  const SampleSize := 100

  /** The keyword list: the domain keywords, then the client keywords (none by default). */
  function Keywords(domainKeywords: seq<string>, clientKeywords: seq<string> := []): (keywords: seq<string>)
    ensures |keywords| == |domainKeywords| + |clientKeywords|
    ensures keywords[..|domainKeywords|] == domainKeywords
    ensures keywords[|domainKeywords|..] == clientKeywords
  {
    domainKeywords + clientKeywords
  }

  /** Without client keywords the list is the domain keywords alone. */
  lemma DefaultKeywords(domainKeywords: seq<string>)
    ensures Keywords(domainKeywords) == domainKeywords
  {
    assert domainKeywords + [] == domainKeywords;
  }

  /** The list the batch driver matches against: performance keywords first, then general ones. */
  lemma DriverKeywords()
    ensures |Keywords(PerformanceKeywords, GeneralKeywords)| == 23
    ensures Keywords(PerformanceKeywords, GeneralKeywords)[..11] == PerformanceKeywords
    ensures Keywords(PerformanceKeywords, GeneralKeywords)[11..] == GeneralKeywords
  {
  }

  /**
   `keyword_generator` up to the similarity matcher: the frequent lemmas of the
   transcript and the keyword list, the two arguments the matcher receives.
   */
  method KeywordGenerator(transcript: seq<Token>, domainKeywords: seq<string>, clientKeywords: seq<string> := [])
    returns (candidates: map<string, nat>, keywords: seq<string>)
    ensures candidates == Frequent(CleanLemmas(transcript))
    ensures keywords == Keywords(domainKeywords, clientKeywords)
  {
    var cleanTranscript := RemoveStopwordsAndPunctuation(transcript);
    keywords := domainKeywords + clientKeywords;
    candidates := TextToDict(cleanTranscript);
  }

  /** True when the tokens at two different positions of `doc` are relevant and have lemma `w`. */
  ghost predicate TwoRelevantTokens(doc: seq<Token>, w: string) {
    exists i, j :: 0 <= i < j < |doc| && Relevant(doc[i]) && Relevant(doc[j])
                   && doc[i].lemmaText == w && doc[j].lemmaText == w
  }

  /**
   A word reaches the matcher exactly when it is longer than three characters
   and is the lemma of two different relevant tokens of the transcript.
   */
  lemma CandidateIffTwoRelevantTokens(doc: seq<Token>, w: string)
    ensures w in Frequent(CleanLemmas(doc)) <==> |w| > 3 && TwoRelevantTokens(doc, w)
  {
    var lemmas := CleanLemmas(doc);
    FrequentMember(lemmas, w);
    TwoOccurrences(lemmas, w);
    if multiset(lemmas)[w] >= 2 {
      var p, q :| 0 <= p < q < |lemmas| && lemmas[p] == w && lemmas[q] == w;
      TwoLemmasTwoTokens(doc, p, q);
    }
    if TwoRelevantTokens(doc, w) {
      var i, j :| 0 <= i < j < |doc| && Relevant(doc[i]) && Relevant(doc[j])
                  && doc[i].lemmaText == w && doc[j].lemmaText == w;
      TwoTokensTwoLemmas(doc, i, j);
    }
  }

  lemma TwoLemmasTwoTokens(doc: seq<Token>, p: nat, q: nat)
    requires p < q < |CleanLemmas(doc)| && CleanLemmas(doc)[p] == CleanLemmas(doc)[q]
    ensures TwoRelevantTokens(doc, CleanLemmas(doc)[p])
  {
    var idx := KeptIndices(doc, Relevant);
    CleanLemmasExact(doc);
    assert idx[p] < idx[q];
    assert doc[idx[p]].lemmaText == doc[idx[q]].lemmaText == CleanLemmas(doc)[p];
  }

  lemma TwoTokensTwoLemmas(doc: seq<Token>, i: nat, j: nat)
    requires i < j < |doc| && Relevant(doc[i]) && Relevant(doc[j])
    ensures exists p, q :: 0 <= p < q < |CleanLemmas(doc)|
              && CleanLemmas(doc)[p] == doc[i].lemmaText && CleanLemmas(doc)[q] == doc[j].lemmaText
  {
    var idx := KeptIndices(doc, Relevant);
    CleanLemmasExact(doc);
    var p :| 0 <= p < |idx| && idx[p] == i;
    var q :| 0 <= q < |idx| && idx[q] == j;
    assert p < q;
    assert CleanLemmas(doc)[p] == doc[i].lemmaText;
    assert CleanLemmas(doc)[q] == doc[j].lemmaText;
  }

  /** The test the batch driver applies to a review: `len(review.split()) > 40`. */
  predicate IsLongReview(review: string) {
    WordCount(review) > MinWords
  }

  /**
   The review selection of the batch driver: the long reviews in their
   original order, and the first hundred of them that are processed.
   */
  method SelectReviews(reviews: seq<string>) returns (finReviews: seq<string>, sample: seq<string>)
    ensures finReviews == FilterMap(reviews, IsLongReview, Id)
    ensures |sample| == if |finReviews| < SampleSize then |finReviews| else SampleSize
    ensures sample == finReviews[..|sample|]
  {
    finReviews := [];
    for i := 0 to |reviews|
      invariant finReviews == FilterMap(reviews[..i], IsLongReview, Id)
    {
      var review := reviews[i];
      assert reviews[..i + 1][..i] == reviews[..i];
      if |Split(review)| > MinWords {
        finReviews := finReviews + [review];
      }
    }
    assert reviews[..|reviews|] == reviews;
    sample := if |finReviews| <= SampleSize then finReviews else finReviews[..SampleSize];
  }

  /**
   The selected reviews are exactly the long ones, in order: the j-th selected
   review is the j-th review with more than forty words.
   */
  lemma SelectedReviewsExact(reviews: seq<string>)
    ensures var sel, idx := FilterMap(reviews, IsLongReview, Id), KeptIndices(reviews, IsLongReview);
      && |sel| == |idx|
      && (forall j :: 0 <= j < |idx| ==> sel[j] == reviews[idx[j]] && WordCount(sel[j]) > MinWords)
      && (forall i :: 0 <= i < |reviews| ==> (WordCount(reviews[i]) > MinWords <==> i in idx))
  {
    FilterMapAt(reviews, IsLongReview, Id);
  }

  /** A review of `n` copies of the word "ok", each followed by a space. */
  function OkReview(n: nat): string {
    if n == 0 then [] else "ok " + OkReview(n - 1)
  }

  lemma {:induction false} OkReviewWords(n: nat)
    ensures WordCount(OkReview(n)) == n
  {
    if n > 0 {
      OkReviewWords(n - 1);
      assert OkReview(n) == "ok" + [' '] + OkReview(n - 1);
      SplitAtSpace("ok", ' ', OkReview(n - 1));
      SplitWord("ok");
    }
  }

  /** The cutoff is strict: a 41-word review is selected, a 40-word review is not. */
  lemma LengthCutoff()
    ensures FilterMap([OkReview(41)], IsLongReview, Id) == [OkReview(41)]
    ensures FilterMap([OkReview(40)], IsLongReview, Id) == []
  {
    OkReviewWords(41);
    OkReviewWords(40);
    assert [OkReview(41)][..0] == [];
    assert [OkReview(40)][..0] == [];
  }
}
