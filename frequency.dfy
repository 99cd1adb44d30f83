/**
 The frequency counter `text_to_dict`: count every word of a list, then keep
 the words longer than three characters that occur more than once.
 The number of occurrences of `w` in `words` is `multiset(words)[w]`.
 */
module Frequency {

  /** Every word of `words` with its number of occurrences: the first dictionary. */
  function Tally(words: seq<string>): map<string, nat> {
    map w | w in words :: multiset(words)[w]
  }

  /** The condition an entry must meet to reach the result. */
  predicate Kept(word: string, count: int) {
    |word| > 3 && count > 1
  }

  /** The entries of `counts` that meet Kept: the second dictionary. */
  function KeepFrequent(counts: map<string, nat>): map<string, nat> {
    map w | w in counts && Kept(w, counts[w]) :: counts[w]
  }

  /** What `text_to_dict` returns for `words`. */
  function Frequent(words: seq<string>): map<string, nat> {
    KeepFrequent(Tally(words))
  }

  /** Some key of a non-empty map. */
  ghost function Pick(m: map<string, nat>): (k: string)
    requires m != map[]
    ensures k in m
  {
    var k :| k in m; k
  }

  /** The sum of the values of `m`. */
  ghost function Total(m: map<string, nat>): nat
    decreases |m|
  {
    if m == map[] then 0
    else
      var k := Pick(m);
      assert |(m - {k}).Keys| < |m.Keys| by {
        assert (m - {k}).Keys == m.Keys - {k};
      }
      m[k] + Total(m - {k})
  }

  /** Total does not depend on which key it takes first. */
  lemma {:induction false} TotalRemove(m: map<string, nat>, k: string)
    requires k in m
    ensures Total(m) == m[k] + Total(m - {k})
    decreases |m|
  {
    var j := Pick(m);
    if j != k {
      assert (m - {j}).Keys == m.Keys - {j};
      assert (m - {k}).Keys == m.Keys - {k};
      TotalRemove(m - {j}, k);
      TotalRemove(m - {k}, j);
      assert m - {j} - {k} == m - {k} - {j};
    }
  }

  /** Setting one key changes the total by the difference of the values. */
  lemma TotalUpdate(m: map<string, nat>, k: string, v: nat)
    ensures Total(m[k := v]) + (if k in m then m[k] else 0) == Total(m) + v
  {
    TotalRemove(m[k := v], k);
    assert m[k := v] - {k} == m - {k};
    if k in m {
      TotalRemove(m, k);
    } else {
      assert m - {k} == m;
    }
  }

  /** Counting one more word raises its count by one and leaves the others. */
  lemma TallySnoc(s: seq<string>, x: string)
    ensures Tally(s + [x]) == Tally(s)[x := multiset(s)[x] + 1]
  {
    var t := s + [x];
    assert multiset(t) == multiset(s) + multiset{x};
    forall w ensures w in t <==> w in s || w == x {
      if w in t {
        var i :| 0 <= i < |t| && t[i] == w;
        if i < |s| { assert s[i] == w; }
      }
    }
  }

  /** A word's entry in the first dictionary is its number of occurrences, absent when zero. */
  lemma TallyAt(s: seq<string>, x: string)
    ensures x in Tally(s) <==> x in s
    ensures (if x in Tally(s) then Tally(s)[x] else 0) == multiset(s)[x]
  {
  }

  /** The first dictionary of a non-empty list, from that of the list without its last word. */
  lemma TallyLast(words: seq<string>)
    requires words != []
    ensures var init, x := words[..|words| - 1], words[|words| - 1];
      Tally(words) == Tally(init)[x := multiset(init)[x] + 1]
  {
    var init, x := words[..|words| - 1], words[|words| - 1];
    assert words == init + [x];
    TallySnoc(init, x);
  }

  /** The counts of the first dictionary sum to the number of words counted. */
  lemma {:induction false} TallyTotal(words: seq<string>)
    ensures Total(Tally(words)) == |words|
  {
    if words != [] {
      var init, x := words[..|words| - 1], words[|words| - 1];
      TallyTotal(init);
      TallyLast(words);
      TallyAt(init, x);
      TotalUpdate(Tally(init), x, multiset(init)[x] + 1);
    }
  }

  /** A word is a key of the result exactly when it is long enough and occurs twice or more. */
  lemma FrequentMember(words: seq<string>, w: string)
    ensures w in Frequent(words) <==> |w| > 3 && multiset(words)[w] >= 2
    ensures w in Frequent(words) ==> Frequent(words)[w] == multiset(words)[w]
  {
  }

  /** Filtering a second time changes nothing. */
  lemma KeepFrequentIdempotent(counts: map<string, nat>)
    ensures KeepFrequent(KeepFrequent(counts)) == KeepFrequent(counts)
  {
  }

  /** One step of the counting loop keeps the first dictionary equal to the counts of the prefix. */
  lemma CountStep(text: seq<string>, i: nat, counts: map<string, nat>)
    requires i < |text| && counts == Tally(text[..i])
    ensures var word := text[i];
      counts[word := if word in counts then counts[word] + 1 else 1] == Tally(text[..i + 1])
  {
    var word := text[i];
    assert text[..i + 1] == text[..i] + [word];
    TallySnoc(text[..i], word);
  }

  /** One step of the filtering loop keeps its invariant. */
  lemma KeepStep(counts: map<string, nat>, keys: set<string>, key: string)
    requires key in keys
    ensures KeepFrequent(counts - (keys - {key})) ==
            if key in counts && Kept(key, counts[key])
            then KeepFrequent(counts - keys)[key := counts[key]]
            else KeepFrequent(counts - keys)
  {
  }

  /** The counting pass of `text_to_dict`: every word of `text` with its number of occurrences. */
  method CountWords(text: seq<string>) returns (dataDict: map<string, nat>)
    ensures dataDict == Tally(text)
    ensures Total(dataDict) == |text|
    ensures forall w :: w in dataDict <==> w in text
  {
    dataDict := map[];
    for i := 0 to |text|
      invariant dataDict == Tally(text[..i])
      invariant Total(dataDict) == i
      invariant forall w :: w in dataDict ==> w in text[..i]
    {
      var word := text[i];
      CountStep(text, i, dataDict);
      TotalUpdate(dataDict, word, if word in dataDict then dataDict[word] + 1 else 1);
      if word in dataDict {
        dataDict := dataDict[word := dataDict[word] + 1];
      } else {
        dataDict := dataDict[word := 1];
      }
    }
    assert text[..|text|] == text;
  }

  /** The filtering pass of `text_to_dict`: the entries of `dataDict` that meet Kept. */
  method KeepFrequentEntries(dataDict: map<string, nat>) returns (finalDict: map<string, nat>)
    ensures finalDict == KeepFrequent(dataDict)
    ensures forall w :: w in finalDict <==> w in dataDict && |w| > 3 && dataDict[w] > 1
    ensures forall w :: w in finalDict ==> finalDict[w] == dataDict[w]
  {
    finalDict := map[];
    var keys := dataDict.Keys;
    while keys != {}
      invariant keys <= dataDict.Keys
      invariant finalDict == KeepFrequent(dataDict - keys)
      decreases keys
    {
      var key :| key in keys;
      KeepStep(dataDict, keys, key);
      if |key| > 3 && dataDict[key] > 1 {
        finalDict := finalDict[key := dataDict[key]];
      }
      keys := keys - {key};
    }
    assert dataDict - {} == dataDict;
  }

  /** `text_to_dict`: the dictionary of frequent words of `text`. */
  method TextToDict(text: seq<string>) returns (finalDict: map<string, nat>)
    ensures finalDict == Frequent(text)
    ensures forall w :: w in finalDict <==> |w| > 3 && multiset(text)[w] > 1
    ensures forall w :: w in finalDict ==> finalDict[w] == multiset(text)[w] && w in text
  {
    var dataDict := CountWords(text);
    finalDict := KeepFrequentEntries(dataDict);
    forall w
      ensures w in finalDict <==> |w| > 3 && multiset(text)[w] > 1
      ensures w in finalDict ==> finalDict[w] == multiset(text)[w] && w in text
    {
      FrequentMember(text, w);
    }
  }

  /** Two occurrences of `x` in `s` are what makes its count reach two. */
  lemma {:induction false} TwoOccurrences(s: seq<string>, x: string)
    ensures multiset(s)[x] >= 2 <==>
            exists i, j :: 0 <= i < j < |s| && s[i] == x && s[j] == x
  {
    if s != [] {
      var init, y := s[..|s| - 1], s[|s| - 1];
      assert s == init + [y];
      TwoOccurrences(init, x);
      if multiset(s)[x] >= 2 {
        if multiset(init)[x] >= 2 {
          var i, j :| 0 <= i < j < |init| && init[i] == x && init[j] == x;
          assert s[i] == x && s[j] == x;
        } else {
          assert y == x && multiset(init)[x] == 1;
          var i :| 0 <= i < |init| && init[i] == x;
          assert s[i] == x && s[|s| - 1] == x;
        }
      }
      if exists i, j :: 0 <= i < j < |s| && s[i] == x && s[j] == x {
        var i, j :| 0 <= i < j < |s| && s[i] == x && s[j] == x;
        if j < |init| {
          assert init[i] == x && init[j] == x;
        } else {
          assert init[i] == x;
          assert x in init;
        }
      }
    }
  }

  /**
   The lemmas of "the laptop is fast and the laptop has great battery life and
   the battery is fast" once stopwords are removed.
   */
  const LaptopLemmas: seq<string> :=
    ["laptop", "fast", "laptop", "great", "battery", "life", "battery", "fast"]

  lemma LaptopCounts()
    ensures multiset(LaptopLemmas)["laptop"] == 2
    ensures multiset(LaptopLemmas)["fast"] == 2
    ensures multiset(LaptopLemmas)["battery"] == 2
    ensures multiset(LaptopLemmas)["great"] == 1
    ensures multiset(LaptopLemmas)["life"] == 1
  {
  }

  lemma LaptopWords(w: string)
    requires w in LaptopLemmas
    ensures w == "laptop" || w == "fast" || w == "battery" || w == "great" || w == "life"
  {
  }

  /**
   text_to_dict on those lemmas: the keys are laptop, fast and
   battery, each with count 2; great and life occur once and are dropped.
   */
  lemma LaptopExample(w: string)
    ensures w in Frequent(LaptopLemmas) <==> w == "laptop" || w == "fast" || w == "battery"
    ensures w in Frequent(LaptopLemmas) ==> Frequent(LaptopLemmas)[w] == 2
  {
    LaptopCounts();
    FrequentMember(LaptopLemmas, w);
    if multiset(LaptopLemmas)[w] >= 2 {
      LaptopWords(w);
    }
  }
}
