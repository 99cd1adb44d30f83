# Keyword extraction pipeline: the logic between the library calls

`keyword_testing.py` extracts candidate keywords from review or transcript
text. An NLP engine tokenises and lemmatises the text. The script keeps the
lemmas of the meaningful tokens and counts them. It hands the frequent ones
to a vector-similarity matcher, together with a seed keyword list. A batch
driver runs this over a sample of long product reviews.

This project models the parts of that script that are its own logic:

- `Frequency` (`frequency.dfy`): `text_to_dict`. A counting loop builds a word
  → count dictionary. A second loop keeps the words longer than three
  characters that occur more than once.
- `TokenFilter` (`token_filter.dfy`): the filtering loop of
  `remove_stopwords_and_punctuation`, over abstract token records
  (text, lemma, stop flag, punctuation flag, part-of-speech tag). The extra
  stopwords the function marks in the engine's vocabulary are folded into the
  stop flag.
- `PythonSplit` (`split.dfy`): `str.split()` without a separator, for the
  word count the batch driver tests.
- `KeywordTesting` (`keyword_testing.py` glue, in `keyword_testing.dfy`): the seed
  keyword lists, the keyword list `domain + client`, `keyword_generator` up to
  the matcher, and the driver's review selection (`> 40` words, first 100).
- `Filtering` (`filtering.dfy`): the order-preserving filter-map that the
  token filter and the review selection both are, with the lemmas that
  characterise it exactly (the j-th output comes from the j-th kept position).

`text_to_dict` is one Python function with two loops. The model gives each
loop its own method, `Frequency.CountWords` and `Frequency.KeepFrequentEntries`,
and `Frequency.TextToDict` calls the two in turn.

Counts are stated with Dafny multisets: the number of occurrences of `w` in
`words` is `multiset(words)[w]`.

The model follows the code on three points where one might expect otherwise:

- The normaliser does not lower-case its input. Only `_read_file` does, and
  the pipeline never calls it.
- An extra stopword is matched against the token's exact text. Marking
  `nlp.vocab[word].is_stop` changes the vocabulary entry for that exact
  string, so `"Hello"` is not affected by `"hello"`.
- The stop test reads the token's text, but the kept value is its lemma. So
  the output can hold an extra stopword: a token with text `"wanted"` and
  lemma `"want"` is kept and contributes `"want"`
  (`TokenFilter.KeptLemmaMayBeStopword`). The output is not promised to be
  free of stopwords.

## Model

| member | source | states |
|---|---|---|
| `Frequency.TextToDict` | keyword_testing.py:59-79 | the result holds exactly the words longer than 3 characters occurring more than once, each mapped to its number of occurrences in the input, and every key occurs in the input |
| `Frequency.CountWords` | keyword_testing.py:69-73 | the counting pass yields every word of the input with its number of occurrences and no other key; its loop keeps the dictionary equal to the counts of the prefix read, with counts summing to the prefix length and every key in the prefix |
| `Frequency.KeepFrequentEntries` | keyword_testing.py:75-77 | the filtering pass keeps exactly the entries whose key is longer than 3 characters and whose count exceeds 1, with their counts unchanged |
| `Frequency.TallySnoc` | keyword_testing.py:70-73 | counting one more word raises that word's count by one (from 0 when absent) and leaves every other count alone |
| `Frequency.TallyTotal` | keyword_testing.py:69-73 | the counts of the first dictionary sum to the number of words counted |
| `Frequency.FrequentMember` | keyword_testing.py:75-77 | a word is a result key iff its length is over 3 and it occurs at least twice, and its value is its occurrence count |
| `Frequency.KeepFrequentIdempotent` | keyword_testing.py:75-77 | applying the length/count filter to its own output changes nothing |
| `Frequency.TwoOccurrences` | keyword_testing.py:76 | a count of at least two means two distinct positions hold the word, and conversely |
| `Frequency.TallyAt` | keyword_testing.py:69-73 | a word is a key of the first dictionary iff it occurs in the input, and its value is its occurrence count |
| `Frequency.LaptopExample` | keyword_testing.py:59-79 | on the lemmas of "the laptop is fast and the laptop has great battery life and the battery is fast" once stopwords are removed, the keys are exactly laptop, fast and battery, each with count 2; great and life, seen once, are dropped |
| `Filtering.FilterMap` | keyword_testing.py:52-55 | an order-preserving filter-map is no longer than its input |
| `Filtering.KeptIndices` | keyword_testing.py:53-54 | the kept positions are strictly increasing, in range, satisfy the test, and include every position that satisfies it |
| `Filtering.FilterMapAt` | keyword_testing.py:53-55 | the output has one entry per kept position, the j-th being the image of the element at the j-th kept position |
| `Filtering.FilterMapAppend` | keyword_testing.py:53-55 | filtering a concatenation is the concatenation of the filtered parts |
| `Filtering.SelectMembers` | keyword_testing.py:132-134 | an element is in a plain filter's output iff it is in the input and passes the test |
| `TokenFilter.RemoveStopwordsAndPunctuation` | keyword_testing.py:52-56 | the loop returns the lemmas of the relevant tokens in document order and is no longer than the document |
| `TokenFilter.CleanLemmasExact` | keyword_testing.py:53-55 | the j-th output lemma is the lemma of the j-th relevant token (not stop, not punctuation, not NUM or SYM), and every relevant token contributes one |
| `TokenFilter.ExcludedTokenDropped` | keyword_testing.py:54 | a stop, punctuation, NUM or SYM token contributes nothing wherever it stands |
| `TokenFilter.RelevantTokenKept` | keyword_testing.py:54-55 | any other token contributes its lemma at its own place |
| `TokenFilter.ExtraStopwordDropped` | keyword_testing.py:48-50 | a token whose text is one of the extra stopwords is dropped whatever the engine's flags say |
| `TokenFilter.KeptLemmaMayBeStopword` | keyword_testing.py:48-55 | the stop test reads the token's text while the lemma is emitted, so a token with text "wanted" and lemma "want" is kept and the output holds the extra stopword "want" |
| `PythonSplit.SplitPieces` | keyword_testing.py:133 | every piece `str.split()` returns is non-empty and contains no whitespace |
| `PythonSplit.SplitSkip` | keyword_testing.py:133 | a leading whitespace character is skipped |
| `PythonSplit.SplitWord` | keyword_testing.py:133 | a non-empty string without whitespace splits into itself |
| `PythonSplit.SplitBlank` | keyword_testing.py:133 | a string of whitespace only splits into nothing |
| `PythonSplit.SplitAtSpace` | keyword_testing.py:133 | a whitespace character separates: the two sides split independently and their pieces are concatenated |
| `KeywordTesting.Keywords` | keyword_testing.py:119 | the keyword list is the domain keywords followed by the client keywords |
| `KeywordTesting.DefaultKeywords` | keyword_testing.py:109 | with the default empty client list the keyword list equals the domain keywords |
| `KeywordTesting.DriverKeywords` | keyword_testing.py:137 | the driver's list has 23 entries, the performance keywords first and the general keywords after |
| `KeywordTesting.KeywordGenerator` | keyword_testing.py:118-120 | the matcher receives the frequent lemmas of the transcript's relevant tokens and the keyword list domain + client |
| `KeywordTesting.CandidateIffTwoRelevantTokens` | keyword_testing.py:118-120 | a word reaches the matcher iff it is longer than 3 characters and is the lemma of two different relevant tokens |
| `KeywordTesting.TwoLemmasTwoTokens` | keyword_testing.py:53-55 | two equal output lemmas at different positions come from two different relevant tokens |
| `KeywordTesting.TwoTokensTwoLemmas` | keyword_testing.py:53-55 | two different relevant tokens give two output lemmas, in the same order |
| `KeywordTesting.SelectReviews` | keyword_testing.py:132-136 | the selected reviews are the filter of the reviews by word count over 40, and the processed sample is their first min(100, count) entries |
| `KeywordTesting.SelectedReviewsExact` | keyword_testing.py:132-134 | the j-th selected review is the j-th review with more than 40 words, and every such review is selected |
| `KeywordTesting.OkReviewWords` | keyword_testing.py:133 | a review of n space-terminated words has word count n |
| `KeywordTesting.LengthCutoff` | keyword_testing.py:133 | a 41-word review is selected and a 40-word review is not |

## Left out

- Model loading and GPU selection (lines 5-6): library and environment setup.
- Tokenisation, lemmatisation and part-of-speech tagging (lines 47, 92, 95): done by the external NLP engine. Its output is the abstract `Token` record.
- The vocabulary mutation and the debug print (lines 49-51): a process-wide side effect on the engine. It is folded into `TokenFilter.IsStop`. The model does not capture that the flags persist across calls.
- `similar_words` (lines 82-106): floating-point cosine similarity computed by the engine's vectors, and the `THRESH` constant it uses. `KeywordTesting.KeywordGenerator` therefore stops at the matcher's two inputs.
- `parse` and `get_df` (lines 17-29): gzip I/O and `eval` of each line into a data frame. `KeywordTesting.SelectReviews` takes the list of review texts directly and assumes every entry is a string.
- `_read_file` (lines 32-37): file I/O.
- Result accumulation and CSV output (lines 138-144): line 139 calls `list.append` with three arguments, which raises `TypeError`. So `testing_function` stops at the first key of the first sampled review whose match dictionary is non-empty. `final_keys` therefore stays empty, and the loop at lines 141-142 never runs. `to_csv` (line 144) is reached only when no sampled review yields a match, and then it writes a `keyword.csv` with headers only. The model covers the sample (`KeywordTesting.SelectReviews`) but not this loop, the exception or the file write.
- Frequency.TextToDict: its second loop visits the keys of the first dictionary in an unspecified order, where Python visits them in insertion order. The result is a map, so key order is not modelled.
