# Review text analysis for Pokémon game scenarios, modelled in Dafny

The repository has two scripts that analyse Japanese game reviews.

`sv.py` works on the reviews of one game:
- it cleans the review column;
- it tokenises each review with MeCab, keeping nouns, verbs, adjectives and interjections that are not stopwords;
- it counts word frequencies and reports the top 20;
- it counts the co-occurrence of sorted word pairs within a review and reports the top 10;
- it labels each review Positive, Negative or Neutral from two polarity lexicons.

`TFIDF.py` works on several games:
- it tokenises each title's reviews in the same way, with its own stopword list, but cleans them by its own rule: strip each value, blank a value equal to `'nan'`, and keep the values longer than one character;
- it joins each title's unigrams into one super-document per title;
- from the TF-IDF matrix of those documents, it ranks the 50 terms that characterise each title.

The model covers everything between the analyser's output and the library or chart calls. Modules:
- `Text`: Python's `str.strip`, `str.replace('nan', '')`, `str.split(',')`, `' '.join` and string order.
- `Seqs`: filtering, flattening, reversing and prefixes of sequences.
- `Tally`: Python dicts of counts, kept as their items in insertion order, with `Counter`, `d[k] += 1` and the stable top-N sort.
- `Tokenizer`: `preprocess_text`, which both scripts define identically (sv.py:68-101, TFIDF.py:54-82). Only the stopword set differs, so it is a parameter.
- `ScenarioAnalysis`: sv.py.
- `FeatureRanking`: TFIDF.py.

Inputs that come from code outside the model:
- The morphological analyser is a function parameter. It returns the node chain as a sequence of `(surface, feature)` nodes, or `Raised` for the exception branch.
- The CSV columns arrive as sequences of strings, after `astype(str)`, so a missing value reads `"nan"`.
- The TF-IDF matrix and its vocabulary are inputs.
- numpy's `argsort` of each row is an input, constrained only by what `argsort` guarantees (`FeatureRanking.IsArgsort`). `FeatureRanking.ArgsortOfIsArgsort` shows that every row has one.

## Model

| member | source | states |
|---|---|---|
| Text.StripIsTrimmedSlice | sv.py:59 | `strip()` keeps one contiguous slice, everything removed before and after it is whitespace (Python's `isspace` set, including U+3000), and the result neither starts nor ends with whitespace |
| Text.StripEmptyIffBlank | TFIDF.py:120 | a value strips to the empty string exactly when it consists only of whitespace |
| Text.StripIdempotent | TFIDF.py:120 | stripping a stripped value changes nothing |
| Text.RemoveNanIdentity | sv.py:59 | `replace('nan', '')` returns its input unchanged exactly when the input contains no `nan` |
| Text.RemoveNanMayLeaveNan | sv.py:59 | the replacement is one pass: `"nnanan"` becomes `"nan"`, which still contains `nan` |
| Text.Split | sv.py:82 | `feature.split(',')` has at least one field, no field contains a comma, and joining the fields with commas gives the feature string back |
| Text.LessAsymmetric | sv.py:146 | the string order used by `sorted` never puts two strings each before the other |
| Text.LessTotal | sv.py:146 | of two different strings, one is before the other |
| Seqs.Take | sv.py:150 | `s[:n]` has `min(n, len(s))` items and is a prefix of `s` |
| Seqs.Reverse | TFIDF.py:97 | `[::-1]` has the same length, and item `k` is item `len - 1 - k` of the input |
| Tally.IncrementTotalAndKeys | sv.py:147 | `d[k] += 1` raises the sum of all counts by one and adds `k` to the keys |
| Tally.IncrementShape | sv.py:147 | `d[k] += 1` leaves an existing key in place, or appends a new key with count 1 |
| Tally.IncrementKeepsDistinct | sv.py:147 | after `d[k] += 1`, the dict still has no repeated key |
| Tally.IncrementGet | sv.py:147 | `d[k] += 1` adds one to the count of `k` and changes no other count |
| Tally.CountIsMultiplicity | sv.py:115 | `Counter(xs)[w]` is the number of occurrences of `w` in `xs` |
| Tally.CountTotalAndKeys | sv.py:115 | the counts of `Counter(xs)` add up to `len(xs)`; its keys are the distinct elements of `xs` and appear once each |
| Tally.InsertByCountSorted | sv.py:150 | inserting an item into a list sorted by descending count keeps it sorted |
| Tally.SortByCount | sv.py:150 | `sorted(items, key=count, reverse=True)` is a permutation of the items, in non-increasing count order |
| Tally.TopByCountSelects | sv.py:150 | the top `n` are `min(n, len(d))` items of the dict, in non-increasing count order, and no item left out counts more than an item selected |
| Tokenizer.PreprocessText | sv.py:68-101 | the `while node:` loop returns exactly what `Tokenizer.Preprocess` defines: nothing for a non-string, for text under two characters or when the analyser raises, and otherwise the surfaces of the kept nodes in chain order |
| Tokenizer.PreprocessEarlyReturns | sv.py:71-77 | a non-string, a text shorter than two characters, or an analyser that raises each give `[]` |
| Tokenizer.PreprocessIsKeptSubsequence | sv.py:79-101 | the words are the surfaces of the kept nodes, in order, one word per kept node, so there are never more words than nodes. A node is kept exactly when field 0 of its feature is 名詞/動詞/形容詞/感動詞, its check form (field 6 if there are at least seven fields and field 6 is not `*`, else the surface) is not a stopword, and its surface is longer than one character |
| Tokenizer.KeptSurfacesAppend | sv.py:81-100 | the chain is filtered node by node: filtering two parts of a chain and concatenating the results gives the result for the whole chain |
| Tokenizer.PreprocessReviews | sv.py:103 | `[preprocess_text(review) for review in game_reviews]` gives one word list per review, in review order, each being what `preprocess_text` returns for that review |
| Tokenizer.PreprocessAllWordsLong | sv.py:103 | every word of every processed review is longer than one character |
| ScenarioAnalysis.LexiconsDisjoint | sv.py:19-20 | no word is in both polarity lexicons |
| ScenarioAnalysis.CleanReviewsKeepsPresentEntries | sv.py:59 | exactly the entries other than `'nan'` and `''` survive, in their original order, each with every `nan` deleted in one pass and then stripped |
| ScenarioAnalysis.CleanReviewsKeepsBlank | sv.py:59 | a blank entry survives as `""` while `'nan'` and `''` are dropped: `["nan", "", "  "]` cleans to `[""]` |
| ScenarioAnalysis.AnalyzeSentiment | sv.py:167-179 | the scores count the words in each lexicon with multiplicity; the label is Positive iff pos > neg, Negative iff neg > pos, and Neutral iff they are equal (0/0 included) |
| ScenarioAnalysis.OccurrencesAppend | sv.py:169-170 | the count of lexicon words is additive over concatenation, 0 for no words, and 1 or 0 for one word |
| ScenarioAnalysis.OccurrencesDisjointBound | sv.py:169-170 | for disjoint lexicons the two counts add up to the count for their union, which is at most the number of words |
| ScenarioAnalysis.SentimentScoresBounded | sv.py:169-170 | with the script's lexicons pos + neg ≤ len(words), so each score is at most the number of words |
| ScenarioAnalysis.SentimentExample | sv.py:167-179 | `["楽しい", "作品"]` gives Positive with scores 1 and 0 |
| ScenarioAnalysis.SentimentTable | sv.py:181-190 | one row per processed review: row `i` has id `i + 1`, the `i`-th cleaned review, and that review's label and scores |
| ScenarioAnalysis.ScenarioSentiment | sv.py:181-190 | from the raw column, `results` has one row per cleaned review; row `i` has id `i + 1`, the `i`-th cleaned review, and the label and scores of that review's words as preprocessed at sv.py:103 with the script's stopwords |
| ScenarioAnalysis.WordFrequencyCountsTokens | sv.py:114-115 | the frequency of each word is its number of occurrences across all reviews, and the frequencies add up to the total number of tokens |
| ScenarioAnalysis.MostCommonIsTop20 | sv.py:116 | `most_common(20)` has `min(20, distinct words)` entries, at most 20, in non-increasing count order, and no word left out is more frequent than one listed |
| ScenarioAnalysis.MostCommonWordsAreLong | sv.py:114-116 | every word that `most_common(20)` lists for the script's own cleaned and preprocessed reviews is longer than one character |
| ScenarioAnalysis.SortedPairOrdered | sv.py:146 | `tuple(sorted((a, b)))` holds the two words with the smaller one first |
| ScenarioAnalysis.CoOccurrenceCounts | sv.py:142-147 | the nested loops leave in the dict exactly the counts of the sorted pairs `(words[i], words[j])`, `i < j`, taken over all reviews in order |
| ScenarioAnalysis.CountReviewPairs | sv.py:144-147 | the loop over `i` for one review adds that review's pairs to the counts |
| ScenarioAnalysis.CountRowPairs | sv.py:145-147 | the loop over `j` adds the pairs of `words[i]` with each later word to the counts |
| ScenarioAnalysis.RowPairsContents | sv.py:145-146 | the inner loop makes `n - i - 1` pairs, and the `m`-th is the sorted pair of `words[i]` and `words[i + 1 + m]` |
| ScenarioAnalysis.PairsUpToLength | sv.py:144-146 | the first `i` rounds of the outer loop make `i(2n - i - 1)/2` pairs |
| ScenarioAnalysis.ReviewPairsLength | sv.py:144-146 | a review of `n` words contributes `n(n - 1)/2` pairs |
| ScenarioAnalysis.CoOccurrenceTotal | sv.py:142-147 | the co-occurrence counts add up to the sum of `n(n - 1)/2` over all reviews |
| ScenarioAnalysis.RowPairsOrdered | sv.py:146 | every pair made by the inner loop has its smaller word first |
| ScenarioAnalysis.PairsUpToOrdered | sv.py:146 | every pair made by the first rounds of the outer loop has its smaller word first |
| ScenarioAnalysis.AllPairsOrdered | sv.py:146 | every pair counted has its smaller word first |
| ScenarioAnalysis.CoOccurrenceKeysSorted | sv.py:146-147 | every key of `co_occurrence_counts` is a sorted pair |
| ScenarioAnalysis.CoOccurrenceCountsEveryPair | sv.py:143-147 | each pair of positions `i < j` in a review has a count of at least one; a word occurring twice yields the key `(w, w)` |
| ScenarioAnalysis.AllPairsMembers | sv.py:143 | the pairs of every review are among the pairs counted |
| ScenarioAnalysis.TopPairsIsTop10 | sv.py:149-150 | the top 10 pairs are `min(10, distinct pairs)` counted pairs, in non-increasing count order; no pair left out counts more than a listed one, and each listed key is a sorted pair |
| FeatureRanking.CleanReviewsKeptRows | TFIDF.py:120-122 | the survivors come from rows in increasing order, one survivor per kept row, and a row is kept exactly when its stripped value is longer than one character and is not `'nan'` |
| FeatureRanking.CleanReviewsSurvivorValues | TFIDF.py:120-122 | each survivor is its row's stripped value, longer than one character, not `'nan'`, and with no whitespace at either end |
| FeatureRanking.NonEmptyKeepsWords | TFIDF.py:86 | filtering out empty strings leaves a list with no empty string unchanged |
| FeatureRanking.WindowsAt | TFIDF.py:90-91 | the `zip` of `n` shifted slices gives `max(0, m - n + 1)` windows, and window `k` is the space-join of tokens `k .. k + n - 1` |
| FeatureRanking.GenerateNgramsSpec | TFIDF.py:84-91 | with no non-empty tokens, or with `n <= 0`, there are no n-grams. For `n >= 1` and `m` non-empty tokens there are `max(0, m - n + 1)`, and item `k` joins non-empty tokens `k .. k + n - 1` with spaces |
| FeatureRanking.UnigramsAreTokens | TFIDF.py:130 | with `n_gram=1`, `generate_ngrams` returns exactly the non-empty tokens |
| FeatureRanking.ExtractFeatureWordsRanks | TFIDF.py:94-100 | for `n >= 1` there are `min(n, len(row))` pairs, and for `n == 0` one per term. Each pair is `(terms[idx], row[idx])` for one index, with no index repeated; the scores do not increase; no index left out scores higher than a selected one |
| FeatureRanking.ArgsortOfIsArgsort | TFIDF.py:97 | every row has an argsort: a permutation of its positions in non-decreasing order of value |
| FeatureRanking.Combined | TFIDF.py:110-132 | every configured title has an entry in `combined_reviews_by_title` |
| FeatureRanking.CombinedLastWins | TFIDF.py:110-132 | a title's document is the super-document of the last configuration entry with that title |
| FeatureRanking.TitleDocument | TFIDF.py:117-132 | the loop body for one title returns the space-join of the unigrams of its cleaned, preprocessed reviews, in review order |
| FeatureRanking.AssembleDocuments | TFIDF.py:107-135 | `document_list` has one document per configuration entry, in configuration order, namely that title's entry in `combined_reviews_by_title` |
| FeatureRanking.TitleUnigramsAreWords | TFIDF.py:127-130 | when no word is empty, `all_ngrams` is the concatenation of the reviews' word lists in review order |
| FeatureRanking.DocumentListIsJoinedWords | TFIDF.py:107-135 | with distinct titles, document `k` is the space-join of the concatenated word lists of title `k`'s cleaned reviews |
| FeatureRanking.FeatureFrameRanked | TFIDF.py:158-160 | a title's frame has `min(n, number of terms)` rows, the ranks run `1 .. len`, every row carries the title, and a better rank never has a lower score |
| FeatureRanking.FeatureTable | TFIDF.py:155-161 | one frame per title, in title order: row `k` of title `i`'s frame is the `k`-th pair selected from row `i` with `n = 50`, that title, and rank `k + 1` |

## Left out

- Reading the CSV files (`force_read_csv` and its encoding fallbacks), `astype(str)`, the DataFrame merge, `pd.concat`, `to_csv` and `os.makedirs`: file I/O and pandas plumbing. The review column is an input that has already been converted to strings.
- The matplotlib charts (sv.py:121-135 and 196-207, TFIDF.py:173-187) and every `print`: output only.
- MeCab's `Tagger` and `parseToNode`: a foreign library. The node chain, including its boundary nodes, is the result of a function parameter. The chain is a sequence rather than a linked list of nodes.
- `TfidfVectorizer` (sv.py:155-162, TFIDF.py:137-144): a library computation in floating point. The matrix and vocabulary are inputs. This is also why `tokenized_reviews_str` (sv.py:104), which only feeds it, is not modelled.
- The tie order of numpy's `argsort` is unspecified, so among equal scores the model does not fix which term comes first; `FeatureRanking.ExtractFeatureWords` is stated for every argsort.
- Tally.TopByCountSelects: the stable order among equal counts (`sorted` and `most_common` keep insertion order) is part of the definition, but no lemma states it.
- ScenarioAnalysis.SentimentTable: the source has one processed review per cleaned review, and the model requires only that no processed review lacks a cleaned review. `ScenarioAnalysis.ScenarioSentiment` builds the processed list from the cleaned column itself, so there the two lengths are equal.
- Python string comparison and `len` are over code points. Strings are sequences of Unicode scalar values, with no normalisation.
