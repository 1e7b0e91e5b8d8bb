/** The text side of TFIDF.py, which ranks the words that distinguish each game's
    reviews from the other games': cleaning each review column, building one
    super-document per title from the reviews' unigrams, and picking the top
    terms of one row of the TF-IDF matrix. The matrix itself comes from
    scikit-learn's `TfidfVectorizer` and is an input here. */
module FeatureRanking {
  import opened Seqs
  import opened Text
  import opened Tokenizer

  /** The stopwords this script filters with (TFIDF.py:16-24). */
  const StopWords: set<string> := {
    "この", "の", "は", "が", "に", "を", "と", "て", "た", "だ", "し", "もっと", "も", "です", "ます", "けど", "だろ", "それ",
    "いう", "ある", "もの", "なる", "する", "いる", "こと", "ない", "できる", "ため", "そノ", "られる", "れる", "これ",
    "スル", "イル", "イウ", "アル", "ナル", "ナイ", "コト", "デキル", "シレル", "カンズル", "モノ",
    "ゲーム", "シリーズ", "ポケモン", "ホンサク", "ルート", "ブブン",
    "レベル", "タメ", "ソノ", "セイリツ", "トオク", "ミエル", "ハツ", "イク", "クル", "オク",
    "ホカク", "シュルイ", "マチ", "イチ", "アタリ", "バアイ", "ジム", "要素", "システム",
    "感想", "点", "部分", "今回", "感じ", "思った", "ところ", "また"
  }

  // ---------------------------------------------------------------- cleaning

  /** `.str.strip().replace('nan', '')` on one value: the whole value `'nan'`
      becomes empty, any other value is only stripped. */
  function CleanValue(r: string): string
  {
    var v := Strip(r);
    if v == "nan" then "" else v
  }

  /** The row filter `.str.len() > 1`. */
  predicate LongEnough(r: string)
  {
    |CleanValue(r)| > 1
  }

  /** The `Original_Review` column after cleaning and filtering, as a list. */
  function CleanReviews(column: seq<string>): seq<string>
  {
    FilterMap(column, LongEnough, CleanValue)
  }

  /** The rows kept are exactly those whose stripped value is longer than one
      character and is not `'nan'`, one survivor per such row, in their original order. */
  lemma CleanReviewsKeptRows(column: seq<string>)
    ensures var idx := KeptIndices(column, LongEnough);
            |CleanReviews(column)| == |idx|
            && (forall k, l :: 0 <= k < l < |idx| ==> idx[k] < idx[l])
            && (forall i :: 0 <= i < |column| ==>
                  (i in idx <==> |Strip(column[i])| > 1 && Strip(column[i]) != "nan"))
  {
    FilterMapIsKeptImages(column, LongEnough, CleanValue);
    var idx := KeptIndices(column, LongEnough);
    forall i | 0 <= i < |column| && i in idx ensures LongEnough(column[i]) {
      var k :| 0 <= k < |idx| && idx[k] == i;
    }
  }

  /** Each survivor is the stripped value of its row: longer than one character,
      not `'nan'`, and with no whitespace at either end. */
  lemma CleanReviewsSurvivorValues(column: seq<string>)
    ensures var idx := KeptIndices(column, LongEnough);
            var kept := CleanReviews(column);
            |kept| == |idx|
            && forall k :: 0 <= k < |kept| ==>
                 kept[k] == Strip(column[idx[k]]) && |kept[k]| > 1 && kept[k] != "nan"
                 && !IsSpace(kept[k][0]) && !IsSpace(kept[k][|kept[k]| - 1])
  {
    FilterMapIsKeptImages(column, LongEnough, CleanValue);
    var idx := KeptIndices(column, LongEnough);
    var kept := CleanReviews(column);
    forall k | 0 <= k < |kept|
      ensures kept[k] == Strip(column[idx[k]]) && |kept[k]| > 1 && kept[k] != "nan"
      ensures !IsSpace(kept[k][0]) && !IsSpace(kept[k][|kept[k]| - 1])
    {
      assert kept[k] == CleanValue(column[idx[k]]) && LongEnough(column[idx[k]]);
      StripIsTrimmedSlice(column[idx[k]]);
    }
  }

  // ---------------------------------------------------------------- n-grams

  predicate NonEmptyToken(t: string)
  {
    t != ""
  }

  function Same(t: string): string
  {
    t
  }

  /** `[t for t in token_list if t != ""]`. */
  function NonEmpty(tokenList: seq<string>): seq<string>
  {
    FilterMap(tokenList, NonEmptyToken, Same)
  }

  /** `zip(*[token[i:] for i in range(n)])` joined with spaces: one item per window
      of `n` consecutive tokens, as long as the shortest shifted slice lasts. */
  function Windows(token: seq<string>, n: int): seq<string>
    requires n >= 1
    decreases |token|
  {
    if |token| < n then [] else [Join(token[..n], " ")] + Windows(token[1..], n)
  }

  /** `generate_ngrams`: drops empty tokens, returns `[]` when none remain, and
      otherwise joins each window of `n_gram` tokens; `zip()` of no slices is empty,
      so an `n_gram` of zero or less gives `[]` too. */
  function GenerateNgrams(tokenList: seq<string>, nGram: int): seq<string>
  {
    var token := NonEmpty(tokenList);
    if |token| == 0 then []
    else if nGram <= 0 then []
    else Windows(token, nGram)
  }

  /** There are `max(0, m - n + 1)` windows of `n` among `m` tokens. */
  lemma {:induction false} WindowsLength(token: seq<string>, n: int)
    requires n >= 1
    ensures |Windows(token, n)| == Max(0, |token| - n + 1)
    decreases |token|
  {
    if |token| >= n {
      WindowsLength(token[1..], n);
    }
  }

  /** Window `k` exists exactly when `k + n` tokens are there, and joins tokens `k`
      to `k + n - 1`. */
  lemma {:induction false} WindowAt(token: seq<string>, n: int, k: nat)
    requires n >= 1 && k + n <= |token|
    ensures k < |Windows(token, n)| && Windows(token, n)[k] == Join(token[k..k + n], " ")
    decreases k
  {
    if k > 0 {
      var tail := token[1..];
      WindowAt(tail, n, k - 1);
      assert tail[k - 1..k - 1 + n] == token[k..k + n];
    }
  }

  /** There are `max(0, m - n + 1)` windows and window `k` joins tokens `k` to `k + n - 1`. */
  lemma WindowsAt(token: seq<string>, n: int)
    requires n >= 1
    ensures |Windows(token, n)| == Max(0, |token| - n + 1)
    ensures forall k :: 0 <= k < |Windows(token, n)| ==> Windows(token, n)[k] == Join(token[k..k + n], " ")
  {
    WindowsLength(token, n);
    forall k | 0 <= k < |Windows(token, n)| ensures Windows(token, n)[k] == Join(token[k..k + n], " ") {
      WindowAt(token, n, k);
    }
  }

  /** For `n >= 1` and `m` non-empty tokens there are `max(0, m - n + 1)` n-grams,
      item `k` being the space-join of non-empty tokens `k .. k + n - 1`; for `n <= 0`,
      or when every token is empty, there are none. */
  lemma GenerateNgramsSpec(tokenList: seq<string>, n: int)
    ensures var token := NonEmpty(tokenList);
            var grams := GenerateNgrams(tokenList, n);
            (n <= 0 || |token| == 0 ==> grams == [])
            && (n >= 1 ==> |grams| == Max(0, |token| - n + 1))
            && (n >= 1 ==> forall k :: 0 <= k < |grams| ==> grams[k] == Join(token[k..k + n], " "))
  {
    if n >= 1 {
      WindowsAt(NonEmpty(tokenList), n);
    }
  }

  /** The unigrams of a token list are its non-empty tokens, unchanged. */
  lemma {:induction false} UnigramsAreTokens(tokenList: seq<string>)
    ensures GenerateNgrams(tokenList, 1) == NonEmpty(tokenList)
  {
    var token := NonEmpty(tokenList);
    if |token| > 0 {
      WindowsAt(token, 1);
      forall k | 0 <= k < |token| ensures Windows(token, 1)[k] == token[k] {
        assert token[k..k + 1] == [token[k]];
      }
    }
  }

  /** A list with no empty token is its own filtered list. */
  lemma {:induction false} NonEmptyKeepsWords(tokenList: seq<string>)
    requires forall k :: 0 <= k < |tokenList| ==> tokenList[k] != ""
    ensures NonEmpty(tokenList) == tokenList
  {
    if |tokenList| > 0 {
      NonEmptyKeepsWords(tokenList[..|tokenList| - 1]);
      assert tokenList == tokenList[..|tokenList| - 1] + [tokenList[|tokenList| - 1]];
    }
  }

  // ------------------------------------------------------- top-N selection

  /** What numpy's `argsort` promises of its result, and no more: a permutation of
      the row's positions that lists their values in non-decreasing order. The
      order among equal values is unspecified. */
  predicate IsArgsort(row: seq<real>, order: seq<int>)
  {
    |order| == |row|
    && (forall k :: 0 <= k < |order| ==> 0 <= order[k] < |row|)
    && Distinct(order)
    && (forall j :: 0 <= j < |row| ==> j in order)
    && (forall k, l :: 0 <= k < l < |order| ==> row[order[k]] <= row[order[l]])
  }

  /** The start of the Python slice `s[-n:]` on a list of length `len`. */
  function SliceFromEnd(len: nat, n: int): (start: nat)
    ensures start <= len
  {
    if n > 0 then (if n >= len then 0 else len - n)
    else if -n >= len then len
    else -n
  }

  /** `argsort()[-n:][::-1]`. */
  function TopIndices(order: seq<int>, n: int): seq<int>
  {
    Reverse(order[SliceFromEnd(|order|, n)..])
  }

  /** `extract_feature_words`: the `(term, score)` pairs of the top `n` positions of
      row `i`, given that row's argsort. */
  function ExtractFeatureWords(terms: seq<string>, tfidfs: seq<seq<real>>, i: int, n: int, order: seq<int>)
    : (r: seq<(string, real)>)
    requires 0 <= i < |tfidfs| && |terms| == |tfidfs[i]| && IsArgsort(tfidfs[i], order)
    ensures |r| == |TopIndices(order, n)|
  {
    var row := tfidfs[i];
    var top := TopIndices(order, n);
    assert forall k :: 0 <= k < |top| ==> top[k] in order;
    seq(|top|, k requires 0 <= k < |top| => (terms[top[k]], row[top[k]]))
  }

  /** For `n >= 1` there are `min(n, len(row))` pairs, for `n == 0` one per term;
      each pair is the term and score of one position, no position twice; the
      scores do not increase; and no position left out scores higher than one
      selected. */
  lemma ExtractFeatureWordsRanks(terms: seq<string>, tfidfs: seq<seq<real>>, i: int, n: int, order: seq<int>)
    requires 0 <= i < |tfidfs| && |terms| == |tfidfs[i]| && IsArgsort(tfidfs[i], order)
    ensures var row := tfidfs[i];
            var r := ExtractFeatureWords(terms, tfidfs, i, n, order);
            var top := TopIndices(order, n);
            (n >= 1 ==> |r| == Min(n, |row|))
            && (n == 0 ==> |r| == |row|)
            && |top| == |r| && Distinct(top)
            && (forall k :: 0 <= k < |r| ==> 0 <= top[k] < |row| && r[k] == (terms[top[k]], row[top[k]]))
            && (forall k, l :: 0 <= k < l < |r| ==> r[k].1 >= r[l].1)
            && (forall k, j :: 0 <= k < |r| && 0 <= j < |row| && j !in top ==> row[j] <= r[k].1)
  {
    var row := tfidfs[i];
    var s := SliceFromEnd(|order|, n);
    var top := TopIndices(order, n);
    var r := ExtractFeatureWords(terms, tfidfs, i, n, order);
    assert forall k :: 0 <= k < |top| ==> top[k] == order[|order| - 1 - k];
    forall k, l | 0 <= k < l < |top| ensures top[k] != top[l] {
      assert order[|order| - 1 - l] != order[|order| - 1 - k];
    }
    forall k, j | 0 <= k < |r| && 0 <= j < |row| && j !in top ensures row[j] <= r[k].1 {
      assert j in order;
      var p :| 0 <= p < |order| && order[p] == j;
      LateIndicesAreSelected(order, n, p);
      assert row[order[p]] <= row[order[|order| - 1 - k]];
    }
  }

  /** Every position from the start of the slice on is among the selected ones. */
  lemma LateIndicesAreSelected(order: seq<int>, n: int, p: int)
    requires 0 <= p < |order|
    ensures p >= SliceFromEnd(|order|, n) ==> order[p] in TopIndices(order, n)
  {
    if p >= SliceFromEnd(|order|, n) {
      assert TopIndices(order, n)[|order| - 1 - p] == order[p];
    }
  }

  /** Indices `0 .. n - 1`. */
  function Indices(n: nat): (r: seq<int>)
    ensures |r| == n && forall k :: 0 <= k < n ==> r[k] == k
  {
    if n == 0 then [] else Indices(n - 1) + [n - 1]
  }

  predicate InRange(row: seq<real>, s: seq<int>)
  {
    forall k :: 0 <= k < |s| ==> 0 <= s[k] < |row|
  }

  predicate SortedByValue(row: seq<real>, s: seq<int>)
    requires InRange(row, s)
  {
    forall k, l :: 0 <= k < l < |s| ==> row[s[k]] <= row[s[l]]
  }

  /** Inserts position `x` after every position whose value is at most its own. */
  function InsertIndex(row: seq<real>, x: int, s: seq<int>): (r: seq<int>)
    requires 0 <= x < |row| && InRange(row, s)
    ensures InRange(row, r)
    ensures multiset(r) == multiset(s) + multiset{x}
    ensures forall b :: 0 <= b < |r| ==> r[b] == x || r[b] in s
  {
    if |s| == 0 then [x]
    else if row[s[0]] <= row[x] then
      assert s == [s[0]] + s[1..];
      [s[0]] + InsertIndex(row, x, s[1..])
    else [x] + s
  }

  lemma {:induction false} InsertIndexSorted(row: seq<real>, x: int, s: seq<int>)
    requires 0 <= x < |row| && InRange(row, s) && SortedByValue(row, s)
    ensures SortedByValue(row, InsertIndex(row, x, s))
  {
    if |s| > 0 && row[s[0]] <= row[x] {
      var rest := InsertIndex(row, x, s[1..]);
      InsertIndexSorted(row, x, s[1..]);
      forall b | 0 <= b < |rest| ensures row[s[0]] <= row[rest[b]] {
        assert rest[b] == x || rest[b] in s[1..];
      }
    }
  }

  /** Insertion sort of positions by value. */
  function SortIndices(row: seq<real>, s: seq<int>): (r: seq<int>)
    requires InRange(row, s)
    ensures InRange(row, r) && SortedByValue(row, r)
    ensures multiset(r) == multiset(s)
  {
    if |s| == 0 then []
    else
      var front := SortIndices(row, s[..|s| - 1]);
      assert s == s[..|s| - 1] + [s[|s| - 1]];
      InsertIndexSorted(row, s[|s| - 1], front);
      InsertIndex(row, s[|s| - 1], front)
  }

  /** One argsort of the row, which shows that every row has one. */
  function ArgsortOf(row: seq<real>): seq<int>
  {
    SortIndices(row, Indices(|row|))
  }

  lemma {:induction false} IndicesOccurOnce(n: nat, x: int)
    ensures multiset(Indices(n))[x] == if 0 <= x < n then 1 else 0
  {
    if n > 0 {
      IndicesOccurOnce(n - 1, x);
    }
  }

  lemma RepeatedTwice(s: seq<int>, k: int, l: int)
    requires 0 <= k < l < |s| && s[k] == s[l]
    ensures multiset(s)[s[k]] >= 2
  {
    assert s == s[..l] + s[l..];
    assert s[k] in s[..l] && s[l] in s[l..];
  }

  lemma ArgsortOfIsArgsort(row: seq<real>)
    ensures IsArgsort(row, ArgsortOf(row))
  {
    var order := ArgsortOf(row);
    var ids := Indices(|row|);
    assert |order| == |multiset(order)| == |multiset(ids)| == |row|;
    forall j | 0 <= j < |row| ensures j in order {
      IndicesOccurOnce(|row|, j);
      assert j in multiset(order);
    }
    forall k, l | 0 <= k < l < |order| ensures order[k] != order[l] {
      if order[k] == order[l] {
        RepeatedTwice(order, k, l);
        IndicesOccurOnce(|row|, order[k]);
        assert false;
      }
    }
  }

  // ------------------------------------------------------ per-title assembly

  /** One entry of `file_config` once its CSV file is read: the title and the raw
      values of its review column. */
  datatype TitleSource = TitleSource(title: string, column: seq<string>)

  /** `all_ngrams` after the loop over the reviews of one title. */
  function TitleUnigrams(processed: seq<seq<string>>): seq<string>
  {
    if |processed| == 0 then []
    else TitleUnigrams(processed[..|processed| - 1]) + GenerateNgrams(processed[|processed| - 1], 1)
  }

  /** The super-document of one title: its cleaned reviews' unigrams, joined by spaces. */
  function SuperDocument(column: seq<string>, analyse: string -> Parse): string
  {
    Join(TitleUnigrams(PreprocessAll(CleanReviews(column), analyse, StopWords)), " ")
  }

  /** `combined_reviews_by_title` after the loop over the configuration: a later
      entry with the same title replaces an earlier one. */
  function Combined(config: seq<TitleSource>, analyse: string -> Parse): (m: map<string, string>)
    ensures forall k :: 0 <= k < |config| ==> config[k].title in m
  {
    if |config| == 0 then map[]
    else
      var front := config[..|config| - 1];
      var last := config[|config| - 1];
      assert forall k :: 0 <= k < |front| ==> front[k] == config[k];
      Combined(front, analyse)[last.title := SuperDocument(last.column, analyse)]
  }

  lemma TitleUnigramsStep(processed: seq<seq<string>>, r: int)
    requires 0 <= r < |processed|
    ensures TitleUnigrams(processed[..r + 1]) == TitleUnigrams(processed[..r]) + GenerateNgrams(processed[r], 1)
  {
    assert processed[..r + 1][..r] == processed[..r];
  }

  lemma CombinedStep(config: seq<TitleSource>, analyse: string -> Parse, c: int)
    requires 0 <= c < |config|
    ensures Combined(config[..c + 1], analyse)
            == Combined(config[..c], analyse)[config[c].title := SuperDocument(config[c].column, analyse)]
  {
    assert config[..c + 1][..c] == config[..c];
  }

  /** The body of `main`'s loop for one title: clean the column, preprocess each
      review, and join all their unigrams with spaces. */
  method TitleDocument(column: seq<string>, analyse: string -> Parse) returns (document: string)
    ensures document == SuperDocument(column, analyse)
  {
    var gameReviews := CleanReviews(column);
    var processedReviews := PreprocessReviews(gameReviews, analyse, StopWords);
    var allNgrams: seq<string> := [];
    var r := 0;
    while r < |processedReviews|
      invariant 0 <= r <= |processedReviews|
      invariant allNgrams == TitleUnigrams(processedReviews[..r])
    {
      TitleUnigramsStep(processedReviews, r);
      allNgrams := allNgrams + GenerateNgrams(processedReviews[r], 1);
      r := r + 1;
    }
    assert processedReviews[..r] == processedReviews;
    document := Join(allNgrams, " ");
  }

  /** The loop of `main` that fills `combined_reviews_by_title`, followed by
      `document_list = [combined_reviews_by_title[title] for title in titles]`. */
  method AssembleDocuments(config: seq<TitleSource>, analyse: string -> Parse)
    returns (documentList: seq<string>)
    ensures |documentList| == |config|
    ensures forall k :: 0 <= k < |config| ==> documentList[k] == Combined(config, analyse)[config[k].title]
  {
    var combined: map<string, string> := map[];
    var c := 0;
    while c < |config|
      invariant 0 <= c <= |config|
      invariant combined == Combined(config[..c], analyse)
    {
      var document := TitleDocument(config[c].column, analyse);
      CombinedStep(config, analyse, c);
      combined := combined[config[c].title := document];
      c := c + 1;
    }
    assert config[..c] == config;
    documentList := [];
    var k := 0;
    while k < |config|
      invariant 0 <= k <= |config|
      invariant |documentList| == k
      invariant forall m :: 0 <= m < k ==> documentList[m] == combined[config[m].title]
    {
      documentList := documentList + [combined[config[k].title]];
      k := k + 1;
    }
  }

  /** The document of a title is the super-document of the last configuration entry
      with that title; with distinct titles, each entry's own. */
  lemma {:induction false} CombinedLastWins(config: seq<TitleSource>, analyse: string -> Parse, k: int)
    requires 0 <= k < |config|
    requires forall l :: k < l < |config| ==> config[l].title != config[k].title
    ensures Combined(config, analyse)[config[k].title] == SuperDocument(config[k].column, analyse)
  {
    if k < |config| - 1 {
      CombinedLastWins(config[..|config| - 1], analyse, k);
    }
  }

  /** When no word is empty, the unigrams of the reviews are their word lists
      concatenated in review order: taking unigrams changes nothing. */
  lemma {:induction false} TitleUnigramsAreWords(processed: seq<seq<string>>)
    requires forall r, k :: 0 <= r < |processed| && 0 <= k < |processed[r]| ==> processed[r][k] != ""
    ensures TitleUnigrams(processed) == Flatten(processed)
  {
    if |processed| > 0 {
      var last := processed[|processed| - 1];
      TitleUnigramsAreWords(processed[..|processed| - 1]);
      NonEmptyKeepsWords(last);
      UnigramsAreTokens(last);
    }
  }

  /** With distinct titles, document `k` is the space-join of all words of title
      `k`'s cleaned reviews, concatenated in review order. */
  lemma DocumentListIsJoinedWords(config: seq<TitleSource>, analyse: string -> Parse, k: int)
    requires 0 <= k < |config|
    requires forall a, b :: 0 <= a < b < |config| ==> config[a].title != config[b].title
    ensures Combined(config, analyse)[config[k].title]
            == Join(Flatten(PreprocessAll(CleanReviews(config[k].column), analyse, StopWords)), " ")
  {
    CombinedLastWins(config, analyse, k);
    PreprocessAllWordsLong(CleanReviews(config[k].column), analyse, StopWords);
    TitleUnigramsAreWords(PreprocessAll(CleanReviews(config[k].column), analyse, StopWords));
  }

  // ------------------------------------------------------------ ranking table

  /** How many terms are ranked per title. */
  const NFeatures := 50

  /** One row of `df_feature`: term, score, title and 1-based rank. */
  datatype FeatureRow = FeatureRow(featureWordNgram: string, tfidfScore: real, gameTitle: string, rank: int)

  /** The frame of one title: row `k` holds the `k`-th selected pair and rank `k + 1`. */
  predicate IsFeatureFrame(frame: seq<FeatureRow>, pairs: seq<(string, real)>, title: string)
  {
    |frame| == |pairs|
    && forall k :: 0 <= k < |pairs| ==> frame[k] == FeatureRow(pairs[k].0, pairs[k].1, title, k + 1)
  }

  /** A title's frame has `min(n, number of terms)` rows, its ranks run 1, 2, ...,
      every row names the title, and a better rank never has a lower score. */
  lemma FeatureFrameRanked(frame: seq<FeatureRow>, title: string, terms: seq<string>,
                           tfidfs: seq<seq<real>>, i: int, n: int, order: seq<int>)
    requires 0 <= i < |tfidfs| && |terms| == |tfidfs[i]| && IsArgsort(tfidfs[i], order)
    requires IsFeatureFrame(frame, ExtractFeatureWords(terms, tfidfs, i, n, order), title)
    ensures n >= 1 ==> |frame| == Min(n, |tfidfs[i]|)
    ensures forall k :: 0 <= k < |frame| ==> frame[k].rank == k + 1 && frame[k].gameTitle == title
    ensures forall k, l :: 0 <= k < l < |frame| ==> frame[k].tfidfScore >= frame[l].tfidfScore
  {
    var pairs := ExtractFeatureWords(terms, tfidfs, i, n, order);
    ExtractFeatureWordsRanks(terms, tfidfs, i, n, order);
    forall k, l | 0 <= k < l < |frame| ensures frame[k].tfidfScore >= frame[l].tfidfScore {
      assert frame[k].tfidfScore == pairs[k].1 && frame[l].tfidfScore == pairs[l].1;
    }
  }

  /** The loop over `enumerate(titles)` that builds one ranked frame per title from
      its top 50 terms (fewer when the vocabulary is smaller). The argsort of each
      row is an input, constrained only by what `argsort` promises. */
  method FeatureTable(titles: seq<string>, terms: seq<string>, tfidfs: seq<seq<real>>, orders: seq<seq<int>>)
    returns (allFeatureData: seq<seq<FeatureRow>>)
    requires |titles| <= |tfidfs| && |titles| <= |orders|
    requires forall i :: 0 <= i < |titles| ==> |terms| == |tfidfs[i]| && IsArgsort(tfidfs[i], orders[i])
    ensures |allFeatureData| == |titles|
    ensures forall i :: 0 <= i < |titles| ==>
              IsFeatureFrame(allFeatureData[i], ExtractFeatureWords(terms, tfidfs, i, NFeatures, orders[i]), titles[i])
  {
    allFeatureData := [];
    var i := 0;
    while i < |titles|
      invariant 0 <= i <= |titles|
      invariant |allFeatureData| == i
      invariant forall m :: 0 <= m < i ==>
                  IsFeatureFrame(allFeatureData[m], ExtractFeatureWords(terms, tfidfs, m, NFeatures, orders[m]), titles[m])
    {
      var pairs := ExtractFeatureWords(terms, tfidfs, i, NFeatures, orders[i]);
      var frame := [];
      var k := 0;
      while k < |pairs|
        invariant 0 <= k <= |pairs|
        invariant |frame| == k
        invariant forall m :: 0 <= m < k ==> frame[m] == FeatureRow(pairs[m].0, pairs[m].1, titles[i], m + 1)
      {
        frame := frame + [FeatureRow(pairs[k].0, pairs[k].1, titles[i], k + 1)];
        k := k + 1;
      }
      allFeatureData := allFeatureData + [frame];
      i := i + 1;
    }
  }
}
