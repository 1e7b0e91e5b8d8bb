/** The counting logic of sv.py, which analyses the reviews of one game: cleaning
    the review column, word frequencies and their top 20, co-occurrence of word
    pairs within a review and their top 10, and lexicon sentiment per review. */
module ScenarioAnalysis {
  import opened Seqs
  import opened Text
  import opened Tally
  import opened Tokenizer

  /** The positive polarity lexicon (sv.py:19). */
  const PositiveWords: set<string> := {
    "素晴らしい", "感動的", "最高", "名作", "面白い", "良い", "良かった", "好き", "泣く", "神",
    "楽しい", "期待", "カワイイ", "ツナガル", "タノシイ", "アツい", "テンカイ"
  }

  /** The negative polarity lexicon (sv.py:20). */
  const NegativeWords: set<string> := {
    "弱い", "平凡", "残念", "陳腐", "最悪", "ストレス", "評価できない", "微妙", "つまらない", "不満",
    "悪い", "オクレ", "モンダイ", "ムリョウ", "ソガイ", "メンドウ", "サイアク", "コンナン", "ワルイ", "ナンイ"
  }

  /** The stopwords this script filters with (sv.py:23-35). */
  const StopWords: set<string> := {
    "the", "is", "it", "and", "to", "that", "of", "are", "in", "this", "but", "The", "game",
    "for", "you", "they", "we", "can", "have", "not", "will",
    "この", "の", "は", "が", "に", "を", "と", "て", "た", "だ", "し", "もっと", "も", "です", "ます", "けど", "だろ", "それ",
    "いう", "ある", "なる", "する", "いる", "こと", "ない", "できる", "もの", "ため", "そノ", "られる", "れる", "これ",
    "スル", "イル", "イウ", "アル", "ナル", "ナイ", "コト", "デキル", "シレル", "カンズル",
    "ゲーム", "シリーズ", "ポケモン", "ワールド", "オープン", "ホンサク", "プレーヤー", "ルート", "ブブン",
    "レベル", "タメ", "ソノ", "セイリツ", "トオク", "ミエル", "ハツ", "イク", "クル", "オク", "ブタイ", "カンケイ",
    "ホカク", "シュルイ", "タチバ", "マチ", "イチ", "アタリ", "バアイ"
  }

  /** No word is in both lexicons. */
  lemma LexiconsDisjoint()
    ensures PositiveWords * NegativeWords == {}
  {
  }

  // ---------------------------------------------------------------- cleaning

  /** The review column entries that survive: not exactly `'nan'` and not empty. */
  predicate NotMissing(r: string)
  {
    r != "nan" && r != ""
  }

  /** What a surviving entry becomes: every `nan` deleted in one pass, then stripped. */
  function CleanEntry(r: string): string
  {
    Strip(RemoveNan(r))
  }

  /** `[r.replace('nan', '').strip() for r in game_reviews if r != 'nan' and r != '']`. */
  function CleanReviews(column: seq<string>): seq<string>
  {
    FilterMap(column, NotMissing, CleanEntry)
  }

  /** Exactly the entries other than `'nan'` and `''` survive, in order, each one
      cleaned; nothing is filtered after cleaning. */
  lemma CleanReviewsKeepsPresentEntries(column: seq<string>)
    ensures var idx := KeptIndices(column, NotMissing);
            |CleanReviews(column)| == |idx|
            && (forall k :: 0 <= k < |idx| ==> CleanReviews(column)[k] == Strip(RemoveNan(column[idx[k]])))
            && (forall k, l :: 0 <= k < l < |idx| ==> idx[k] < idx[l])
            && (forall i :: 0 <= i < |column| ==> (i in idx <==> column[i] != "nan" && column[i] != ""))
  {
    FilterMapIsKeptImages(column, NotMissing, CleanEntry);
    var idx := KeptIndices(column, NotMissing);
    forall i | 0 <= i < |column| && i in idx ensures NotMissing(column[i]) {
      var k :| 0 <= k < |idx| && idx[k] == i;
    }
  }

  /** Because the empty check runs before stripping, a blank entry survives as the
      empty string, while `'nan'` and `''` are dropped. */
  lemma CleanReviewsKeepsBlank()
    ensures CleanReviews(["nan", "", "  "]) == [""]
  {
    assert ["nan", "", "  "][..2] == ["nan", ""];
    assert ["nan", ""][..1] == ["nan"];
    assert ["nan"][..0] == [];
    assert RemoveNan("  ") == "  " by {
      assert " "[1..] == "";
      assert "  "[1..] == " ";
    }
    assert StripLeft("  ") == "" by {
      assert "  "[1..] == " ";
      assert " "[1..] == "";
    }
  }

  // --------------------------------------------------------------- sentiment

  datatype Label = Positive | Negative | Neutral

  /** `analyze_sentiment`'s result: the label and the two scores. */
  datatype Analysis = Analysis(sentiment: Label, positiveScore: nat, negativeScore: nat)

  /** `sum(1 for word in words if word in lexicon)`: occurrences, with multiplicity. */
  function Occurrences(words: seq<string>, lexicon: set<string>): nat
  {
    if |words| == 0 then 0
    else Occurrences(words[..|words| - 1], lexicon) + (if words[|words| - 1] in lexicon then 1 else 0)
  }

  /** `analyze_sentiment`: the label compares the two scores. */
  function AnalyzeSentiment(words: seq<string>, positiveWords: set<string>, negativeWords: set<string>)
    : (r: Analysis)
    ensures r.positiveScore == Occurrences(words, positiveWords)
    ensures r.negativeScore == Occurrences(words, negativeWords)
    ensures r.sentiment == Positive <==> r.positiveScore > r.negativeScore
    ensures r.sentiment == Negative <==> r.negativeScore > r.positiveScore
    ensures r.sentiment == Neutral <==> r.positiveScore == r.negativeScore
  {
    var positiveScore := Occurrences(words, positiveWords);
    var negativeScore := Occurrences(words, negativeWords);
    var sentiment :=
      if positiveScore > negativeScore then Positive
      else if negativeScore > positiveScore then Negative
      else Neutral;
    Analysis(sentiment, positiveScore, negativeScore)
  }

  /** Occurrences are counted word by word: a list split in two scores the sum of
      its parts, and a single word scores one exactly when it is in the lexicon. */
  lemma {:induction false} OccurrencesAppend(a: seq<string>, b: seq<string>, lexicon: set<string>)
    ensures Occurrences(a + b, lexicon) == Occurrences(a, lexicon) + Occurrences(b, lexicon)
    ensures Occurrences([], lexicon) == 0
    ensures forall w :: Occurrences([w], lexicon) == if w in lexicon then 1 else 0
    decreases |b|
  {
    forall w ensures Occurrences([w], lexicon) == if w in lexicon then 1 else 0 {
      assert [w][..0] == [];
    }
    if |b| == 0 {
      assert a + b == a;
    } else {
      var b' := b[..|b| - 1];
      assert (a + b)[..|a + b| - 1] == a + b';
      OccurrencesAppend(a, b', lexicon);
    }
  }

  /** Two disjoint lexicons together match no more words than the list holds:
      with the script's lexicons, positive plus negative score is at most the
      number of words. */
  lemma {:induction false} OccurrencesDisjointBound(words: seq<string>, lexiconA: set<string>, lexiconB: set<string>)
    requires lexiconA * lexiconB == {}
    ensures Occurrences(words, lexiconA) + Occurrences(words, lexiconB) == Occurrences(words, lexiconA + lexiconB)
    ensures Occurrences(words, lexiconA + lexiconB) <= |words|
  {
    if |words| > 0 {
      OccurrencesDisjointBound(words[..|words| - 1], lexiconA, lexiconB);
      var w := words[|words| - 1];
      assert w !in lexiconA || w !in lexiconB by {
        assert w !in lexiconA * lexiconB;
      }
    }
  }

  /** With the script's own lexicons, the two scores of a review add up to at most
      its number of words. */
  lemma SentimentScoresBounded(words: seq<string>)
    ensures var r := AnalyzeSentiment(words, PositiveWords, NegativeWords);
            r.positiveScore + r.negativeScore <= |words|
  {
    LexiconsDisjoint();
    OccurrencesDisjointBound(words, PositiveWords, NegativeWords);
  }

  /** A review reduced to "楽しい" and "作品" scores one positive word and no negative one. */
  lemma SentimentExample()
    ensures AnalyzeSentiment(["楽しい", "作品"], PositiveWords, NegativeWords) == Analysis(Positive, 1, 0)
  {
    assert ["楽しい", "作品"][..1] == ["楽しい"];
    assert ["楽しい"][..0] == [];
  }

  /** One row of the `results` list: the review's 1-based id, its cleaned text,
      its label and its two scores. */
  datatype SentimentRow = SentimentRow(
    reviewId: int, originalReview: string, sentiment: Label, positiveScore: nat, negativeScore: nat)

  /** The loop over `enumerate(processed_reviews)` that appends one row per review;
      `game_reviews[i]` must exist for every processed review. */
  method SentimentTable(gameReviews: seq<string>, processed: seq<seq<string>>,
                        positiveWords: set<string>, negativeWords: set<string>)
    returns (results: seq<SentimentRow>)
    requires |processed| <= |gameReviews|
    ensures |results| == |processed|
    ensures forall i :: 0 <= i < |results| ==>
              var s := AnalyzeSentiment(processed[i], positiveWords, negativeWords);
              results[i] == SentimentRow(i + 1, gameReviews[i], s.sentiment, s.positiveScore, s.negativeScore)
  {
    results := [];
    var i := 0;
    while i < |processed|
      invariant 0 <= i <= |processed|
      invariant |results| == i
      invariant forall k :: 0 <= k < i ==>
                  var s := AnalyzeSentiment(processed[k], positiveWords, negativeWords);
                  results[k] == SentimentRow(k + 1, gameReviews[k], s.sentiment, s.positiveScore, s.negativeScore)
    {
      var s := AnalyzeSentiment(processed[i], positiveWords, negativeWords);
      results := results + [SentimentRow(i + 1, gameReviews[i], s.sentiment, s.positiveScore, s.negativeScore)];
      i := i + 1;
    }
  }

  // -------------------------------------------------------- word frequency

  /** `Counter([word for sublist in processed_reviews for word in sublist])`. */
  function WordFrequency(processed: seq<seq<string>>): seq<Item<string>>
  {
    Count(Flatten(processed))
  }

  /** Every word's count is its number of occurrences over all reviews, and the
      counts add up to the total number of tokens. */
  lemma WordFrequencyCountsTokens(processed: seq<seq<string>>)
    ensures Total(WordFrequency(processed)) == TotalLength(processed)
    ensures forall w :: Get(WordFrequency(processed), w) == multiset(Flatten(processed))[w]
    ensures KeysDistinct(WordFrequency(processed))
  {
    CountTotalAndKeys(Flatten(processed));
    FlattenLength(processed);
    forall w ensures Get(WordFrequency(processed), w) == multiset(Flatten(processed))[w] {
      CountIsMultiplicity(Flatten(processed), w);
    }
  }

  /** `word_counts.most_common(20)`. */
  function MostCommon(processed: seq<seq<string>>): seq<Item<string>>
  {
    TopByCount(WordFrequency(processed), 20)
  }

  /** At most 20 distinct words, in non-increasing count order, and no word left
      out is more frequent than one listed. */
  lemma MostCommonIsTop20(processed: seq<seq<string>>)
    ensures |MostCommon(processed)| == Min(20, |WordFrequency(processed)|) <= 20
    ensures ByCountDesc(MostCommon(processed))
    ensures multiset(MostCommon(processed)) <= multiset(WordFrequency(processed))
    ensures forall x, y :: x in MostCommon(processed)
              && y in multiset(WordFrequency(processed)) - multiset(MostCommon(processed))
              ==> x.count >= y.count
  {
    TopByCountSelects(WordFrequency(processed), 20);
  }

  // ---------------------------------------------------------- co-occurrence

  /** `tuple(sorted((a, b)))`. */
  function SortedPair(a: string, b: string): (string, string)
  {
    if Less(b, a) then (b, a) else (a, b)
  }

  /** A sorted pair is the two words, the smaller first. */
  lemma SortedPairOrdered(a: string, b: string)
    ensures var p := SortedPair(a, b);
            !Less(p.1, p.0) && ((p.0 == a && p.1 == b) || (p.0 == b && p.1 == a))
  {
    LessAsymmetric(a, b);
  }

  /** The pairs of row `i` of the nested loop, for `j` from `i + 1` up to `j - 1`. */
  function RowPairs(words: seq<string>, i: int, j: int): (ps: seq<(string, string)>)
    requires 0 <= i < j <= |words|
    decreases j
  {
    if j == i + 1 then [] else RowPairs(words, i, j - 1) + [SortedPair(words[i], words[j - 1])]
  }

  /** The pairs of the rows `0` up to `i - 1`, in loop order. */
  function PairsUpTo(words: seq<string>, i: int): seq<(string, string)>
    requires 0 <= i <= |words|
  {
    if i == 0 then [] else PairsUpTo(words, i - 1) + RowPairs(words, i - 1, |words|)
  }

  /** The pairs one review contributes, in the order the loops visit them. */
  function ReviewPairs(words: seq<string>): seq<(string, string)>
  {
    PairsUpTo(words, |words|)
  }

  /** The pairs all reviews contribute, review after review. */
  function AllPairs(processed: seq<seq<string>>): seq<(string, string)>
  {
    if |processed| == 0 then []
    else AllPairs(processed[..|processed| - 1]) + ReviewPairs(processed[|processed| - 1])
  }

  /** The nested loops of sv.py:142-147, which fill `co_occurrence_counts`. */
  method CoOccurrenceCounts(processed: seq<seq<string>>) returns (counts: seq<Item<(string, string)>>)
    ensures counts == Count(AllPairs(processed))
  {
    counts := [];
    var r := 0;
    while r < |processed|
      invariant 0 <= r <= |processed|
      invariant counts == Count(AllPairs(processed[..r]))
    {
      assert processed[..r + 1][..r] == processed[..r];
      counts := CountReviewPairs(counts, processed[r], AllPairs(processed[..r]));
      r := r + 1;
    }
    assert processed[..r] == processed;
  }

  /** The body of the loop over `processed_reviews`: the loop over `i` adds the
      pairs of one review to the counts so far. */
  method CountReviewPairs(counts: seq<Item<(string, string)>>, words: seq<string>,
                          ghost counted: seq<(string, string)>)
    returns (updated: seq<Item<(string, string)>>)
    requires counts == Count(counted)
    ensures updated == Count(counted + ReviewPairs(words))
  {
    updated := counts;
    var i := 0;
    assert counted + PairsUpTo(words, 0) == counted;
    while i < |words|
      invariant 0 <= i <= |words|
      invariant updated == Count(counted + PairsUpTo(words, i))
    {
      updated := CountRowPairs(updated, words, i, counted + PairsUpTo(words, i));
      PairsUpToStep(counted, words, i);
      i := i + 1;
    }
  }

  /** The body of the loop over `i`: the loop over `j` counts the pairs of
      position `i` with every later position. */
  method CountRowPairs(counts: seq<Item<(string, string)>>, words: seq<string>, i: int,
                       ghost counted: seq<(string, string)>)
    returns (updated: seq<Item<(string, string)>>)
    requires 0 <= i < |words| && counts == Count(counted)
    ensures updated == Count(counted + RowPairs(words, i, |words|))
  {
    updated := counts;
    var j := i + 1;
    assert counted + RowPairs(words, i, j) == counted;
    while j < |words|
      invariant i + 1 <= j <= |words|
      invariant updated == Count(counted + RowPairs(words, i, j))
    {
      var pair := SortedPair(words[i], words[j]);
      CountRowStep(counted, words, i, j);
      updated := Increment(updated, pair);
      j := j + 1;
    }
  }

  lemma PairsUpToStep(counted: seq<(string, string)>, words: seq<string>, i: int)
    requires 0 <= i < |words|
    ensures counted + PairsUpTo(words, i) + RowPairs(words, i, |words|) == counted + PairsUpTo(words, i + 1)
  {
  }

  /** Counting one more pair of row `i` continues the counts of the row so far. */
  lemma CountRowStep(counted: seq<(string, string)>, words: seq<string>, i: int, j: int)
    requires 0 <= i < j < |words|
    ensures Count(counted + RowPairs(words, i, j + 1))
            == Increment(Count(counted + RowPairs(words, i, j)), SortedPair(words[i], words[j]))
  {
    var pair := SortedPair(words[i], words[j]);
    CountSnoc(counted + RowPairs(words, i, j), pair);
    assert counted + RowPairs(words, i, j + 1) == counted + RowPairs(words, i, j) + [pair];
  }

  /** Row `i` holds `j - i - 1` pairs, the pair of `i` and `m` at position `m - i - 1`. */
  lemma {:induction false} RowPairsContents(words: seq<string>, i: int, j: int)
    requires 0 <= i < j <= |words|
    ensures |RowPairs(words, i, j)| == j - i - 1
    ensures forall m :: i < m < j ==> RowPairs(words, i, j)[m - i - 1] == SortedPair(words[i], words[m])
    decreases j
  {
    if j > i + 1 {
      RowPairsContents(words, i, j - 1);
    }
  }

  /** The first `i` rows hold `i * (2n - i - 1) / 2` pairs. */
  lemma {:induction false} PairsUpToLength(words: seq<string>, i: int)
    requires 0 <= i <= |words|
    ensures 2 * |PairsUpTo(words, i)| == i * (2 * |words| - i - 1)
  {
    if i > 0 {
      PairsUpToLength(words, i - 1);
      RowPairsContents(words, i - 1, |words|);
      RowArithmetic(i, |words|);
    }
  }

  lemma RowArithmetic(i: int, n: int)
    ensures (i - 1) * (2 * n - i) + 2 * (n - i) == i * (2 * n - i - 1)
  {
  }

  /** A review of `n` words contributes `n(n-1)/2` pairs. */
  lemma ReviewPairsLength(words: seq<string>)
    ensures 2 * |ReviewPairs(words)| == |words| * (|words| - 1)
  {
    PairsUpToLength(words, |words|);
  }

  /** The sum over the reviews of `n(n-1)/2`. */
  function PairTotal(processed: seq<seq<string>>): nat
  {
    if |processed| == 0 then 0
    else
      var n := |processed[|processed| - 1]|;
      PairTotal(processed[..|processed| - 1]) + n * (n - 1) / 2
  }

  /** Each review of `n` words adds exactly `n(n-1)/2` to the sum of all counts. */
  lemma {:induction false} CoOccurrenceTotal(processed: seq<seq<string>>)
    ensures Total(Count(AllPairs(processed))) == PairTotal(processed)
    ensures |AllPairs(processed)| == PairTotal(processed)
  {
    CountTotalAndKeys(AllPairs(processed));
    if |processed| > 0 {
      CoOccurrenceTotal(processed[..|processed| - 1]);
      ReviewPairsLength(processed[|processed| - 1]);
    }
  }

  /** Every pair of a row is sorted. */
  lemma {:induction false} RowPairsOrdered(words: seq<string>, i: int, j: int)
    requires 0 <= i < j <= |words|
    ensures forall p :: p in RowPairs(words, i, j) ==> !Less(p.1, p.0)
    decreases j
  {
    if j > i + 1 {
      RowPairsOrdered(words, i, j - 1);
      SortedPairOrdered(words[i], words[j - 1]);
    }
  }

  /** Every pair of the first `i` rows is sorted. */
  lemma {:induction false} PairsUpToOrdered(words: seq<string>, i: int)
    requires 0 <= i <= |words|
    ensures forall p :: p in PairsUpTo(words, i) ==> !Less(p.1, p.0)
  {
    if i > 0 {
      PairsUpToOrdered(words, i - 1);
      RowPairsOrdered(words, i - 1, |words|);
    }
  }

  /** Every pair the loops count is sorted. */
  lemma {:induction false} AllPairsOrdered(processed: seq<seq<string>>)
    ensures forall p :: p in AllPairs(processed) ==> !Less(p.1, p.0)
  {
    if |processed| > 0 {
      AllPairsOrdered(processed[..|processed| - 1]);
      var words := processed[|processed| - 1];
      PairsUpToOrdered(words, |words|);
    }
  }

  /** The pairs of row `m` are among the pairs of the first `i` rows when `m < i`. */
  lemma {:induction false} RowInPairsUpTo(words: seq<string>, m: int, i: int)
    requires 0 <= m < i <= |words|
    ensures forall p :: p in RowPairs(words, m, |words|) ==> p in PairsUpTo(words, i)
  {
    if m < i - 1 {
      RowInPairsUpTo(words, m, i - 1);
    }
  }

  /** Every key of `co_occurrence_counts` is a sorted pair. */
  lemma CoOccurrenceKeysSorted(processed: seq<seq<string>>)
    ensures forall p :: p in Keys(Count(AllPairs(processed))) ==> !Less(p.1, p.0)
  {
    CountTotalAndKeys(AllPairs(processed));
    AllPairsOrdered(processed);
  }

  /** Any two positions `i < j` of one review are counted: their sorted pair has a
      count of at least one. In particular a word occurring twice in a review
      yields the key `(w, w)`. */
  lemma {:induction false} CoOccurrenceCountsEveryPair(processed: seq<seq<string>>, r: int, i: int, j: int)
    requires 0 <= r < |processed| && 0 <= i < j < |processed[r]|
    ensures Get(Count(AllPairs(processed)), SortedPair(processed[r][i], processed[r][j])) >= 1
    ensures processed[r][i] == processed[r][j] ==>
              Get(Count(AllPairs(processed)), (processed[r][i], processed[r][i])) >= 1
  {
    var words := processed[r];
    var p := SortedPair(words[i], words[j]);
    RowPairsContents(words, i, |words|);
    assert RowPairs(words, i, |words|)[j - i - 1] == p;
    RowInPairsUpTo(words, i, |words|);
    AllPairsMembers(processed, r, p);
    CountIsMultiplicity(AllPairs(processed), p);
    if words[i] == words[j] {
      LessAsymmetric(words[i], words[i]);
    }
  }

  /** A pair of one review is among the pairs of all reviews. */
  lemma {:induction false} AllPairsMembers(processed: seq<seq<string>>, r: int, p: (string, string))
    requires 0 <= r < |processed| && p in ReviewPairs(processed[r])
    ensures p in AllPairs(processed)
  {
    if r < |processed| - 1 {
      AllPairsMembers(processed[..|processed| - 1], r, p);
    }
  }

  /** `sorted(co_occurrence_counts.items(), key=count, reverse=True)[:10]`. */
  function TopPairs(counts: seq<Item<(string, string)>>): seq<Item<(string, string)>>
  {
    TopByCount(counts, 10)
  }

  /** At most ten pairs, sorted, in non-increasing count order, and no pair left out
      has a larger count than one listed. */
  lemma TopPairsIsTop10(processed: seq<seq<string>>)
    ensures var counts := Count(AllPairs(processed));
            var top := TopPairs(counts);
            |top| == Min(10, |counts|) <= 10
            && ByCountDesc(top)
            && multiset(top) <= multiset(counts)
            && (forall x, y :: x in top && y in multiset(counts) - multiset(top) ==> x.count >= y.count)
            && (forall x :: x in top ==> !Less(x.key.1, x.key.0))
  {
    var counts := Count(AllPairs(processed));
    var top := TopPairs(counts);
    TopByCountSelects(counts, 10);
    CoOccurrenceKeysSorted(processed);
    forall x | x in top ensures !Less(x.key.1, x.key.0) {
      assert x in multiset(counts);
      var a :| 0 <= a < |counts| && counts[a] == x;
      assert x.key in Keys(counts);
    }
  }

  // --------------------------------------------------------------- pipeline

  /** `processed_reviews = [preprocess_text(review) for review in game_reviews]`, with
      this script's stopwords. */
  function ProcessedReviews(gameReviews: seq<string>, analyse: string -> Parse): (r: seq<seq<string>>)
    ensures |r| == |gameReviews|
  {
    PreprocessAll(gameReviews, analyse, StopWords)
  }

  /** From the raw review column to the `results` list: clean the column, preprocess
      every cleaned review, and label each one. There is one row per cleaned review,
      and row `i` pairs cleaned review `i` with the label of its own words. */
  method ScenarioSentiment(column: seq<string>, analyse: string -> Parse) returns (results: seq<SentimentRow>)
    ensures var gameReviews := CleanReviews(column);
            var processed := ProcessedReviews(gameReviews, analyse);
            |results| == |gameReviews|
            && forall i :: 0 <= i < |results| ==>
                 var s := AnalyzeSentiment(processed[i], PositiveWords, NegativeWords);
                 results[i] == SentimentRow(i + 1, gameReviews[i], s.sentiment, s.positiveScore, s.negativeScore)
  {
    var gameReviews := CleanReviews(column);
    var processed := PreprocessReviews(gameReviews, analyse, StopWords);
    results := SentimentTable(gameReviews, processed, PositiveWords, NegativeWords);
  }

  /** Every word listed by `most_common(20)` for the column is longer than one
      character, since the counter only ever sees words the filter kept. */
  lemma MostCommonWordsAreLong(column: seq<string>, analyse: string -> Parse)
    ensures forall x :: x in MostCommon(ProcessedReviews(CleanReviews(column), analyse)) ==> |x.key| > 1
  {
    var gameReviews := CleanReviews(column);
    var processed := ProcessedReviews(gameReviews, analyse);
    PreprocessAllWordsLong(gameReviews, analyse, StopWords);
    FlattenAll(processed, (w: string) => |w| > 1);
    CountTotalAndKeys(Flatten(processed));
    MostCommonIsTop20(processed);
    var freq := WordFrequency(processed);
    forall x | x in MostCommon(processed) ensures |x.key| > 1 {
      assert x in multiset(freq);
      var i :| 0 <= i < |freq| && freq[i] == x;
      assert x.key in Keys(freq);
    }
  }
}
