/** `src/Analysis.py`: keyword frequencies, the per-bank metrics the script
    stores in `bank_insights`, sentiment by rating, and the best and worst rated
    banks. */
module Analysis {
  import opened Common
  import opened Text
  import opened Ranking
  import opened SentimentAnalysis
  import opened Corpus

  /** The stopwords of `extract_keywords`; unlike the phrase extractor's list it
      holds `good` and `bad` and lacks `please`, `cant`, `use` and the like. */
  const KeywordStopwords: set<string> := {
    "the", "and", "for", "this", "that", "with", "have", "has", "had",
    "was", "were", "are", "but", "not", "you", "your", "they", "their",
    "what", "from", "been", "will", "would", "could",
    "should", "about", "when", "where", "which", "there", "here",
    "just", "like", "very", "much", "many", "some", "then", "than",
    "also", "only", "even", "well", "good", "bad", "app", "bank"
  }

  // ----------------------------------------------------------------- tokenising

  /** The maximal runs of word characters (`\w+`) of `s`, left to right. */
  function WordRuns(s: string): (runs: seq<string>)
    ensures forall w :: w in runs ==> IsRun(w, IsWordChar)
  {
    Runs(s, IsWordChar)
  }

  /** The runs, put back together, are exactly the word characters of `s` in
      order: no word character is lost, split off or invented. */
  lemma {:induction false} WordRunsKeepWordChars(s: string)
    ensures Concat(WordRuns(s)) == Keep(s, IsWordChar)
  {
    RunsKeep(s, IsWordChar);
  }

  /** The runs are maximal: words of word characters separated by a non-empty
      separator without word characters, with any such separator before and
      after, come back as exactly those words, in order. */
  lemma {:induction false} WordRunsOfJoin(lead: string, ws: seq<string>, sep: string, trail: string)
    requires forall w :: w in ws ==> IsRun(w, IsWordChar)
    requires |sep| > 0 && NoneOf(sep, IsWordChar)
    requires NoneOf(lead, IsWordChar) && NoneOf(trail, IsWordChar)
    ensures WordRuns(lead + Join(ws, sep) + trail) == ws
  {
    RunsJoinPadded(lead, ws, sep, trail, IsWordChar);
  }

  /** What `\b[a-z]{3,}\b` matches: a whole word run of at least three
      lower-case letters. A run with a digit or `_` in it, or of one or two
      letters, yields no match at all, since there is no word boundary inside
      a run. */
  predicate IsKeywordToken(w: string) { |w| >= 3 && AllLowerLetters(w) }

  /** `re.findall(r'\b[a-z]{3,}\b', ' '.join(texts).lower())`. */
  function KeywordTokens(texts: seq<string>): (tokens: seq<string>)
    ensures forall w :: w in tokens <==> w in WordRuns(Lower(Join(texts, " "))) && IsKeywordToken(w)
  {
    Keep(WordRuns(Lower(Join(texts, " "))), IsKeywordToken)
  }

  /** Each keyword token occurs among the tokens as often as it occurs as a
      word run of the lower-cased joined text; any other string not at all. */
  lemma {:induction false} KeywordTokensCount(texts: seq<string>, w: string)
    ensures multiset(KeywordTokens(texts))[w] ==
      if IsKeywordToken(w) then multiset(WordRuns(Lower(Join(texts, " "))))[w] else 0
  {
    KeepCount(WordRuns(Lower(Join(texts, " "))), IsKeywordToken, w);
  }

  /** The texts are joined with a space, which is not a word character, so the
      tokens of the texts are those of each text in turn. */
  lemma {:induction false} KeywordTokensAppend(texts: seq<string>, t: string)
    ensures KeywordTokens(texts + [t]) == KeywordTokens(texts) + KeywordTokens([t])
  {
    if texts == [] {
      assert texts + [t] == [t];
      assert WordRuns(Lower("")) == [];
    } else {
      WordRunsJoinSnoc(texts, t);
      assert Join([t], " ") == t;
      KeepAppend(WordRuns(Lower(Join(texts, " "))), WordRuns(Lower(t)), IsKeywordToken);
    }
  }

  /** Lower-casing the texts joined with one more text. */
  lemma {:induction false} LowerJoinSnoc(texts: seq<string>, t: string)
    requires texts != []
    ensures Lower(Join(texts + [t], " ")) == Lower(Join(texts, " ")) + " " + Lower(t)
  {
    var joined := Join(texts, " ");
    JoinSnoc(texts, t, " ");
    LowerAppend(joined + " ", t);
    LowerAppend(joined, " ");
    assert Lower(" ") == " ";
  }

  /** The word runs of the texts joined with one more text. */
  lemma {:induction false} WordRunsJoinSnoc(texts: seq<string>, t: string)
    requires texts != []
    ensures WordRuns(Lower(Join(texts + [t], " "))) == WordRuns(Lower(Join(texts, " "))) + WordRuns(Lower(t))
  {
    LowerJoinSnoc(texts, t);
    var sp := " ";
    assert !IsWordChar(sp[0]);
    RunsAround(Lower(Join(texts, " ")), sp, Lower(t), IsWordChar);
  }

  predicate NotKeywordStopword(w: string) { w !in KeywordStopwords }

  /** The tokens that are not stopwords, in order. */
  function FilteredKeywords(texts: seq<string>): (words: seq<string>)
    ensures forall w :: w in words ==> IsKeywordToken(w) && w !in KeywordStopwords
  {
    Keep(KeywordTokens(texts), NotKeywordStopword)
  }

  /** `extract_keywords(texts, top_n)`: at most `top_n` words, none of them a
      stopword, each with its number of occurrences among the filtered tokens,
      most frequent first. */
  function ExtractKeywords(texts: seq<string>, topN: int): (r: seq<Entry>)
    ensures topN >= 0 ==> |r| <= topN
    ensures forall e :: e in r ==>
      && IsKeywordToken(e.key) && e.key !in KeywordStopwords
      && e.count == multiset(FilteredKeywords(texts))[e.key] > 0
    ensures NonIncreasing(r)
  {
    var words := FilteredKeywords(texts);
    MostCommonCounts(words, topN);
    MostCommon(Tally(words), topN)
  }

  /** A word left out of the result is at most as frequent as the last one
      returned, and only when `top_n` entries were returned. */
  lemma {:induction false} ExtractKeywordsIsTop(texts: seq<string>, topN: int, w: string)
    requires w in FilteredKeywords(texts)
    ensures var r := ExtractKeywords(texts, topN);
      (exists e :: e in r && e.key == w) || topN <= 0 ||
      (|r| == topN && multiset(FilteredKeywords(texts))[w] <= r[topN - 1].count)
  {
    var words := FilteredKeywords(texts);
    var t := Tally(words);
    assert w in Keys(t);
    var i :| 0 <= i < |t| && Keys(t)[i] == w;
    MostCommonIsTop(t, topN, t[i]);
  }

  /** Equally frequent words come in the order they first occur in the text. */
  lemma {:induction false} ExtractKeywordsTies(texts: seq<string>, topN: int)
    ensures var r := ExtractKeywords(texts, topN);
      forall i, j :: 0 <= i < j < |r| && r[i].count == r[j].count ==>
        FirstIndex(FilteredKeywords(texts), r[i].key) < FirstIndex(FilteredKeywords(texts), r[j].key)
  {
    var words := FilteredKeywords(texts);
    MostCommonTiesInFirstSeenOrder(Tally(words), words, topN);
  }

  /** No texts, or texts without a keyword, give no keywords. */
  lemma {:induction false} ExtractKeywordsEmpty(texts: seq<string>, topN: int)
    requires FilteredKeywords(texts) == []
    ensures ExtractKeywords(texts, topN) == []
  {
    var words := FilteredKeywords(texts);
    TallyOfNothing(words);
    assert |MostCommon(Tally(words), topN)| == 0;
  }

  // ---------------------------------------------------------- sentiment by rating

  /** `analyze_sentiment_by_rating`: for each rating from 1 to 5 that some review
      has, the mean sentiment score of the reviews with that rating. */
  method SentimentByRating(bankRows: seq<ScoredReview>) returns (results: map<int, real>)
    ensures forall r :: r in results <==>
      1 <= r <= 5 && exists i :: 0 <= i < |bankRows| && bankRows[i].rating == r
    ensures forall r :: r in results ==>
      |Keep(bankRows, WithRating(r))| > 0 && results[r] == Mean(Scores(Keep(bankRows, WithRating(r))))
  {
    results := map[];
    for rating := 1 to 6
      invariant forall r :: r in results <==>
        1 <= r < rating && exists i :: 0 <= i < |bankRows| && bankRows[i].rating == r
      invariant forall r :: r in results ==>
        |Keep(bankRows, WithRating(r))| > 0 && results[r] == Mean(Scores(Keep(bankRows, WithRating(r))))
    {
      var ratingRows := Keep(bankRows, WithRating(rating));
      RatingPresent(bankRows, rating);
      if |ratingRows| > 0 {
        results := results[rating := Mean(Scores(ratingRows))];
      }
    }
  }

  lemma {:induction false} RatingPresent(rows: seq<ScoredReview>, rating: int)
    ensures |Keep(rows, WithRating(rating))| > 0 <==>
      exists i :: 0 <= i < |rows| && rows[i].rating == rating
  {
    var kept := Keep(rows, WithRating(rating));
    if |kept| > 0 {
      assert kept[0] in kept;
    }
    if exists i :: 0 <= i < |rows| && rows[i].rating == rating {
      var i :| 0 <= i < |rows| && rows[i].rating == rating;
      assert rows[i] in kept;
    }
  }

  // ------------------------------------------------------------- per-bank counts

  /** The number of reviews with each rating from 1 to 5 (`value_counts`, with
      0 for a rating nobody gave). */
  function RatingDistribution(bankRows: seq<ScoredReview>): (counts: seq<nat>)
    ensures |counts| == 5
    ensures forall r :: 1 <= r <= 5 ==> counts[r - 1] == |Keep(bankRows, WithRating(r))| <= |bankRows|
  {
    seq(5, i requires 0 <= i < 5 => |Keep(bankRows, WithRating(i + 1))|)
  }

  predicate IsStarRating(row: ScoredReview) { 1 <= row.rating <= 5 }

  /** The five counts add up to the number of reviews rated 1 to 5: to the whole
      frame when every rating is in range. */
  lemma {:induction false} RatingDistributionSums(bankRows: seq<ScoredReview>)
    ensures var d := RatingDistribution(bankRows);
      d[0] + d[1] + d[2] + d[3] + d[4] == |Keep(bankRows, IsStarRating)| <= |bankRows|
    ensures (forall i :: 0 <= i < |bankRows| ==> 1 <= bankRows[i].rating <= 5) ==>
      var d := RatingDistribution(bankRows);
      d[0] + d[1] + d[2] + d[3] + d[4] == |bankRows|
  {
    RatingCountsAddUp(bankRows);
    if forall i :: 0 <= i < |bankRows| ==> 1 <= bankRows[i].rating <= 5 {
      KeepAllPass(bankRows, IsStarRating);
    }
  }

  lemma {:induction false} RatingCountsAddUp(rows: seq<ScoredReview>)
    ensures |Keep(rows, WithRating(1))| + |Keep(rows, WithRating(2))| + |Keep(rows, WithRating(3))|
      + |Keep(rows, WithRating(4))| + |Keep(rows, WithRating(5))| == |Keep(rows, IsStarRating)|
    decreases |rows|
  {
    if rows != [] {
      RatingCountsAddUp(rows[..|rows| - 1]);
    }
  }

  /** A review is never both positive and negative, so the two counts together
      are at most the number of reviews. */
  lemma {:induction false} PositiveNegativeDisjoint(rows: seq<ScoredReview>)
    ensures |Keep(rows, IsPositive)| + |Keep(rows, IsNegative)| <= |rows|
  {
    KeepDisjoint(rows, IsPositive, IsNegative);
  }

  // -------------------------------------------------------------- bank_insights

  /** One value of `bank_insights`. The percentages the script stores are the
      two counts divided by `totalReviews` and scaled by 100. */
  datatype Insight = Insight(
    totalReviews: nat,
    avgRating: real,
    avgSentiment: real,
    positiveReviews: nat,
    negativeReviews: nat,
    positiveKeywords: seq<Entry>,
    negativeKeywords: seq<Entry>)

  /** The reviews of `bank` that `select` picks, as a column of texts. */
  function SelectedReviews(rows: seq<ScoredReview>, bank: string, select: ScoredReview -> bool): (texts: seq<string>)
    ensures |texts| <= |rows|
    ensures forall t :: t in texts <==> exists i :: 0 <= i < |rows| && SelectedAt(rows, bank, select, i, t)
  {
    var picked := Keep(Keep(rows, OfBank(bank)), select);
    var texts := ReviewColumn(picked);
    forall t ensures t in texts <==> exists i :: 0 <= i < |rows| && SelectedAt(rows, bank, select, i, t) {
      if t in texts {
        var k :| 0 <= k < |texts| && texts[k] == t;
        assert picked[k] in picked;
        var i :| 0 <= i < |rows| && rows[i] == picked[k];
        assert SelectedAt(rows, bank, select, i, t);
      }
      if exists i :: 0 <= i < |rows| && SelectedAt(rows, bank, select, i, t) {
        var i :| 0 <= i < |rows| && SelectedAt(rows, bank, select, i, t);
        assert rows[i] in Keep(rows, OfBank(bank));
        assert rows[i] in picked;
        var k :| 0 <= k < |picked| && picked[k] == rows[i];
        assert texts[k] == t;
      }
    }
    texts
  }

  /** Row `i` is of `bank`, is picked by `select`, and has review text `t`. */
  predicate SelectedAt(rows: seq<ScoredReview>, bank: string, select: ScoredReview -> bool, i: int, t: string)
    requires 0 <= i < |rows|
  {
    rows[i].bank == bank && select(rows[i]) && rows[i].review == t
  }

  /** The keyword list stored for the last of `banks`. The script extracts
      keywords for a bank only when it has reviews with the label, and
      otherwise stores whatever list the variable still holds: the one of the
      nearest earlier bank that had such reviews, or `[]` before the first. */
  function CarriedKeywords(rows: seq<ScoredReview>, banks: seq<string>, select: ScoredReview -> bool): (keywords: seq<Entry>)
    ensures |keywords| <= 8 && NonIncreasing(keywords)
    ensures forall e :: e in keywords ==> IsKeywordToken(e.key) && e.key !in KeywordStopwords && e.count > 0
    decreases |banks|
  {
    if banks == [] then []
    else
      var bank := banks[|banks| - 1];
      var texts := SelectedReviews(rows, bank, select);
      if |texts| > 0 then ExtractKeywords(texts, 8)
      else CarriedKeywords(rows, banks[..|banks| - 1], select)
  }

  /** A bank that has reviews with the label gets its own keywords. */
  lemma {:induction false} OwnKeywordsWhenPresent(rows: seq<ScoredReview>, banks: seq<string>, select: ScoredReview -> bool)
    requires banks != [] && |SelectedReviews(rows, banks[|banks| - 1], select)| > 0
    ensures CarriedKeywords(rows, banks, select) ==
      ExtractKeywords(SelectedReviews(rows, banks[|banks| - 1], select), 8)
  {
  }

  /** The list held after visiting `banks` is the one extracted for the latest
      of them that has reviews with the label: later banks without such
      reviews leave it in place. */
  lemma {:induction false} CarriedFromLatest(rows: seq<ScoredReview>, banks: seq<string>, select: ScoredReview -> bool, j: nat)
    requires j < |banks| && |SelectedReviews(rows, banks[j], select)| > 0
    requires forall k :: j < k < |banks| ==> SelectedReviews(rows, banks[k], select) == []
    ensures CarriedKeywords(rows, banks, select) == ExtractKeywords(SelectedReviews(rows, banks[j], select), 8)
    decreases |banks|
  {
    if j < |banks| - 1 {
      var init := banks[..|banks| - 1];
      assert forall k :: j < k < |init| ==> init[k] == banks[k];
      CarriedFromLatest(rows, init, select, j);
    }
  }

  /** When no visited bank has reviews with the label, the list is still the
      initial `[]`. */
  lemma {:induction false} CarriedNone(rows: seq<ScoredReview>, banks: seq<string>, select: ScoredReview -> bool)
    requires forall k :: 0 <= k < |banks| ==> SelectedReviews(rows, banks[k], select) == []
    ensures CarriedKeywords(rows, banks, select) == []
    decreases |banks|
  {
    if banks != [] {
      var init := banks[..|banks| - 1];
      assert forall k :: 0 <= k < |init| ==> init[k] == banks[k];
      CarriedNone(rows, init, select);
    }
  }

  /** The metrics of one bank, given the keyword lists the loop holds. */
  function InsightOf(rows: seq<ScoredReview>, bank: string, positiveKeywords: seq<Entry>, negativeKeywords: seq<Entry>): (insight: Insight)
    ensures CountsBounded(insight)
    ensures insight.totalReviews > 0 <==> exists i :: 0 <= i < |rows| && rows[i].bank == bank
    ensures insight.positiveKeywords == positiveKeywords && insight.negativeKeywords == negativeKeywords
  {
    var bankRows := Keep(rows, OfBank(bank));
    PositiveNegativeDisjoint(bankRows);
    BankPresent(rows, bank);
    Insight(|bankRows|, Mean(Ratings(bankRows)), Mean(Scores(bankRows)),
      |Keep(bankRows, IsPositive)|, |Keep(bankRows, IsNegative)|,
      positiveKeywords, negativeKeywords)
  }

  /** The entry the loop stores when it reaches the last of `visited`, with the
      keyword lists it holds at that point. */
  function InsightAt(rows: seq<ScoredReview>, visited: seq<string>): Insight
  {
    var bank := if visited == [] then "" else visited[|visited| - 1];
    InsightOf(rows, bank, CarriedKeywords(rows, visited, IsPositive), CarriedKeywords(rows, visited, IsNegative))
  }

  /** `bank_insights` after the loop has visited `banks`: one assignment
      `bank_insights[bank] = {...}` per visited bank, in order. */
  function InsightsFor(rows: seq<ScoredReview>, banks: seq<string>): (insights: map<string, Insight>)
    ensures forall b :: b in insights <==> b in banks
    ensures forall b :: b in insights ==> CountsBounded(insights[b])
  {
    AssignedAll(banks, Visit(rows), CountsBounded);
    Assigned(banks, Visit(rows))
  }

  function Visit(rows: seq<ScoredReview>): seq<string> -> Insight {
    (visited: seq<string>) => InsightAt(rows, visited)
  }

  /** The loop over `df['bank'].unique()` that fills `bank_insights`. */
  method AnalyzeBanks(rows: seq<ScoredReview>) returns (banks: seq<string>, insights: map<string, Insight>)
    ensures banks == Banks(rows)
    ensures insights == InsightsFor(rows, banks)
  {
    banks := Banks(rows);
    insights := map[];
    var positiveKeywords: seq<Entry> := [];
    var negativeKeywords: seq<Entry> := [];
    for i := 0 to |banks|
      invariant insights == InsightsFor(rows, banks[..i])
      invariant positiveKeywords == CarriedKeywords(rows, banks[..i], IsPositive)
      invariant negativeKeywords == CarriedKeywords(rows, banks[..i], IsNegative)
    {
      var bank := banks[i];
      var positiveTexts := SelectedReviews(rows, bank, IsPositive);
      var negativeTexts := SelectedReviews(rows, bank, IsNegative);
      if |positiveTexts| > 0 {
        positiveKeywords := ExtractKeywords(positiveTexts, 8);
      }
      if |negativeTexts| > 0 {
        negativeKeywords := ExtractKeywords(negativeTexts, 8);
      }
      CarriedStep(rows, banks, i, IsPositive);
      CarriedStep(rows, banks, i, IsNegative);
      InsightsStep(rows, banks, i);
      insights := insights[bank := InsightOf(rows, bank, positiveKeywords, negativeKeywords)];
    }
    assert banks[..|banks|] == banks;
  }

  lemma {:induction false} InsightsStep(rows: seq<ScoredReview>, banks: seq<string>, i: nat)
    requires i < |banks|
    ensures InsightsFor(rows, banks[..i + 1]) == InsightsFor(rows, banks[..i])[banks[i] := InsightOf(rows, banks[i],
      CarriedKeywords(rows, banks[..i + 1], IsPositive), CarriedKeywords(rows, banks[..i + 1], IsNegative))]
  {
    var visited := banks[..i + 1];
    assert visited[..i] == banks[..i] && visited[i] == banks[i];
    assert InsightsFor(rows, visited) == InsightsFor(rows, banks[..i])[banks[i] := InsightAt(rows, visited)];
  }

  /** With distinct banks, as `unique()` gives, the entry of the `i`-th bank holds
      that bank's metrics and the keyword lists the loop held at that point. */
  lemma {:induction false} InsightsValue(rows: seq<ScoredReview>, banks: seq<string>, i: nat)
    requires forall j, k :: 0 <= j < k < |banks| ==> banks[j] != banks[k]
    requires i < |banks|
    ensures banks[i] in InsightsFor(rows, banks)
    ensures InsightsFor(rows, banks)[banks[i]] == InsightOf(rows, banks[i],
      CarriedKeywords(rows, banks[..i + 1], IsPositive), CarriedKeywords(rows, banks[..i + 1], IsNegative))
  {
    var visited := banks[..i + 1];
    AssignedEntry(banks, Visit(rows), i);
    assert visited[|visited| - 1] == banks[i];
    assert Visit(rows)(visited) == InsightAt(rows, visited);
  }

  /** Positive plus negative reviews are at most all reviews. */
  predicate CountsBounded(insight: Insight) {
    insight.positiveReviews + insight.negativeReviews <= insight.totalReviews
  }

  lemma {:induction false} CarriedStep(rows: seq<ScoredReview>, banks: seq<string>, i: nat, select: ScoredReview -> bool)
    requires i < |banks|
    ensures CarriedKeywords(rows, banks[..i + 1], select) ==
      var texts := SelectedReviews(rows, banks[i], select);
      if |texts| > 0 then ExtractKeywords(texts, 8) else CarriedKeywords(rows, banks[..i], select)
  {
    assert banks[..i + 1][..i] == banks[..i];
  }

  // ------------------------------------------------------------ best and worst

  /** `idxmax`: the first position holding the largest value. */
  function FirstMaxIndex(xs: seq<real>): (i: nat)
    requires |xs| > 0
    ensures i < |xs|
    ensures forall j :: 0 <= j < |xs| ==> xs[j] <= xs[i]
    ensures forall j :: 0 <= j < i ==> xs[j] < xs[i]
    decreases |xs|
  {
    if |xs| == 1 then 0
    else
      var k := FirstMaxIndex(xs[..|xs| - 1]);
      if xs[|xs| - 1] > xs[k] then |xs| - 1 else k
  }

  /** `idxmin`: the first position holding the smallest value. */
  function FirstMinIndex(xs: seq<real>): (i: nat)
    requires |xs| > 0
    ensures i < |xs|
    ensures forall j :: 0 <= j < |xs| ==> xs[i] <= xs[j]
    ensures forall j :: 0 <= j < i ==> xs[i] < xs[j]
    decreases |xs|
  {
    if |xs| == 1 then 0
    else
      var k := FirstMinIndex(xs[..|xs| - 1]);
      if xs[|xs| - 1] < xs[k] then |xs| - 1 else k
  }

  /** The `Avg Rating` column of the comparison table, one row per bank. */
  function AverageRatings(banks: seq<string>, insights: map<string, Insight>): (avgs: seq<real>)
    requires forall b :: b in banks ==> b in insights
    ensures |avgs| == |banks| && forall i :: 0 <= i < |banks| ==> avgs[i] == insights[banks[i]].avgRating
  {
    seq(|banks|, i requires 0 <= i < |banks| => insights[banks[i]].avgRating)
  }

  /** The best and the worst rated bank; `idxmax` on an empty table raises, so
      there is no answer without banks. */
  function BestAndWorst(banks: seq<string>, insights: map<string, Insight>): (r: Option<(string, string)>)
    requires forall b :: b in banks ==> b in insights
    ensures r.None? <==> banks == []
    ensures r.Some? ==> var (best, worst) := r.value;
      && best in banks && worst in banks
      && (forall b :: b in banks ==> insights[b].avgRating <= insights[best].avgRating)
      && (forall b :: b in banks ==> insights[worst].avgRating <= insights[b].avgRating)
      && (forall j :: 0 <= j < FirstIndex(banks, best) ==> insights[banks[j]].avgRating < insights[best].avgRating)
      && (forall j :: 0 <= j < FirstIndex(banks, worst) ==> insights[worst].avgRating < insights[banks[j]].avgRating)
  {
    if banks == [] then None
    else
      var avgs := AverageRatings(banks, insights);
      var best, worst := FirstMaxIndex(avgs), FirstMinIndex(avgs);
      BestBank(banks, insights, best);
      WorstBank(banks, insights, worst);
      Some((banks[best], banks[worst]))
  }

  /** The bank at `idxmax` has the top average, and every bank listed before
      it has a lower one. */
  lemma {:induction false} BestBank(banks: seq<string>, insights: map<string, Insight>, best: nat)
    requires forall b :: b in banks ==> b in insights
    requires |banks| > 0 && best == FirstMaxIndex(AverageRatings(banks, insights))
    ensures forall b :: b in banks ==> insights[b].avgRating <= insights[banks[best]].avgRating
    ensures forall j :: 0 <= j < FirstIndex(banks, banks[best]) ==>
      insights[banks[j]].avgRating < insights[banks[best]].avgRating
  {
    var avgs := AverageRatings(banks, insights);
    forall b | b in banks ensures insights[b].avgRating <= insights[banks[best]].avgRating {
      var j :| 0 <= j < |banks| && banks[j] == b;
      assert avgs[j] <= avgs[best];
    }
    assert FirstIndex(banks, banks[best]) <= best;
  }

  /** The bank at `idxmin` has the lowest average, and every bank listed
      before it has a higher one. */
  lemma {:induction false} WorstBank(banks: seq<string>, insights: map<string, Insight>, worst: nat)
    requires forall b :: b in banks ==> b in insights
    requires |banks| > 0 && worst == FirstMinIndex(AverageRatings(banks, insights))
    ensures forall b :: b in banks ==> insights[banks[worst]].avgRating <= insights[b].avgRating
    ensures forall j :: 0 <= j < FirstIndex(banks, banks[worst]) ==>
      insights[banks[worst]].avgRating < insights[banks[j]].avgRating
  {
    var avgs := AverageRatings(banks, insights);
    forall b | b in banks ensures insights[banks[worst]].avgRating <= insights[b].avgRating {
      var j :| 0 <= j < |banks| && banks[j] == b;
      assert avgs[worst] <= avgs[j];
    }
    assert FirstIndex(banks, banks[worst]) <= worst;
  }
}
