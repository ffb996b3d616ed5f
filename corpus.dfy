/** The scored review table that `src/Analysis.py` and `src/Insights.py` both
    read (`processed_reviews_sentiment.csv`), and the row selections both
    scripts make on it with pandas boolean masks. */
module Corpus {
  import opened Common
  import opened Ranking
  import opened SentimentAnalysis

  /** One row: the review text after `fillna('')`, so always a string, its star
      rating, the bank, and the sentiment label and score. */
  datatype ScoredReview = ScoredReview(bank: string, review: string, rating: int, tag: Label, score: real)

  /** `df['review']` as a list. */
  function ReviewColumn(rows: seq<ScoredReview>): (texts: seq<string>)
    ensures |texts| == |rows| && forall i :: 0 <= i < |rows| ==> texts[i] == rows[i].review
  {
    seq(|rows|, i requires 0 <= i < |rows| => rows[i].review)
  }

  function BankColumn(rows: seq<ScoredReview>): (banks: seq<string>)
    ensures |banks| == |rows| && forall i :: 0 <= i < |rows| ==> banks[i] == rows[i].bank
  {
    seq(|rows|, i requires 0 <= i < |rows| => rows[i].bank)
  }

  /** `df['bank'].unique()`: each bank once, in order of first appearance. */
  function Banks(rows: seq<ScoredReview>): (banks: seq<string>)
    ensures NoRepeats(banks)
    ensures SameBanks(banks, rows)
    ensures InFirstAppearanceOrder(banks, rows)
  {
    UniqueBanksDistinct(rows);
    UniqueBanksMembers(rows);
    UniqueBanksOrder(rows);
    Keys(Tally(BankColumn(rows)))
  }

  predicate NoRepeats(banks: seq<string>) {
    forall i, j :: 0 <= i < j < |banks| ==> banks[i] != banks[j]
  }

  /** `banks` lists exactly the banks that occur in `rows`. */
  ghost predicate SameBanks(banks: seq<string>, rows: seq<ScoredReview>) {
    forall b :: b in banks <==> exists i :: 0 <= i < |rows| && rows[i].bank == b
  }

  /** `banks` are listed in the order in which they first occur in `rows`. */
  predicate InFirstAppearanceOrder(banks: seq<string>, rows: seq<ScoredReview>) {
    forall i, j :: 0 <= i < j < |banks| ==>
      FirstIndex(BankColumn(rows), banks[i]) < FirstIndex(BankColumn(rows), banks[j])
  }

  lemma {:induction false} UniqueBanksDistinct(rows: seq<ScoredReview>)
    ensures NoRepeats(Keys(Tally(BankColumn(rows))))
  {
  }

  lemma {:induction false} UniqueBanksMembers(rows: seq<ScoredReview>)
    ensures SameBanks(Keys(Tally(BankColumn(rows))), rows)
  {
    var column := BankColumn(rows);
    var banks := Keys(Tally(column));
    assert forall b :: b in banks <==> b in column;
    forall b | b in column ensures exists i :: 0 <= i < |rows| && rows[i].bank == b {
      var i :| 0 <= i < |column| && column[i] == b;
    }
  }

  lemma {:induction false} UniqueBanksOrder(rows: seq<ScoredReview>)
    ensures InFirstAppearanceOrder(Keys(Tally(BankColumn(rows))), rows)
  {
  }

  // ------------------------------------------------------------- row selections

  /** `df[df['bank'] == bank]`. */
  function OfBank(bank: string): ScoredReview -> bool {
    (row: ScoredReview) => row.bank == bank
  }

  /** `df[df['rating'] == rating]`. */
  function WithRating(rating: int): ScoredReview -> bool {
    (row: ScoredReview) => row.rating == rating
  }

  predicate IsPositive(row: ScoredReview) { row.tag == Positive }

  predicate IsNegative(row: ScoredReview) { row.tag == Negative }

  /** Four or five stars. */
  predicate IsHighRating(row: ScoredReview) { row.rating >= 4 }

  /** One or two stars. */
  predicate IsLowRating(row: ScoredReview) { row.rating <= 2 }

  /** Every bank of `unique()` has a non-empty frame. */
  lemma {:induction false} BanksNonEmpty(rows: seq<ScoredReview>)
    ensures forall b :: b in Banks(rows) ==> |Keep(rows, OfBank(b))| > 0
  {
    forall b | b in Banks(rows) ensures |Keep(rows, OfBank(b))| > 0 {
      BankRowsNonEmpty(rows, b);
    }
  }

  /** Rows of a bank that is in `unique()` form a non-empty frame. */
  lemma {:induction false} BankRowsNonEmpty(rows: seq<ScoredReview>, bank: string)
    requires bank in Banks(rows)
    ensures |Keep(rows, OfBank(bank))| > 0
  {
    BankPresent(rows, bank);
  }

  /** A bank's frame is non-empty exactly when some row has that bank. */
  lemma {:induction false} BankPresent(rows: seq<ScoredReview>, bank: string)
    ensures |Keep(rows, OfBank(bank))| > 0 <==> exists i :: 0 <= i < |rows| && rows[i].bank == bank
  {
    var kept := Keep(rows, OfBank(bank));
    if |kept| > 0 {
      assert kept[0] in kept;
    }
    if exists i :: 0 <= i < |rows| && rows[i].bank == bank {
      var i :| 0 <= i < |rows| && rows[i].bank == bank;
      assert rows[i] in kept;
    }
  }

  // ------------------------------------------------------------------- averages

  function Sum(xs: seq<real>): real
    decreases |xs|
  {
    if xs == [] then 0.0 else xs[0] + Sum(xs[1..])
  }

  /** `Series.mean()` in exact arithmetic. pandas gives NaN for an empty column;
      here that case is 0.0, and no caller reaches it (every bank of `unique()`
      has rows, and `analyze_sentiment_by_rating` skips empty ratings). */
  function Mean(xs: seq<real>): (m: real)
    ensures xs != [] ==> m * (|xs| as real) == Sum(xs)
    ensures xs == [] ==> m == 0.0
  {
    if xs == [] then 0.0 else Sum(xs) / (|xs| as real)
  }

  function Scores(rows: seq<ScoredReview>): (scores: seq<real>)
    ensures |scores| == |rows| && forall i :: 0 <= i < |rows| ==> scores[i] == rows[i].score
  {
    seq(|rows|, i requires 0 <= i < |rows| => rows[i].score)
  }

  function Ratings(rows: seq<ScoredReview>): (ratings: seq<real>)
    ensures |ratings| == |rows| && forall i :: 0 <= i < |rows| ==> ratings[i] == rows[i].rating as real
  {
    seq(|rows|, i requires 0 <= i < |rows| => rows[i].rating as real)
  }

  /** A mean lies between the smallest and the largest value. */
  lemma {:induction false} SumBounds(xs: seq<real>, lo: real, hi: real)
    requires forall i :: 0 <= i < |xs| ==> lo <= xs[i] <= hi
    ensures (|xs| as real) * lo <= Sum(xs) <= (|xs| as real) * hi
    decreases |xs|
  {
    if xs != [] {
      SumBounds(xs[1..], lo, hi);
    }
  }

  lemma {:induction false} MeanBounds(xs: seq<real>, lo: real, hi: real)
    requires |xs| > 0
    requires forall i :: 0 <= i < |xs| ==> lo <= xs[i] <= hi
    ensures lo <= Mean(xs) <= hi
  {
    SumBounds(xs, lo, hi);
    var n := |xs| as real;
    assert Sum(xs) / n >= lo by {
      assert Sum(xs) >= n * lo;
    }
    assert Sum(xs) / n <= hi by {
      assert Sum(xs) <= n * hi;
    }
  }
}
