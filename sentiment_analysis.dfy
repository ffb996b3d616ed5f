/** `src/sentiment_analysis.py`: the label and score given to one review. The
    VADER analyzer is a parameter: a function from the review text to its
    `compound` polarity, a real number. */
module SentimentAnalysis {
  import opened Text
  import opened CleanReviews

  datatype Label = Positive | Neutral | Negative

  /** Labels in the order of the scores they stand for. */
  function Rank(l: Label): int {
    match l
    case Negative => -1
    case Neutral => 0
    case Positive => 1
  }

  /** The thresholds on the compound score: at least 0.05 is positive, at most
      -0.05 is negative, and the open interval between them is neutral. */
  function LabelFor(compound: real): (l: Label)
    ensures l == Positive <==> compound >= 0.05
    ensures l == Negative <==> compound <= -0.05
    ensures l == Neutral <==> -0.05 < compound < 0.05
  {
    if compound >= 0.05 then Positive
    else if compound <= -0.05 then Negative
    else Neutral
  }

  /** A higher score never gets a lower label. */
  lemma {:induction false} LabelMonotone(a: real, b: real)
    requires a <= b
    ensures Rank(LabelFor(a)) <= Rank(LabelFor(b))
  {
  }

  /** `text.strip() == ""`. */
  predicate IsBlank(s: string) {
    Strip(s) == ""
  }

  /** A text is blank exactly when all its characters are whitespace. */
  lemma {:induction false} BlankIffAllSpace(s: string)
    ensures IsBlank(s) <==> forall i :: 0 <= i < |s| ==> IsSpace(s[i])
  {
    var n := RunLength(s, IsSpace);
    if IsBlank(s) {
      TrimEndEmpty(s[n..]);
      assert n == |s|;
    } else {
      assert n < |s|;
    }
  }

  lemma {:induction false} TrimEndEmpty(t: string)
    requires TrimEnd(t) == ""
    ensures forall i :: 0 <= i < |t| ==> IsSpace(t[i])
    decreases |t|
  {
    if t != [] {
      var init := t[..|t| - 1];
      assert IsSpace(t[|t| - 1]);
      TrimEndEmpty(init);
      forall i | 0 <= i < |t| ensures IsSpace(t[i]) {
        if i < |t| - 1 {
          assert t[i] == init[i];
        }
      }
    }
  }

  datatype Sentiment = Sentiment(tag: Label, score: real)

  /** `analyze_sentiment`: a missing or blank review is neutral with score 0.0
      and is never shown to the analyzer; any other review gets the analyzer's
      compound score and the label its thresholds give. */
  function AnalyzeSentiment(text: Field, polarity: string -> real): (r: Sentiment)
    ensures text.NonStr? || IsBlank(text.s) ==> r == Sentiment(Neutral, 0.0)
    ensures text.Str? && !IsBlank(text.s) ==> r.score == polarity(text.s)
    ensures r.tag == LabelFor(r.score)
  {
    if text.NonStr? || Strip(text.s) == "" then Sentiment(Neutral, 0.0)
    else
      var compound := polarity(text.s);
      Sentiment(LabelFor(compound), compound)
  }

  /** Two analyzers that agree on a review's text give it the same result, and
      on a missing or blank review every analyzer gives the same result. */
  lemma {:induction false} AnalyzerOnlyGivesTheScore(text: Field, p: string -> real, q: string -> real)
    requires text.NonStr? || IsBlank(text.s) || p(text.s) == q(text.s)
    ensures AnalyzeSentiment(text, p) == AnalyzeSentiment(text, q)
  {
  }

  /** VADER's compound lies in [-1, 1], and so does every returned score. */
  lemma {:induction false} ScoreInRange(text: Field, polarity: string -> real)
    requires forall s :: -1.0 <= polarity(s) <= 1.0
    ensures -1.0 <= AnalyzeSentiment(text, polarity).score <= 1.0
  {
  }

  /** A cleaned review is blank only when it is empty, so every non-empty output
      of `clean_text` is scored by the analyzer. */
  lemma {:induction false} CleanedBlankIsEmpty(text: Field)
    ensures IsBlank(CleanText(text)) <==> CleanText(text) == ""
  {
    var r := CleanText(text);
    BlankIffAllSpace(r);
    if r != [] {
      assert !IsSpace(r[0]);
    }
  }
}
