/** `src/Insights.py`: meaningful two-word phrases, the issue taxonomy, and the
    per-bank drivers, pain points, issue counts and `bank_insights`. */
module Insights {
  import opened Common
  import opened Text
  import opened Ranking
  import opened Corpus

  /** The phrase extractor's stopwords. Unlike the keyword extractor's list it
      keeps `good` and `bad` and drops `please`, `cant`, `use` and the like. */
  const PhraseStopwords: set<string> := {
    "the", "and", "for", "this", "that", "with", "have", "has", "had",
    "was", "were", "are", "but", "not", "you", "your", "they", "their",
    "what", "from", "been", "will", "would", "could",
    "should", "about", "when", "where", "which", "there", "here",
    "just", "like", "very", "much", "many", "some", "then", "than",
    "also", "only", "even", "well", "app", "bank", "please", "cant",
    "dont", "doesnt", "its", "one", "all", "now", "use", "used", "using"
  }

  // ------------------------------------------------------------------ tokenising

  /** What `[^\w\s]` does not match. */
  predicate IsWordOrSpace(c: char) { IsWordChar(c) || IsSpace(c) }

  /** A word that survives the filter: longer than two characters and not a
      stopword. */
  predicate IsPhraseToken(w: string) { w !in PhraseStopwords && |w| > 2 }

  /** A token as the filter leaves it: non-empty, no whitespace, and made of
      lower-case `\w` characters. */
  predicate IsPhraseWord(w: string) {
    && IsPhraseToken(w) && NoSpace(w)
    && forall i :: 0 <= i < |w| ==> IsWordChar(w[i]) && !IsUpper(w[i])
  }

  /** `' '.join(texts).lower()` with `re.sub(r'[^\w\s]', '', ...)` applied. */
  function PhraseText(texts: seq<string>): (s: string)
    ensures forall c :: c in s ==> IsWordOrSpace(c) && !IsUpper(c)
  {
    var lowered := Lower(Join(texts, " "));
    var s := Keep(lowered, IsWordOrSpace);
    assert forall c :: c in s ==> !IsUpper(c) by {
      forall c | c in s ensures !IsUpper(c) {
        var i :| 0 <= i < |lowered| && lowered[i] == c;
      }
    }
    s
  }

  /** `filtered_words`: the words of the cleaned text, split on whitespace,
      without stopwords and words of one or two characters. */
  function PhraseTokens(texts: seq<string>): (tokens: seq<string>)
    ensures forall w :: w in tokens ==> IsPhraseWord(w)
  {
    CleanTokensArePhraseWords(PhraseText(texts));
    Keep(Split(PhraseText(texts)), IsPhraseToken)
  }

  lemma {:induction false} CleanTokensArePhraseWords(s: string)
    requires forall c :: c in s ==> IsWordOrSpace(c) && !IsUpper(c)
    ensures forall w :: w in Keep(Split(s), IsPhraseToken) ==> IsPhraseWord(w)
  {
    forall w | w in Keep(Split(s), IsPhraseToken) ensures IsPhraseWord(w) {
      assert w in Split(s);
      forall i | 0 <= i < |w| ensures IsWordChar(w[i]) && !IsUpper(w[i]) {
        assert w[i] in w;
        RunsFrom(s, NotSpace, w, w[i]);
        assert !IsSpace(w[i]);
      }
    }
  }

  /** The texts are joined with a space, which survives the character filter
      and separates words, so the filtered words of the texts are those of
      each text in turn. */
  lemma {:induction false} PhraseTokensAppend(texts: seq<string>, t: string)
    ensures PhraseTokens(texts + [t]) == PhraseTokens(texts) + PhraseTokens([t])
  {
    if texts == [] {
      assert texts + [t] == [t];
      assert PhraseText([]) == [];
      assert Split([]) == [];
    } else {
      var joined := Join(texts, " ");
      JoinSnoc(texts, t, " ");
      LowerAppend(joined + " ", t);
      LowerAppend(joined, " ");
      var sp := " ";
      assert Lower(sp) == sp;
      assert Keep(sp, IsWordOrSpace) == sp by {
        KeepCons(' ', [], IsWordOrSpace);
      }
      KeepAppend(Lower(joined) + sp, Lower(t), IsWordOrSpace);
      KeepAppend(Lower(joined), sp, IsWordOrSpace);
      assert PhraseText(texts + [t]) == PhraseText(texts) + sp + PhraseText([t]);
      SplitAppend(PhraseText(texts), PhraseText([t]));
      KeepAppend(Split(PhraseText(texts)), Split(PhraseText([t])), IsPhraseToken);
    }
  }

  /** `[' '.join(words[i:i+2]) for i in range(len(words) - 1)]`: each pair of
      adjacent words joined by one space. */
  function Bigrams(words: seq<string>): (bigrams: seq<string>)
    ensures |bigrams| == if |words| < 2 then 0 else |words| - 1
    ensures forall i :: 0 <= i < |bigrams| ==> bigrams[i] == words[i] + " " + words[i + 1]
    decreases |words|
  {
    if |words| < 2 then []
    else
      var n := |words|;
      Bigrams(words[..n - 1]) + [words[n - 2] + " " + words[n - 1]]
  }

  /** The number of positions where `a` is directly followed by `b`. */
  function AdjacentCount(words: seq<string>, a: string, b: string): nat
    decreases |words|
  {
    if |words| < 2 then 0
    else
      var n := |words|;
      AdjacentCount(words[..n - 1], a, b) + if words[n - 2] == a && words[n - 1] == b then 1 else 0
  }

  /** Bigrams run across review boundaries: the last filtered word of the
      earlier texts and the first of the next text form a bigram. */
  lemma {:induction false} BigramAcrossReviews(texts: seq<string>, t: string)
    requires PhraseTokens(texts) != [] && PhraseTokens([t]) != []
    ensures var a, b := PhraseTokens(texts), PhraseTokens([t]);
      a[|a| - 1] + " " + b[0] in Bigrams(PhraseTokens(texts + [t]))
  {
    PhraseTokensAppend(texts, t);
    BigramAtJoin(PhraseTokens(texts), PhraseTokens([t]));
  }

  lemma {:induction false} BigramAtJoin(a: seq<string>, b: seq<string>)
    requires a != [] && b != []
    ensures a[|a| - 1] + " " + b[0] in Bigrams(a + b)
  {
    var words := a + b;
    assert words[|a| - 1] == a[|a| - 1] && words[|a|] == b[0];
    assert Bigrams(words)[|a| - 1] == a[|a| - 1] + " " + b[0];
  }

  /** Two words without whitespace are recovered from their bigram. */
  lemma {:induction false} BigramInjective(a: string, b: string, c: string, d: string)
    requires |a| > 0 && |b| > 0 && |c| > 0 && |d| > 0
    requires NoSpace(a) && NoSpace(b) && NoSpace(c) && NoSpace(d)
    ensures a + " " + b == c + " " + d <==> a == c && b == d
  {
    SplitPair(a, b);
    SplitPair(c, d);
  }

  /** Each bigram occurs in the bigram list once per position where its first
      word is directly followed by its second. */
  lemma {:induction false} BigramCount(words: seq<string>, a: string, b: string)
    requires forall w :: w in words ==> |w| > 0 && NoSpace(w)
    requires |a| > 0 && |b| > 0 && NoSpace(a) && NoSpace(b)
    ensures multiset(Bigrams(words))[a + " " + b] == AdjacentCount(words, a, b)
    decreases |words|
  {
    if |words| >= 2 {
      var n := |words|;
      var init := words[..n - 1];
      assert words[n - 2] in words && words[n - 1] in words;
      assert init[n - 2] == words[n - 2];
      BigramInjective(words[n - 2], words[n - 1], a, b);
      BigramCount(init, a, b);
    }
  }

  /** Every bigram of filtered words is two filtered words and one space, and
      `split()` gives the two words back. */
  lemma {:induction false} BigramParts(words: seq<string>, key: string) returns (a: string, b: string)
    requires forall w :: w in words ==> IsPhraseWord(w)
    requires key in Bigrams(words)
    ensures IsPhraseWord(a) && IsPhraseWord(b) && key == a + " " + b && Split(key) == [a, b]
  {
    var bigrams := Bigrams(words);
    var i :| 0 <= i < |bigrams| && bigrams[i] == key;
    a, b := words[i], words[i + 1];
    assert a in words && b in words;
    SplitPair(a, b);
  }

  // ---------------------------------------------------------- meaningful phrases

  /** What `extract_meaningful_phrases(texts, top_n)` returns: the `top_n` most
      common bigrams of the filtered words. */
  function MeaningfulPhrases(texts: seq<string>, topN: int): (phrases: seq<Entry>)
    ensures topN >= 0 ==> |phrases| <= topN
    ensures forall e :: e in phrases ==>
      e.key in Bigrams(PhraseTokens(texts)) && e.count == multiset(Bigrams(PhraseTokens(texts)))[e.key] > 0
    ensures NonIncreasing(phrases)
  {
    var bigrams := Bigrams(PhraseTokens(texts));
    MostCommonCounts(bigrams, topN);
    MostCommon(Tally(bigrams), topN)
  }

  /** The re-check on `bigram.split()` inside the loop. */
  predicate PassesRecheck(words: seq<string>)
    requires |words| >= 2
  {
    words[0] !in PhraseStopwords && words[1] !in PhraseStopwords && |words[0]| > 2 && |words[1]| > 2
  }

  /** `extract_meaningful_phrases`: the filtered words of the texts, then their
      bigrams ranked. */
  method ExtractMeaningfulPhrases(texts: seq<string>, topN: int) returns (phrases: seq<Entry>)
    ensures phrases == MeaningfulPhrases(texts, topN)
  {
    var words := PhraseTokens(texts);
    phrases := RankBigrams(words, topN);
  }

  /** The second half of `extract_meaningful_phrases`: counts the bigrams of the
      filtered words, walks `most_common(2 * top_n)`, keeps the bigrams that
      pass the re-check, and stops after `top_n` of them. */
  method RankBigrams(words: seq<string>, topN: int) returns (phrases: seq<Entry>)
    requires forall w :: w in words ==> IsPhraseWord(w)
    ensures phrases == MostCommon(Tally(Bigrams(words)), topN)
  {
    var bigrams := Bigrams(words);
    var candidates := MostCommon(Tally(bigrams), 2 * topN);
    phrases := [];
    var i := 0;
    while i < |candidates|
      invariant i <= |candidates|
      invariant phrases == candidates[..i]
      invariant i == 0 || i < topN
    {
      var entry := candidates[i];
      CandidatePassesRecheck(words, 2 * topN, entry);
      var pair := Split(entry.key);
      if PassesRecheck(pair) {
        PrefixSnoc(candidates, i);
        phrases := phrases + [entry];
        if |phrases| >= topN {
          TakePrefix(candidates, topN, i + 1);
          break;
        }
      } else {
        assert false;
      }
      i := i + 1;
    }
    if i == |candidates| {
      TakePrefix(candidates, topN, i);
    }
    MostCommonPrefix(Tally(bigrams), 2 * topN, topN);
  }

  /** The re-check never rejects a candidate: the filtered words it splits back
      out already passed the same test. */
  lemma {:induction false} CandidatePassesRecheck(words: seq<string>, n: int, entry: Entry)
    requires forall w :: w in words ==> IsPhraseWord(w)
    requires entry in MostCommon(Tally(Bigrams(words)), n)
    ensures |Split(entry.key)| == 2 && PassesRecheck(Split(entry.key))
  {
    var bigrams := Bigrams(words);
    MostCommonCounts(bigrams, n);
    var a, b := BigramParts(words, entry.key);
  }

  /** The phrase list is never longer than `top_n`, and holds every distinct
      bigram when there are fewer than `top_n` of them. */
  lemma {:induction false} PhrasesLength(texts: seq<string>, topN: int)
    ensures var r := MeaningfulPhrases(texts, topN);
      var distinct := |Tally(Bigrams(PhraseTokens(texts)))|;
      |r| == if topN <= 0 then 0 else if topN < distinct then topN else distinct
  {
  }

  /** Every phrase is two filtered words joined by a space, and its count is the
      number of places where the first word is directly followed by the
      second in the filtered words of all the texts joined together. */
  lemma {:induction false} PhrasesAreCountedBigrams(texts: seq<string>, topN: int, e: Entry)
    requires e in MeaningfulPhrases(texts, topN)
    ensures var words := Split(e.key);
      && |words| == 2 && e.key == words[0] + " " + words[1]
      && IsPhraseWord(words[0]) && IsPhraseWord(words[1])
      && e.count == AdjacentCount(PhraseTokens(texts), words[0], words[1]) > 0
  {
    var tokens := PhraseTokens(texts);
    var bigrams := Bigrams(tokens);
    assert e.key in bigrams && e.count == multiset(bigrams)[e.key] > 0 by {
      MostCommonCounts(bigrams, topN);
    }
    var a, b := BigramParts(tokens, e.key);
    assert forall w :: w in tokens ==> |w| > 0 && NoSpace(w);
    BigramCount(tokens, a, b);
  }

  /** Counts never increase along the phrase list, equally frequent phrases come
      in the order they first occur, and a bigram left out is no more frequent
      than the last phrase returned. */
  lemma {:induction false} PhrasesRanked(texts: seq<string>, topN: int)
    ensures var r := MeaningfulPhrases(texts, topN);
      var bigrams := Bigrams(PhraseTokens(texts));
      && NonIncreasing(r)
      && (forall i, j :: 0 <= i < j < |r| && r[i].count == r[j].count ==>
            FirstIndex(bigrams, r[i].key) < FirstIndex(bigrams, r[j].key))
      && (forall e :: e in Tally(bigrams) ==> e in r || topN <= 0 || (|r| == topN && e.count <= r[topN - 1].count))
  {
    var es := Tally(Bigrams(PhraseTokens(texts)));
    MostCommonTiesInFirstSeenOrder(es, Bigrams(PhraseTokens(texts)), topN);
    forall e | e in es ensures e in MostCommon(es, topN) || topN <= 0 ||
      (|MostCommon(es, topN)| == topN && e.count <= MostCommon(es, topN)[topN - 1].count)
    {
      MostCommonIsTop(es, topN, e);
    }
  }

  /** Fewer than two filtered words give no phrases. */
  lemma {:induction false} FewWordsNoPhrases(texts: seq<string>, topN: int)
    requires |PhraseTokens(texts)| < 2
    ensures MeaningfulPhrases(texts, topN) == []
  {
    var bigrams := Bigrams(PhraseTokens(texts));
    assert bigrams == [];
    TallyOfNothing(bigrams);
    assert |MostCommon(Tally(bigrams), topN)| == 0;
  }

  // ---------------------------------------------------------- issue categories

  /** A named list of keywords: one item of the `categories` or `common_issues`
      dict, which iterate in the order written. */
  datatype Theme = Theme(name: string, keywords: seq<string>)

  /** The taxonomy of `categorize_issue`, in declared order. */
  const IssueCategories: seq<Theme> := [
    Theme("Technical Issues", ["crash", "bug", "error", "issue", "problem", "working", "work", "fix", "update"]),
    Theme("Performance", ["slow", "lag", "loading", "speed", "time", "wait", "fast", "quick"]),
    Theme("Usability", ["easy", "hard", "difficult", "simple", "complex", "interface", "design", "user"]),
    Theme("Features", ["feature", "transfer", "payment", "login", "password", "account", "balance"]),
    Theme("Customer Service", ["support", "service", "help", "response", "contact"]),
    Theme("Security", ["secure", "safe", "trust", "password", "login", "verification"]),
    Theme("General Sentiment", ["best", "worst", "nice", "great", "good", "bad", "super", "excellent", "terrible"])
  ]

  /** `any(kw in text for kw in keywords)`. */
  function MentionsAny(text: string, keywords: seq<string>): (found: bool)
    ensures found <==> exists k :: 0 <= k < |keywords| && Contains(text, keywords[k])
    decreases |keywords|
  {
    if keywords == [] then false
    else if Contains(text, keywords[0]) then true
    else
      var found := MentionsAny(text, keywords[1..]);
      assert found ==> exists k :: 0 <= k < |keywords| && Contains(text, keywords[k]) by {
        if found {
          var k :| 0 <= k < |keywords[1..]| && Contains(text, keywords[1..][k]);
          assert keywords[k + 1] == keywords[1..][k];
        }
      }
      found
  }

  /** The position of the first theme, in order, that `text` mentions, or the
      number of themes when it mentions none. */
  function FirstMentioned(text: string, themes: seq<Theme>): (k: nat)
    ensures k <= |themes|
    ensures k < |themes| ==> MentionsAny(text, themes[k].keywords)
    ensures forall j :: 0 <= j < k ==> !MentionsAny(text, themes[j].keywords)
    decreases |themes|
  {
    if themes == [] then 0
    else if MentionsAny(text, themes[0].keywords) then 0
    else
      var k := FirstMentioned(text, themes[1..]);
      assert forall j :: 1 <= j < k + 1 ==> themes[j] == themes[1..][j - 1];
      k + 1
  }

  /** `categorize_issue`: the first category, in declared order, with a keyword
      that occurs in the lower-cased phrase, or `"Other"`. */
  function CategorizeIssue(phrase: string): (category: string)
    ensures category in CategoryLabels
    ensures category == "Other" || exists j :: (
      && 0 <= j < |IssueCategories|
      && category == IssueCategories[j].name
      && MentionsAny(Lower(phrase), IssueCategories[j].keywords))
  {
    var k := FirstMentioned(Lower(phrase), IssueCategories);
    if k < |IssueCategories| then
      CategoryNamesAreLabels(k);
      IssueCategories[k].name
    else "Other"
  }

  lemma {:induction false} CategoryNamesAreLabels(k: nat)
    requires k < |IssueCategories|
    ensures IssueCategories[k].name in CategoryLabels
  {
    var names := ["Technical Issues", "Performance", "Usability", "Features",
      "Customer Service", "Security", "General Sentiment"];
    assert IssueCategories[k].name == names[k];
  }

  /** The seven category names and `"Other"`. */
  const CategoryLabels: set<string> := {
    "Technical Issues", "Performance", "Usability", "Features",
    "Customer Service", "Security", "General Sentiment", "Other"
  }

  /** The category is `"Other"` exactly when no category is mentioned, and
      otherwise it is the name of the first category, in declared order, that
      the lower-cased phrase mentions. */
  lemma {:induction false} CategorizeIssueSpec(phrase: string)
    ensures var category := CategorizeIssue(phrase);
      && (category == "Other" <==>
            forall j :: 0 <= j < |IssueCategories| ==> !MentionsAny(Lower(phrase), IssueCategories[j].keywords))
      && (category != "Other" ==> exists j :: (
            && 0 <= j < |IssueCategories|
            && category == IssueCategories[j].name
            && MentionsAny(Lower(phrase), IssueCategories[j].keywords)
            && forall i :: 0 <= i < j ==> !MentionsAny(Lower(phrase), IssueCategories[i].keywords)))
  {
    var k := FirstMentioned(Lower(phrase), IssueCategories);
    if k < |IssueCategories| {
      NoCategoryIsOther(k);
    }
  }

  lemma {:induction false} NoCategoryIsOther(k: nat)
    requires k < |IssueCategories|
    ensures IssueCategories[k].name != "Other"
  {
    assert |IssueCategories[k].name| > 5;
  }

  /** A phrase mentioning `login` or `password` is never filed under Security:
      Features lists both words and comes first, so the category is one of the
      first four. */
  lemma {:induction false} LoginNeverSecurity(phrase: string)
    requires Contains(Lower(phrase), "login") || Contains(Lower(phrase), "password")
    ensures CategorizeIssue(phrase) != "Security"
    ensures CategorizeIssue(phrase) in ["Technical Issues", "Performance", "Usability", "Features"]
  {
    var text := Lower(phrase);
    var features := IssueCategories[3];
    assert features.keywords[3] == "login" && features.keywords[4] == "password";
    assert MentionsAny(text, features.keywords);
    var k := FirstMentioned(text, IssueCategories);
    assert k <= 3;
  }

  // ------------------------------------------------------------------- drivers

  /** A category that counts as a driver: not `General Sentiment`, not `Other`. */
  predicate IsDriverCategory(category: string) {
    category != "General Sentiment" && category != "Other"
  }

  predicate IsDriver(phrase: Entry) { IsDriverCategory(CategorizeIssue(phrase.key)) }

  /** The driver loop and its fallback: of the first eight phrases, those whose
      category is a driver category, in order; and, only when there is no
      driver but there are phrases, the first five phrases shown instead. */
  method SelectDrivers(phrases: seq<Entry>) returns (drivers: seq<Entry>, fallback: seq<Entry>)
    ensures drivers == Keep(Take(phrases, 8), IsDriver)
    ensures fallback == Fallback(phrases, drivers)
  {
    var top := Take(phrases, 8);
    drivers := [];
    for i := 0 to |top|
      invariant drivers == Keep(top[..i], IsDriver)
    {
      var entry := top[i];
      KeepStep(top, i, IsDriver);
      if IsDriverCategory(CategorizeIssue(entry.key)) {
        drivers := drivers + [entry];
      }
    }
    assert top[..|top|] == top;
    fallback := [];
    if drivers == [] && phrases != [] {
      fallback := Take(phrases, 5);
    }
  }

  /** The "no specific drivers" fallback: the first five phrases, shown only
      when there are phrases but none of them is a driver. */
  function Fallback(phrases: seq<Entry>, drivers: seq<Entry>): (fallback: seq<Entry>)
    ensures |fallback| <= 5 && |fallback| <= |phrases|
    ensures fallback != [] <==> drivers == [] && phrases != []
    ensures fallback == [] || fallback == phrases[..|fallback|]
  {
    if drivers == [] && phrases != [] then Take(phrases, 5) else []
  }

  /** Drivers are missing, and the fallback shows instead, exactly when every
      one of the top eight phrases is filed under `General Sentiment` or `Other`. */
  lemma {:induction false} NoDriversSpec(phrases: seq<Entry>)
    ensures Keep(Take(phrases, 8), IsDriver) == [] <==>
      forall e :: e in Take(phrases, 8) ==>
        CategorizeIssue(e.key) == "General Sentiment" || CategorizeIssue(e.key) == "Other"
  {
    KeepEmpty(Take(phrases, 8), IsDriver);
  }

  // --------------------------------------------------------------- pain points

  /** One `(phrase, count, category)` triple of `pain_points`. */
  datatype PainPoint = PainPoint(phrase: string, count: nat, category: string)

  /** The triple the pain-point loop records for one ranked phrase. */
  function PainPointOf(entry: Entry): (point: PainPoint)
    ensures point.phrase == entry.key && point.count == entry.count
    ensures point.category in CategoryLabels
  {
    PainPoint(entry.key, entry.count, CategorizeIssue(entry.key))
  }

  /** The pain-point loop: every one of the first eight phrases, in order, with
      its count and category; none is dropped. */
  method ListPainPoints(phrases: seq<Entry>) returns (painPoints: seq<PainPoint>)
    ensures painPoints == Mapped(Take(phrases, 8), PainPointOf)
  {
    var top := Take(phrases, 8);
    painPoints := [];
    for i := 0 to |top|
      invariant painPoints == Mapped(top[..i], PainPointOf)
    {
      MappedStep(top, i, PainPointOf);
      painPoints := painPoints + [PainPointOf(top[i])];
    }
    assert top[..|top|] == top;
  }

  /** Pain points are the first eight phrases (all of them when there are
      fewer), each with its own count and the category of its text. */
  lemma {:induction false} PainPointsSpec(phrases: seq<Entry>)
    ensures var painPoints := Mapped(Take(phrases, 8), PainPointOf);
      && |painPoints| == (if |phrases| < 8 then |phrases| else 8)
      && forall i :: 0 <= i < |painPoints| ==>
           && painPoints[i].phrase == phrases[i].key
           && painPoints[i].count == phrases[i].count
           && painPoints[i].category == CategorizeIssue(phrases[i].key)
  {
  }

  /** The sum of the counts of some pain points. */
  function PainPointTotal(painPoints: seq<PainPoint>): nat
    decreases |painPoints|
  {
    if painPoints == [] then 0
    else PainPointTotal(painPoints[..|painPoints| - 1]) + painPoints[|painPoints| - 1].count
  }

  /** `category_summary` after the loop over `pain_points`: the categories in
      order of first appearance, each with the sum of its phrases' counts. */
  function CategoryTotals(painPoints: seq<PainPoint>): (summary: seq<Entry>)
    ensures DistinctKeys(summary)
    decreases |painPoints|
  {
    if painPoints == [] then []
    else
      var last := painPoints[|painPoints| - 1];
      var totals := CategoryTotals(painPoints[..|painPoints| - 1]);
      AddDistinct(totals, last.category, last.count);
      Add(totals, last.category, last.count)
  }

  /** The summary loop, which starts each new category at 0 and adds each
      phrase's count to its category, and the report that lists the totals
      from the largest down. */
  method SummarizeByCategory(painPoints: seq<PainPoint>) returns (summary: seq<Entry>, report: seq<Entry>)
    ensures summary == CategoryTotals(painPoints)
    ensures report == SortByCount(summary)
  {
    summary := [];
    for i := 0 to |painPoints|
      invariant summary == CategoryTotals(painPoints[..i])
    {
      var point := painPoints[i];
      assert painPoints[..i + 1][..i] == painPoints[..i] && painPoints[..i + 1][i] == point;
      summary := Add(summary, point.category, point.count);
    }
    assert painPoints[..|painPoints|] == painPoints;
    report := SortByCount(summary);
  }

  /** Every pain point is counted: the category totals add up to the total
      count of all pain points. */
  lemma {:induction false} CategoryTotalsSum(painPoints: seq<PainPoint>)
    ensures Total(CategoryTotals(painPoints)) == PainPointTotal(painPoints)
    decreases |painPoints|
  {
    if painPoints != [] {
      var last := painPoints[|painPoints| - 1];
      CategoryTotalsSum(painPoints[..|painPoints| - 1]);
      AddTotal(CategoryTotals(painPoints[..|painPoints| - 1]), last.category, last.count);
    }
  }

  /** The summary has a category exactly when some pain point is filed under it. */
  lemma {:induction false} CategoryTotalsKeys(painPoints: seq<PainPoint>)
    ensures forall c :: c in Keys(CategoryTotals(painPoints)) <==> exists p :: p in painPoints && p.category == c
    decreases |painPoints|
  {
    if painPoints != [] {
      var init := painPoints[..|painPoints| - 1];
      var last := painPoints[|painPoints| - 1];
      assert painPoints == init + [last];
      CategoryTotalsKeys(init);
      AddKeys(CategoryTotals(init), last.category, last.count);
    }
  }

  /** The category a pain point is filed under. */
  function PointCategory(point: PainPoint): string { point.category }

  /** The pain points filed under `category`. */
  function InCategory(category: string): PainPoint -> bool {
    (point: PainPoint) => point.category == category
  }

  lemma {:induction false} PainPointTotalSnoc(painPoints: seq<PainPoint>, point: PainPoint)
    ensures PainPointTotal(painPoints + [point]) == PainPointTotal(painPoints) + point.count
  {
    assert (painPoints + [point])[..|painPoints|] == painPoints;
  }

  /** Each category's total is the sum of the counts of the pain points filed
      under it. */
  lemma {:induction false} CategoryTotalsEntries(painPoints: seq<PainPoint>)
    ensures var summary := CategoryTotals(painPoints);
      forall i :: 0 <= i < |summary| ==>
        summary[i].count == PainPointTotal(Keep(painPoints, InCategory(summary[i].key)))
  {
    var summary := CategoryTotals(painPoints);
    forall i | 0 <= i < |summary|
      ensures summary[i].count == PainPointTotal(Keep(painPoints, InCategory(summary[i].key)))
    {
      CategoryTotalAt(painPoints, i);
    }
  }

  lemma {:induction false} CategoryTotalAt(painPoints: seq<PainPoint>, i: nat)
    requires i < |CategoryTotals(painPoints)|
    ensures var e := CategoryTotals(painPoints)[i];
      e.count == PainPointTotal(Keep(painPoints, InCategory(e.key)))
    decreases |painPoints|, 1
  {
    var init, last := painPoints[..|painPoints| - 1], painPoints[|painPoints| - 1];
    SnocParts(painPoints);
    CategoryTotalAtSnoc(init, last, i);
  }

  lemma {:induction false} CategoryTotalAtSnoc(init: seq<PainPoint>, last: PainPoint, i: nat)
    requires i < |CategoryTotals(init + [last])|
    ensures var e := CategoryTotals(init + [last])[i];
      e.count == PainPointTotal(Keep(init + [last], InCategory(e.key)))
    decreases |init| + 1, 0
  {
    CategoryTotalsSnoc(init, last);
    if i < |CategoryTotals(init)| {
      CategoryTotalAt(init, i);
      CategoryTotalStep(init, last, i);
    } else {
      CategoryTotalNew(init, last, i);
    }
  }

  lemma {:induction false} CategoryTotalsSnoc(init: seq<PainPoint>, last: PainPoint)
    ensures CategoryTotals(init + [last]) == Add(CategoryTotals(init), last.category, last.count)
  {
    var ps := init + [last];
    assert ps[..|ps| - 1] == init && ps[|ps| - 1] == last;
  }

  /** A category that already has a total gains the new point's count when
      the point is filed under it. */
  lemma {:induction false} CategoryTotalStep(init: seq<PainPoint>, last: PainPoint, i: nat)
    requires i < |CategoryTotals(init)|
    requires CategoryTotals(init)[i].count == PainPointTotal(Keep(init, InCategory(CategoryTotals(init)[i].key)))
    ensures var e := Add(CategoryTotals(init), last.category, last.count)[i];
      e.count == PainPointTotal(Keep(init + [last], InCategory(e.key)))
  {
    var entry := CategoryTotals(init)[i];
    assert Add(CategoryTotals(init), last.category, last.count)[i] ==
      Entry(entry.key, entry.count + if entry.key == last.category then last.count else 0);
    KeepSnoc(init, last, InCategory(entry.key));
    var kept := Keep(init, InCategory(entry.key));
    assert kept + [] == kept;
    if entry.key == last.category {
      PainPointTotalSnoc(kept, last);
    }
  }

  /** A category seen for the first time totals the new point's count. */
  lemma {:induction false} CategoryTotalNew(init: seq<PainPoint>, last: PainPoint, i: nat)
    requires |CategoryTotals(init)| <= i < |Add(CategoryTotals(init), last.category, last.count)|
    ensures var e := Add(CategoryTotals(init), last.category, last.count)[i];
      e.count == PainPointTotal(Keep(init + [last], InCategory(e.key)))
  {
    AddNewEntry(CategoryTotals(init), last.category, last.count, i);
    forall p | p in init ensures p.category != last.category {
      CategoryKnown(init, p);
    }
    FirstOfCategory(init, last);
  }

  lemma {:induction false} CategoryKnown(painPoints: seq<PainPoint>, p: PainPoint)
    requires p in painPoints
    ensures p.category in Keys(CategoryTotals(painPoints))
  {
    CategoryTotalsKeys(painPoints);
  }

  lemma {:induction false} FirstOfCategory(init: seq<PainPoint>, last: PainPoint)
    requires forall p :: p in init ==> p.category != last.category
    ensures last.count == PainPointTotal(Keep(init + [last], InCategory(last.category)))
  {
    KeepNone(init, InCategory(last.category));
    KeepSnoc(init, last, InCategory(last.category));
    PainPointTotalSnoc([], last);
  }

  /** The categories come in the order in which they first appear among the
      pain points. */
  lemma {:induction false} CategoryTotalsOrder(painPoints: seq<PainPoint>)
    ensures FirstSeenOrder(CategoryTotals(painPoints), Mapped(painPoints, PointCategory))
    decreases |painPoints|
  {
    if painPoints != [] {
      var init, last := painPoints[..|painPoints| - 1], painPoints[|painPoints| - 1];
      assert painPoints == init + [last];
      var totals := CategoryTotals(init);
      CategoryTotalsOrder(init);
      CategoryTotalsKeys(init);
      var names := Mapped(init, PointCategory);
      assert Mapped(painPoints, PointCategory) == names + [last.category];
      forall x ensures x in Keys(totals) <==> x in names {
        if x in names {
          var k :| 0 <= k < |names| && names[k] == x;
          assert init[k] in init;
        }
      }
      AddOrder(totals, names, last.category, last.count);
    }
  }

  /** The printed report lists the same category totals, largest first, with
      equal totals in the order the categories first appeared. */
  lemma {:induction false} CategoryReportSpec(painPoints: seq<PainPoint>)
    ensures var summary := CategoryTotals(painPoints);
      var report := SortByCount(summary);
      && |report| == |summary| && (forall e :: e in report <==> e in summary)
      && NonIncreasing(report)
      && (forall c :: WithCount(report, c) == WithCount(summary, c))
      && Total(report) == PainPointTotal(painPoints)
  {
    CategoryTotalsSum(painPoints);
    SortKeepsTotal(CategoryTotals(painPoints));
  }

  // -------------------------------------------------------------- issue counts

  /** `common_issues`, in declared order. */
  const CommonIssues: seq<Theme> := [
    Theme("Login/Account Issues", ["login", "password", "account", "access", "verification"]),
    Theme("Transaction Problems", ["transfer", "payment", "transaction", "money", "send"]),
    Theme("App Performance", ["crash", "freeze", "hang", "not working", "stop"]),
    Theme("Speed Issues", ["slow", "loading", "wait", "time", "delay"]),
    Theme("Update Problems", ["update", "version", "new version", "upgrade"]),
    Theme("Customer Support", ["support", "help", "service", "response"])
  ]

  /** `any(keyword in review.lower() for keyword in keywords)`. */
  function MentionsIssue(keywords: seq<string>): string -> bool {
    (review: string) => MentionsAny(Lower(review), keywords)
  }

  /** A review mentions an issue exactly when one of its keywords occurs in
      the lower-cased review. */
  lemma {:induction false} MentionsIssueSpec(keywords: seq<string>, review: string)
    ensures MentionsIssue(keywords)(review) <==> exists k :: 0 <= k < |keywords| && Contains(Lower(review), keywords[k])
  {
  }

  /** The inner loop of the issue scan: one more for each review that mentions
      one of the keywords. */
  method CountMentions(reviews: seq<string>, keywords: seq<string>) returns (count: nat)
    ensures count == |Keep(reviews, MentionsIssue(keywords))|
  {
    var mentions := MentionsIssue(keywords);
    count := 0;
    for i := 0 to |reviews|
      invariant count == |Keep(reviews[..i], mentions)|
    {
      KeepStep(reviews, i, mentions);
      if mentions(reviews[i]) {
        count := count + 1;
      }
    }
    assert reviews[..|reviews|] == reviews;
  }

  /** An issue with the number of reviews that mention it. */
  function IssueCount(reviews: seq<string>): Theme -> Entry {
    (issue: Theme) => IssueEntry(reviews, issue)
  }

  function IssueEntry(reviews: seq<string>, issue: Theme): Entry {
    Entry(issue.name, |Keep(reviews, MentionsIssue(issue.keywords))|)
  }

  /** An issue keeps its name; its count is at most the number of reviews, and
      is positive exactly when some review mentions the issue. */
  lemma {:induction false} IssueCountSpec(reviews: seq<string>, issue: Theme)
    ensures var e := IssueCount(reviews)(issue);
      && e.key == issue.name && e.count <= |reviews|
      && (e.count > 0 <==> exists i :: 0 <= i < |reviews| && MentionsIssue(issue.keywords)(reviews[i]))
  {
    var kept := Keep(reviews, MentionsIssue(issue.keywords));
    if |kept| > 0 {
      assert kept[0] in kept;
    }
    if exists i :: 0 <= i < |reviews| && MentionsIssue(issue.keywords)(reviews[i]) {
      var i :| 0 <= i < |reviews| && MentionsIssue(issue.keywords)(reviews[i]);
      assert reviews[i] in kept;
    }
  }

  /** The `count > 5` threshold for printing an issue. */
  predicate IsReported(e: Entry) { e.count > 5 }

  /** The issue scan: each common issue, in order, with its count, and the
      issues that pass the threshold, in the same order. */
  method ScanIssues(reviews: seq<string>) returns (counts: seq<Entry>, reported: seq<Entry>)
    ensures counts == Mapped(CommonIssues, IssueCount(reviews))
    ensures reported == Keep(counts, IsReported)
  {
    counts, reported := ScanThemes(reviews, CommonIssues);
  }

  method ScanThemes(reviews: seq<string>, issues: seq<Theme>) returns (counts: seq<Entry>, reported: seq<Entry>)
    ensures counts == Mapped(issues, IssueCount(reviews))
    ensures reported == Keep(counts, IsReported)
  {
    counts := [];
    reported := [];
    for k := 0 to |issues|
      invariant counts == Mapped(issues[..k], IssueCount(reviews))
      invariant reported == Keep(counts, IsReported)
    {
      var issue := issues[k];
      var count := CountMentions(reviews, issue.keywords);
      var entry := Entry(issue.name, count);
      ScanStep(reviews, issues, k, counts, entry);
      counts := counts + [entry];
      if count > 5 {
        reported := reported + [entry];
      }
    }
    assert issues[..|issues|] == issues;
  }

  lemma {:induction false} ScanStep(reviews: seq<string>, issues: seq<Theme>, k: nat, counts: seq<Entry>, entry: Entry)
    requires k < |issues| && counts == Mapped(issues[..k], IssueCount(reviews))
    requires entry == IssueEntry(reviews, issues[k])
    ensures counts + [entry] == Mapped(issues[..k + 1], IssueCount(reviews))
    ensures Keep(counts + [entry], IsReported) == Keep(counts, IsReported) + (if entry.count > 5 then [entry] else [])
  {
    MappedStep(issues, k, IssueCount(reviews));
    var next := counts + [entry];
    assert next[..k] == counts && next[..k + 1] == next && next[k] == entry;
    KeepStep(next, k, IsReported);
  }

  /** An issue is reported exactly when more than five of the bank's reviews
      mention it, and no issue can count more reviews than the bank has. */
  lemma {:induction false} IssueScanSpec(reviews: seq<string>, issues: seq<Theme>)
    ensures var counts := Mapped(issues, IssueCount(reviews));
      && |counts| == |issues|
      && (forall k :: 0 <= k < |counts| ==>
            && counts[k].key == issues[k].name
            && counts[k].count <= |reviews|
            && (counts[k] in Keep(counts, IsReported) <==> counts[k].count > 5))
      && (forall e :: e in Keep(counts, IsReported) ==> 5 < e.count <= |reviews|)
  {
    IssueCountsNamed(reviews, issues);
    ReportedThreshold(Mapped(issues, IssueCount(reviews)), |reviews|);
  }

  lemma {:induction false} IssueCountsNamed(reviews: seq<string>, issues: seq<Theme>)
    ensures var counts := Mapped(issues, IssueCount(reviews));
      forall k :: 0 <= k < |counts| ==> counts[k].key == issues[k].name && counts[k].count <= |reviews|
  {
    var counts := Mapped(issues, IssueCount(reviews));
    forall k | 0 <= k < |counts| ensures counts[k].key == issues[k].name && counts[k].count <= |reviews| {
      IssueCountSpec(reviews, issues[k]);
    }
  }

  /** The threshold filter keeps exactly the counts above five, and keeps any
      bound the counts have. */
  lemma {:induction false} ReportedThreshold(counts: seq<Entry>, n: nat)
    requires forall k :: 0 <= k < |counts| ==> counts[k].count <= n
    ensures forall k :: 0 <= k < |counts| ==> (counts[k] in Keep(counts, IsReported) <==> counts[k].count > 5)
    ensures forall e :: e in Keep(counts, IsReported) ==> 5 < e.count <= n
  {
    forall e | e in Keep(counts, IsReported) ensures 5 < e.count <= n {
      var k :| 0 <= k < |counts| && counts[k] == e;
    }
  }


  // ------------------------------------------------------------ bank insights

  /** The record `bank_insights[bank]` holds. */
  datatype BankSummary = BankSummary(
    totalReviews: nat,
    avgRating: real,
    positiveReviews: nat,
    negativeReviews: nat,
    drivers: seq<Entry>,
    painPoints: seq<Entry>)

  /** The phrases of a selection of reviews, or none when the selection is empty
      (the `if len(...) > 0` guards). */
  function PhrasesIfAny(selected: seq<ScoredReview>): seq<Entry> {
    if |selected| > 0 then MeaningfulPhrases(ReviewColumn(selected), 15) else []
  }

  /** `bank_insights[bank]` for one bank. */
  function SummaryOf(rows: seq<ScoredReview>, bank: string): (summary: BankSummary)
    ensures SummaryConsistent(summary)
    ensures summary.totalReviews > 0 <==> exists i :: 0 <= i < |rows| && rows[i].bank == bank
  {
    var bankRows := Keep(rows, OfBank(bank));
    var high := Keep(bankRows, IsHighRating);
    var low := Keep(bankRows, IsLowRating);
    KeepDisjoint(bankRows, IsHighRating, IsLowRating);
    BankPresent(rows, bank);
    BankSummary(|bankRows|, Mean(Ratings(bankRows)), |high|, |low|, Take(PhrasesIfAny(high), 5), Take(PhrasesIfAny(low), 5))
  }

  /** What one bank's pass prints: drivers and their fallback, pain points,
      their category report, and the issues over the threshold. */
  datatype BankReport = BankReport(
    drivers: seq<Entry>,
    fallback: seq<Entry>,
    painPoints: seq<PainPoint>,
    categoryReport: seq<Entry>,
    issues: seq<Entry>)

  /** What the pass for `bank` prints, from that bank's rows. */
  function ReportOf(rows: seq<ScoredReview>, bank: string): BankReport {
    var bankRows := Keep(rows, OfBank(bank));
    ReportFrom(PhrasesIfAny(Keep(bankRows, IsHighRating)), PhrasesIfAny(Keep(bankRows, IsLowRating)), bankRows)
  }

  /** The report built from a bank's positive and negative phrases and its rows:
      at most eight drivers, each of a driver category, and the fallback only
      when there is no driver; at most eight pain points, summed by category
      into a descending report with the same total; and only issues with more
      than five mentions, none more than the bank has reviews. */
  function ReportFrom(positive: seq<Entry>, negative: seq<Entry>, bankRows: seq<ScoredReview>): (report: BankReport)
    ensures |report.drivers| <= 8 && |report.painPoints| <= 8 && |report.fallback| <= 5
    ensures forall e :: e in report.drivers ==> IsDriverCategory(CategorizeIssue(e.key))
    ensures report.fallback != [] ==> report.drivers == []
    ensures NonIncreasing(report.categoryReport)
    ensures Total(report.categoryReport) == PainPointTotal(report.painPoints)
    ensures IssuesBounded(report.issues, |bankRows|)
  {
    var painPoints := Mapped(Take(negative, 8), PainPointOf);
    var drivers := Keep(Take(positive, 8), IsDriver);
    CategoryReportOrdered(painPoints);
    BankReport(
      drivers,
      Fallback(positive, drivers),
      painPoints,
      SortByCount(CategoryTotals(painPoints)),
      ReportedIssues(bankRows))
  }


  /** The two facts about the category report that a bank's report keeps. */
  lemma {:induction false} CategoryReportOrdered(painPoints: seq<PainPoint>)
    ensures NonIncreasing(SortByCount(CategoryTotals(painPoints)))
    ensures Total(SortByCount(CategoryTotals(painPoints))) == PainPointTotal(painPoints)
  {
    CategoryReportSpec(painPoints);
  }

  /** Every issue listed passed the threshold and was mentioned at most `n` times. */
  predicate IssuesBounded(issues: seq<Entry>, n: nat) {
    forall e :: e in issues ==> 5 < e.count <= n
  }

  /** The issues of `common_issues` a bank's report lists: each has a count
      above five and at most one mention per review. */
  function ReportedIssues(bankRows: seq<ScoredReview>): (issues: seq<Entry>)
    ensures IssuesBounded(issues, |bankRows|)
  {
    var reviews := ReviewColumn(bankRows);
    IssueScanSpec(reviews, CommonIssues);
    Keep(Mapped(CommonIssues, IssueCount(reviews)), IsReported)
  }

  /** Phrases of the selected reviews, with the emptiness guard. */
  method SelectedPhrases(selected: seq<ScoredReview>) returns (phrases: seq<Entry>)
    ensures phrases == PhrasesIfAny(selected)
  {
    phrases := [];
    if |selected| > 0 {
      phrases := ExtractMeaningfulPhrases(ReviewColumn(selected), 15);
    }
  }

  /** The body of the bank loop for one bank. */
  method ReportBank(rows: seq<ScoredReview>, bank: string) returns (report: BankReport, summary: BankSummary)
    ensures report == ReportOf(rows, bank)
    ensures summary == SummaryOf(rows, bank)
  {
    var bankRows := Keep(rows, OfBank(bank));
    var high := Keep(bankRows, IsHighRating);
    var low := Keep(bankRows, IsLowRating);
    var positive := SelectedPhrases(high);
    var drivers, fallback := SelectDrivers(positive);
    var negative := SelectedPhrases(low);
    var painPoints := ListPainPoints(negative);
    var _, categoryReport := SummarizeByCategory(painPoints);
    var _, issues := ScanIssues(ReviewColumn(bankRows));
    report := BankReport(drivers, fallback, painPoints, categoryReport, issues);
    summary := BankSummary(|bankRows|, Mean(Ratings(bankRows)), |high|, |low|, Take(positive, 5), Take(negative, 5));
  }

  function ReportFor(rows: seq<ScoredReview>): string -> BankReport {
    (bank: string) => ReportOf(rows, bank)
  }

  function SummaryAt(rows: seq<ScoredReview>): seq<string> -> BankSummary {
    (visited: seq<string>) => SummaryOf(rows, if visited == [] then "" else visited[|visited| - 1])
  }

  /** `bank_insights` after the loop has visited `banks`. */
  function BankInsights(rows: seq<ScoredReview>, banks: seq<string>): (insights: map<string, BankSummary>)
    ensures forall b :: b in insights <==> b in banks
    ensures forall b :: b in insights ==> SummaryConsistent(insights[b])
  {
    SummaryAtConsistent(rows);
    AssignedAll(banks, SummaryAt(rows), SummaryConsistent);
    Assigned(banks, SummaryAt(rows))
  }

  /** Whatever the loop has visited, the summary it stores is consistent. */
  lemma {:induction false} SummaryAtConsistent(rows: seq<ScoredReview>)
    ensures forall visited :: SummaryConsistent(SummaryAt(rows)(visited))
  {
    forall visited ensures SummaryConsistent(SummaryAt(rows)(visited)) {
      var bank := if visited == [] then "" else visited[|visited| - 1];
      assert SummaryAt(rows)(visited) == SummaryOf(rows, bank);
    }
  }

  /** The loop over `df['bank'].unique()`: one report per bank, in order, and
      `bank_insights` filled in. */
  method IdentifyDriversAndPainPoints(rows: seq<ScoredReview>)
    returns (banks: seq<string>, reports: seq<BankReport>, insights: map<string, BankSummary>)
    ensures banks == Banks(rows)
    ensures reports == Mapped(banks, ReportFor(rows))
    ensures insights == BankInsights(rows, banks)
  {
    banks := Banks(rows);
    reports := [];
    insights := map[];
    for i := 0 to |banks|
      invariant reports == Mapped(banks[..i], ReportFor(rows))
      invariant insights == BankInsights(rows, banks[..i])
    {
      var bank := banks[i];
      var report, summary := ReportBank(rows, bank);
      MappedStep(banks, i, ReportFor(rows));
      BankInsightsStep(rows, banks, i);
      reports := reports + [report];
      insights := insights[bank := summary];
    }
    assert banks[..|banks|] == banks;
  }

  lemma {:induction false} BankInsightsStep(rows: seq<ScoredReview>, banks: seq<string>, i: nat)
    requires i < |banks|
    ensures BankInsights(rows, banks[..i + 1]) == BankInsights(rows, banks[..i])[banks[i] := SummaryOf(rows, banks[i])]
  {
    var visited := banks[..i + 1];
    assert visited[..i] == banks[..i] && visited[i] == banks[i];
    assert BankInsights(rows, visited) == BankInsights(rows, banks[..i])[banks[i] := SummaryAt(rows)(visited)];
  }

  function SummaryFor(rows: seq<ScoredReview>): string -> BankSummary {
    (bank: string) => SummaryOf(rows, bank)
  }

  /** After the loop, every bank of `unique()` has an entry, and it is that
      bank's own summary: no later pass overwrites it. */
  lemma {:induction false} BankInsightsValue(rows: seq<ScoredReview>)
    ensures var insights := BankInsights(rows, Banks(rows));
      && (forall b :: b in insights <==> b in Banks(rows))
      && (forall b :: b in Banks(rows) ==> insights[b] == SummaryOf(rows, b))
  {
    UniqueBanksDistinct(rows);
    AssignedByKey(Banks(rows), SummaryAt(rows), SummaryFor(rows));
  }

  /** The counts of a summary are consistent: no review is both positive (four
      or five stars) and negative (one or two), drivers and pain points are
      at most five, and there are none without reviews of that kind. */
  predicate SummaryConsistent(s: BankSummary) {
    && s.positiveReviews + s.negativeReviews <= s.totalReviews
    && |s.drivers| <= 5 && |s.painPoints| <= 5
    && (s.positiveReviews == 0 ==> s.drivers == [])
    && (s.negativeReviews == 0 ==> s.painPoints == [])
  }
}
