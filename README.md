# Bank review analytics: a Dafny model of the text and counting core

This project models the deterministic core of a pipeline. The pipeline turns
app-store reviews of three banks (CBE, Abyssinia, Dashen) into
sentiment labels, keyword and phrase rankings, and per-bank summaries of
drivers and pain points. It proves properties of that model. The parts modelled:

- **Review normaliser** (`src/clean_reviews.py`).
  - `clean_text`: lower-casing, URL deletion, special-character removal,
    whitespace collapsing and trimming.
  - The rule that picks the bank from the file name.
  - The in-place steps of `process_file` (bank column, cleaned reviews,
    `drop_duplicates` on `review_id`, `dropna`), modelled as a class whose
    methods update the frame's rows.
- **Sentiment labelling** (`src/sentiment_analysis.py`). The VADER analyzer
  is a parameter: a function from text to its compound score. Only the guard
  and the thresholds are modelled.
- **Keyword analysis** (`src/Analysis.py`).
  - `extract_keywords`: `\b[a-z]{3,}\b` tokens, stopwords, `Counter` and
    `most_common`.
  - `analyze_sentiment_by_rating`.
  - The per-bank counts, and the `bank_insights` loop, including its reuse of
    an earlier bank's keyword list.
  - The best and worst bank by `idxmax`/`idxmin`.
- **Phrase analysis and insights** (`src/Insights.py`).
  - `extract_meaningful_phrases`: bigrams of the filtered words, ranked.
  - The first-match classifier `categorize_issue`.
  - Driver selection with its fallback.
  - Pain points and their category summary, with the report sorted by total.
  - The issue scan with its `> 5` threshold.
  - `bank_insights`.

Module layout:

| file | module | contents |
|---|---|---|
| `common.dfy` | `Common` | `Option`; `Take` (slicing); `Keep` (a comprehension with a filter); `Mapped`; `Assigned` (a dict filled by a loop over keys) |
| `text.dfy` | `Text` | ASCII character classes (`\w`, `\s`), `lower`, `strip`, `in` on strings, `join`, `split` |
| `ranking.dfy` | `Ranking` | `Counter` as its items in insertion order; `most_common` as a stable sort by descending count, then a prefix; dict accumulation `d[k] += n` |
| `clean_reviews.dfy` | `CleanReviews` | `clean_text`, the bank rule, the `ReviewFrame` class for `process_file` |
| `sentiment_analysis.dfy` | `SentimentAnalysis` | `analyze_sentiment` |
| `corpus.dfy` | `Corpus` | the scored review table both analysis scripts read; the boolean-mask selections; `unique()`; means |
| `analysis.dfy` | `Analysis` | `src/Analysis.py` |
| `insights.dfy` | `Insights` | `src/Insights.py` |

Three behaviours of the code differ from what a reader might expect, and the model follows the code:

- **`clean_text` is not idempotent in general.** `h!ttpx` cleans to `httpx`.
  Cleaning that again gives the empty string, because deleting `!` creates a
  URL. `CleanReviews.CleanNotIdempotent` proves this. Idempotence is proved
  for every text whose cleaned form holds no `http`.
- **Ties for best or worst bank go to the bank listed first by `unique()`.**
  That is first appearance in the table, not alphabetical order.
- **Empty reviews are not removed before keyword and phrase extraction.** The
  scripts join every selected review. An empty review adds a separator and no
  words.

## Model

| member | source | states |
|---|---|---|
| CleanReviews.CleanText | src/clean_reviews.py:11-18 | a non-string gives `""`; every result holds only `a`-`z`, `0`-`9` and single spaces, with no space at either end |
| CleanReviews.CleanTextWords | src/clean_reviews.py:14-17 | a cleaned string is the words of its lower-cased text, after URL removal and the character filter, joined by single spaces |
| CleanReviews.CleanTextKeepsAlnum | src/clean_reviews.py:14-17 | the non-space characters of a cleaned string are exactly the letters and digits of the lower-cased text outside URLs, in order |
| CleanReviews.CleanIsJoin | src/clean_reviews.py:17 | a clean text is its words joined by single spaces |
| CleanReviews.RemoveUrls | src/clean_reviews.py:15 | every character of the result comes from the input |
| CleanReviews.RemoveUrlsAppend | src/clean_reviews.py:15 | text after a whitespace character is processed independently of what precedes it, since no URL spans whitespace |
| CleanReviews.RemoveUrlsWord | src/clean_reviews.py:15 | within a word, URL removal keeps exactly the part before the first position where `http` plus a non-whitespace character starts |
| CleanReviews.RemoveSpecial | src/clean_reviews.py:16 | every remaining character is an ASCII letter, digit or whitespace |
| CleanReviews.RemoveSpecialIsKeep | src/clean_reviews.py:16 | the filter keeps exactly the letters, digits and whitespace of the input, in order |
| CleanReviews.CollapseSpaces | src/clean_reviews.py:17 | every whitespace character left is a single space, never two in a row; the first character is kept, or becomes a space when it is whitespace |
| CleanReviews.SplitCollapse | src/clean_reviews.py:17 | collapsing whitespace leaves the words of the text, and their order, unchanged |
| CleanReviews.CollapseKeepsNonSpace | src/clean_reviews.py:17 | collapsing keeps every non-whitespace character, in order |
| CleanReviews.StripKeepsShape | src/clean_reviews.py:17 | trimming text of letters, digits and single spaces gives the clean shape |
| CleanReviews.RemoveSpecialFrom | src/clean_reviews.py:16 | the special-character filter introduces no character |
| CleanReviews.CollapseSpacesFrom | src/clean_reviews.py:17 | collapsing introduces no character except the space |
| CleanReviews.CleanedChars | src/clean_reviews.py:14-17 | before trimming, the text holds only lower-case letters, digits and spaces |
| CleanReviews.BareHttpKept | src/clean_reviews.py:15 | `http` at the end or before whitespace is kept |
| CleanReviews.NoUrlSurvives | src/clean_reviews.py:15 | after URL removal, no position starts `http` followed by a non-whitespace character |
| CleanReviews.UrlNotCreated | src/clean_reviews.py:15 | a kept character never forms a URL with the output that follows it |
| CleanReviews.RemoveUrlsCopiesPrefix | src/clean_reviews.py:15 | up to the first whitespace, the output of URL removal is a copy of its input |
| CleanReviews.RemoveUrlsAfterUrl | src/clean_reviews.py:15 | a deleted URL is followed by whitespace or by the end of the text |
| CleanReviews.RemoveUrlsWithoutHttp | src/clean_reviews.py:15 | text without `http` passes URL removal unchanged |
| CleanReviews.RemoveSpecialKeepsClean | src/clean_reviews.py:16 | text of letters, digits and whitespace passes the special-character filter unchanged |
| CleanReviews.CollapseKeepsSingleSpaces | src/clean_reviews.py:17 | text whose only whitespace is single spaces passes collapsing unchanged |
| CleanReviews.CleanFixesCleanText | src/clean_reviews.py:14-17 | cleaning an already clean text without `http` returns it unchanged |
| CleanReviews.CleanIdempotentWithoutHttp | src/clean_reviews.py:11-18 | cleaning twice equals cleaning once whenever the first output holds no `http` |
| CleanReviews.CleanNotIdempotent | src/clean_reviews.py:14-17 | `h!ttpx` cleans to `httpx`, and `httpx` cleans to `""` |
| CleanReviews.BaseName | src/clean_reviews.py:31 | the base name has no `/` and is a suffix of the path |
| CleanReviews.BankFromFileName | src/clean_reviews.py:31-37 | the bank is CBE exactly when the lower-cased base name contains `cbe`; Abyssinia exactly when it contains `boa` but not `cbe`; otherwise Dashen |
| CleanReviews.BankIgnoresDirectory | src/clean_reviews.py:31 | the directory part of the path never affects the bank |
| CleanReviews.CleanColumn | src/clean_reviews.py:39 | every row keeps its fields except the review, which becomes its cleaned text |
| CleanReviews.FirstOccurrences | src/clean_reviews.py:45 | dropping duplicates keeps only rows of the input |
| CleanReviews.FirstOccurrencesUnique | src/clean_reviews.py:45 | after dropping duplicates, every review id occurs once |
| CleanReviews.FirstOccurrencesKeepsFirsts | src/clean_reviews.py:45 | every row that is the first with its id survives |
| CleanReviews.FirstOccurrenceKept | src/clean_reviews.py:45 | the first row with a given id survives |
| CleanReviews.FirstOccurrencesKeepsIds | src/clean_reviews.py:45 | every review id of the input is still present |
| CleanReviews.FirstOccurrencesKeepOrder | src/clean_reviews.py:45 | survivors come in the order in which their ids first appear |
| CleanReviews.ReviewFrame.constructor | src/clean_reviews.py:21-28 | the frame starts with the file's rows and no bank column |
| CleanReviews.ReviewFrame.AssignBank | src/clean_reviews.py:30-37 | the bank column is set from the file name; rows unchanged |
| CleanReviews.ReviewFrame.CleanReviews | src/clean_reviews.py:38-39 | every review is replaced by its cleaned text; bank unchanged |
| CleanReviews.ReviewFrame.DropDuplicateIds | src/clean_reviews.py:45 | the rows become their first occurrences by id; bank unchanged |
| CleanReviews.ReviewFrame.DropMissingReviews | src/clean_reviews.py:46 | rows without a string review are removed; bank unchanged |
| CleanReviews.NothingMissingAfterCleaning | src/clean_reviews.py:39-46 | `dropna` after cleaning removes nothing |
| CleanReviews.FirstOccurrencesKeepsReviews | src/clean_reviews.py:45-46 | dropping duplicates of cleaned rows leaves nothing for `dropna` to remove |
| CleanReviews.ProcessFile | src/clean_reviews.py:20-48 | the frame's rows are the first occurrences of the cleaned rows: ids unique, every review a clean string, the bank set from the file name |
| SentimentAnalysis.LabelFor | src/sentiment_analysis.py:17-22 | positive exactly when the score is at least 0.05; negative exactly when at most -0.05; neutral exactly in between |
| SentimentAnalysis.LabelMonotone | src/sentiment_analysis.py:17-22 | a higher score never gets a lower label |
| SentimentAnalysis.BlankIffAllSpace | src/sentiment_analysis.py:13 | a text strips to `""` exactly when all its characters are whitespace |
| SentimentAnalysis.AnalyzeSentiment | src/sentiment_analysis.py:11-23 | a missing or blank text is (neutral, 0.0); otherwise the score is the analyzer's compound; the label always follows the thresholds applied to the returned score |
| SentimentAnalysis.AnalyzerOnlyGivesTheScore | src/sentiment_analysis.py:13-16 | the analyzer is consulted only for non-blank text, and only its compound score matters |
| SentimentAnalysis.ScoreInRange | src/sentiment_analysis.py:15-16 | if the analyzer's compound lies in [-1, 1], so does every returned score |
| SentimentAnalysis.CleanedBlankIsEmpty | src/sentiment_analysis.py:13 | a cleaned review is blank only when it is empty |
| Text.Lower | src/clean_reviews.py:14 | same length; each upper-case letter becomes the lower-case letter at the same place in the alphabet, every other character is unchanged |
| Text.LowerAppend | src/Analysis.py:19 | lower-casing distributes over concatenation |
| Text.ContainsAt | src/Insights.py:69 | `sub in s` holds exactly when `sub` occurs at some position of `s` |
| Text.TrimEnd | src/clean_reviews.py:17 | the result is a prefix of the input, everything cut off is whitespace, and the result does not end in whitespace |
| Text.Strip | src/clean_reviews.py:17 | the result is the slice of the input that follows its leading whitespace run; every character outside the slice is whitespace, and neither end of the slice is |
| Text.JoinEnds | src/Analysis.py:19 | `sep.join(xs)` starts with the first string and ends with the last |
| Text.JoinSnoc | src/Analysis.py:19 | joining one more string appends the separator and that string |
| Text.RunsAppend | src/Analysis.py:22 | maximal runs of two texts that meet at a boundary (not both sides in the class) are the runs of each text in turn |
| Text.RunsSkip | src/Insights.py:29 | text without `p`-characters in front adds no run |
| Text.RunsPadded | src/Insights.py:29 | text without `p`-characters on both sides, ending at a boundary, adds no run |
| Text.RunsJoin | src/Analysis.py:22 | runs joined by a non-empty separator outside the class come back as exactly those runs |
| Text.RunsKeep | src/Analysis.py:22 | the runs put back together are exactly the characters of the class, in order |
| Text.Split | src/Insights.py:29 | `split()` yields non-empty words without whitespace |
| Text.SplitJoin | src/Insights.py:29 | splitting words joined by single spaces gives back those words |
| Text.SplitAppend | src/Insights.py:29 | splitting `a + " " + b` gives the words of `a` followed by those of `b` |
| Text.SplitStrip | src/Insights.py:29 | stripping does not change the words |
| Text.SplitKeep | src/Insights.py:29 | the words put back together are exactly the non-whitespace characters, in order |
| Text.SplitPair | src/Insights.py:44 | splitting `a + " " + b` gives back `a` and `b` |
| Common.Take | src/Insights.py:94 | `xs[:n]`: a prefix of length `min(n, len(xs))`, empty for `n <= 0` |
| Common.Keep | src/Analysis.py:35 | a filtering comprehension keeps exactly the elements that pass |
| Common.Assigned | src/Analysis.py:55-57 | a dict filled by assigning each visited key has exactly the visited keys |
| Common.AssignedEntry | src/Analysis.py:125-133 | with distinct keys, each entry keeps the value stored when its key was visited |
| Common.AssignedByKey | src/Insights.py:156-163 | with distinct keys and a value that depends only on the key, each key ends up with its own value |
| Ranking.Add | src/Insights.py:125-127 | `d[key] += amount`: the key's entry grows by `amount`, or a new entry is appended; others unchanged |
| Ranking.AddDistinct | src/Insights.py:125-127 | adding never creates a second entry for a key |
| Ranking.AddTotal | src/Insights.py:127 | adding raises the sum of all counts by exactly `amount` |
| Ranking.AddKeys | src/Insights.py:125-126 | after adding, the keys are the old keys plus the added one |
| Ranking.FirstIndex | src/Analysis.py:38 | the position of the first occurrence, or the length when absent |
| Ranking.Tally | src/Analysis.py:38 | `Counter(xs)`: distinct keys, exactly the elements of `xs`, each with its number of occurrences, in first-seen order, counts summing to `len(xs)` |
| Ranking.TallyStep | src/Analysis.py:38 | counting one more element keeps all of those properties |
| Ranking.TallyStepKeys | src/Analysis.py:38 | counting one more element adds exactly that element to the keys |
| Ranking.TallyStepCounts | src/Analysis.py:38 | after counting one more element, every count is still its number of occurrences |
| Ranking.TallyStepOrder | src/Analysis.py:38 | after counting one more element, the keys are still in first-seen order |
| Ranking.AddOrder | src/Insights.py:125-127 | adding to a key keeps the keys in order of first appearance |
| Ranking.Insert | src/Insights.py:129 | inserting adds one entry, which goes first when it is more frequent than the head |
| Ranking.InsertSorted | src/Insights.py:129 | inserting into a sequence sorted by descending count keeps it sorted |
| Ranking.InsertMembers | src/Insights.py:129 | inserting adds the entry and keeps all others |
| Ranking.InsertWithCount | src/Insights.py:129 | the inserted entry goes after every earlier entry with the same count (stability) |
| Ranking.InsertFront | src/Insights.py:129 | an entry more frequent than all others goes first, with stability kept |
| Ranking.InsertHead | src/Insights.py:129 | inserting behind an at-least-as-frequent head keeps stability |
| Ranking.SortByCount | src/Insights.py:129 | a permutation of the entries, with counts non-increasing and entries of equal count in their original order |
| Ranking.SortStep | src/Insights.py:129 | one insertion step keeps the equal-count order |
| Ranking.MostCommon | src/Analysis.py:40 | `most_common(n)`: `min(n, len)` entries (none for `n <= 0`), all from the counter, counts non-increasing |
| Ranking.TallyEntries | src/Analysis.py:38 | every item is an element of `xs` with its number of occurrences |
| Ranking.MostCommonCounts | src/Analysis.py:38-40 | every returned item is an element of `xs` with its number of occurrences |
| Ranking.MostCommonIsTop | src/Analysis.py:40 | an item left out is no more frequent than the last returned, and only when `n` items were returned |
| Ranking.MostCommonTiesInFirstSeenOrder | src/Analysis.py:38-40 | equal counts come in first-seen order |
| Ranking.WithCountKeepsOrder | src/Analysis.py:38-40 | entries of one count keep the first-seen order |
| Ranking.MostCommonPrefix | src/Insights.py:42 | the first `n` of `most_common(m)` with `m >= n` are `most_common(n)` |
| Ranking.SortKeepsTotal | src/Insights.py:129 | sorting keeps the sum of the counts |
| Ranking.InsertTotal | src/Insights.py:129 | inserting adds the entry's count to the sum |
| Corpus.ReviewColumn | src/Insights.py:25 | the review column, row by row |
| Corpus.BankColumn | src/Analysis.py:54 | the bank column, row by row |
| Corpus.Banks | src/Analysis.py:54 | `unique()` lists no bank twice, exactly the banks that occur, in order of first appearance |
| Corpus.UniqueBanksDistinct | src/Analysis.py:54 | `unique()` never lists a bank twice |
| Corpus.UniqueBanksMembers | src/Analysis.py:54 | `unique()` lists exactly the banks that occur |
| Corpus.UniqueBanksOrder | src/Analysis.py:54 | `unique()` lists banks in order of first appearance |
| Corpus.BanksNonEmpty | src/Analysis.py:57-62 | every bank of `unique()` has a non-empty frame |
| Corpus.BankRowsNonEmpty | src/Analysis.py:62 | a bank of `unique()` has at least one row |
| Corpus.MeanBounds | src/Analysis.py:66-67 | a mean lies between the smallest and the largest value |
| Corpus.Mean | src/Analysis.py:66-67 | the mean times the number of values is their sum |
| Corpus.BankPresent | src/Analysis.py:62 | a bank's frame is non-empty exactly when some row has that bank |
| Corpus.Scores | src/Analysis.py:67 | the score column, row by row |
| Corpus.Ratings | src/Analysis.py:66 | the rating column, row by row |
| Analysis.WordRuns | src/Analysis.py:22 | each run is non-empty and made of word characters |
| Analysis.WordRunsKeepWordChars | src/Analysis.py:22 | the runs joined together are exactly the word characters of the text, in order |
| Analysis.WordRunsOfJoin | src/Analysis.py:22 | words of word characters separated, preceded and followed by text without word characters come back as exactly those words: the runs are maximal |
| Analysis.KeywordTokens | src/Analysis.py:19-22 | a token is exactly a whole word run of the lower-cased joined texts that has at least three letters `a`-`z` |
| Analysis.KeywordTokensCount | src/Analysis.py:19-22 | each keyword token occurs as often as it occurs as a word run of the lower-cased joined text; any other string not at all |
| Analysis.KeywordTokensAppend | src/Analysis.py:19-22 | the tokens of the texts are the tokens of each text in turn |
| Analysis.FilteredKeywords | src/Analysis.py:25-35 | every kept token is a keyword token and not a stopword |
| Analysis.ExtractKeywords | src/Analysis.py:17-40 | at most `top_n` words, none a stopword, each counted by its occurrences among the filtered tokens, counts non-increasing |
| Analysis.ExtractKeywordsIsTop | src/Analysis.py:38-40 | a word left out is no more frequent than the last returned, and only when `top_n` were returned |
| Analysis.ExtractKeywordsTies | src/Analysis.py:38-40 | equally frequent words come in the order they first occur |
| Analysis.ExtractKeywordsEmpty | src/Analysis.py:38-40 | without filtered tokens the result is empty |
| Analysis.SentimentByRating | src/Analysis.py:43-51 | a rating is a key exactly when it is 1 to 5 and some review has it; its value is the mean score of those reviews |
| Analysis.RatingPresent | src/Analysis.py:47-48 | a rating's frame is non-empty exactly when some review has that rating |
| Analysis.RatingDistribution | src/Analysis.py:79-84 | five counts, one per star rating, each at most the number of reviews |
| Analysis.RatingDistributionSums | src/Analysis.py:79-84 | the five counts add up to the reviews rated 1 to 5; that is all reviews when every rating is in range |
| Analysis.RatingCountsAddUp | src/Analysis.py:79-84 | the per-rating counts add up to the number of reviews rated 1 to 5 |
| Analysis.PositiveNegativeDisjoint | src/Analysis.py:68-69 | positive plus negative labels are at most the number of reviews |
| Analysis.SelectedReviews | src/Analysis.py:87-89 | the selected texts are exactly the reviews of rows of that bank that the mask picks |
| Analysis.CarriedKeywords | src/Analysis.py:86-100 | the list held is at most eight keywords, none a stopword, each counted, counts non-increasing |
| Analysis.CarriedFromLatest | src/Analysis.py:86-132 | the list held is the one extracted for the latest visited bank with reviews of that label |
| Analysis.CarriedNone | src/Analysis.py:131-132 | with no such bank the list is `[]` |
| Analysis.InsightOf | src/Analysis.py:62-69 | positive plus negative reviews are at most all reviews; the total is positive exactly when the bank occurs; the keyword lists are stored as held |
| Analysis.InsightsFor | src/Analysis.py:125-133 | `bank_insights` has an entry for exactly the visited banks, each with bounded counts |
| Analysis.OwnKeywordsWhenPresent | src/Analysis.py:87-97 | a bank with reviews of a label gets keywords extracted from its own reviews |
| Analysis.AnalyzeBanks | src/Analysis.py:53-133 | the loop visits `unique()` and leaves `bank_insights` as the per-bank assignments, with the keyword lists held at each step |
| Analysis.InsightsStep | src/Analysis.py:125-133 | one loop pass assigns the visited bank's metrics |
| Analysis.InsightsValue | src/Analysis.py:125-133 | with distinct banks, each entry holds that bank's metrics and the keyword lists held when it was visited |
| Analysis.CarriedStep | src/Analysis.py:86-100 | keyword lists are replaced only for a bank with reviews of that label; otherwise the previous list is kept |
| Analysis.FirstMaxIndex | src/Analysis.py:152 | `idxmax`: a position of the largest value, with every earlier value smaller |
| Analysis.FirstMinIndex | src/Analysis.py:153 | `idxmin`: a position of the smallest value, with every earlier value larger |
| Analysis.AverageRatings | src/Analysis.py:142 | the average-rating column, one row per bank |
| Analysis.BestAndWorst | src/Analysis.py:139-153 | nothing without banks; otherwise the best has the top average and is listed first among those tied, and the worst has the lowest and is listed first among those tied |
| Analysis.BestBank | src/Analysis.py:152 | the `idxmax` bank has the top average and every earlier bank a lower one |
| Analysis.WorstBank | src/Analysis.py:153 | the `idxmin` bank has the lowest average and every earlier bank a higher one |
| Insights.PhraseText | src/Insights.py:25-28 | the joined, lower-cased, cleaned text holds only word characters and whitespace, none upper-case |
| Insights.PhraseTokens | src/Insights.py:28-32 | every filtered word is longer than two characters, not a stopword, and made of lower-case `\w` characters |
| Insights.PhraseTokensAppend | src/Insights.py:25-32 | the filtered words of the texts are those of each text in turn |
| Insights.BigramAcrossReviews | src/Insights.py:25-35 | the last filtered word of earlier texts and the first of the next text form a bigram |
| Insights.CleanTokensArePhraseWords | src/Insights.py:28-32 | the words of the cleaned text that pass the filter have that shape |
| Insights.Bigrams | src/Insights.py:35 | one bigram per adjacent pair: the two words joined by a space |
| Insights.BigramInjective | src/Insights.py:35 | two words without whitespace are recovered from their bigram |
| Insights.BigramCount | src/Insights.py:35-38 | a bigram occurs once for each position where its first word is directly followed by its second |
| Insights.BigramParts | src/Insights.py:35-48 | every bigram is two filtered words and a space, and `split()` returns the two words |
| Insights.ExtractMeaningfulPhrases | src/Insights.py:23-53 | the result is `most_common(top_n)` of the bigrams of the filtered words |
| Insights.RankBigrams | src/Insights.py:35-53 | walking `most_common(2 * top_n)` with the re-check and the early `break` yields `most_common(top_n)` |
| Insights.CandidatePassesRecheck | src/Insights.py:44-48 | the re-check never rejects a candidate |
| Insights.PhrasesLength | src/Insights.py:41-53 | there are exactly `min(top_n, number of distinct bigrams)` phrases |
| Insights.PhrasesAreCountedBigrams | src/Insights.py:25-38 | each phrase is two filtered words whose count is the number of adjacent positions of the pair, including across review boundaries |
| Insights.PhrasesRanked | src/Insights.py:38-42 | counts are non-increasing, ties in first-seen order, and a bigram left out is no more frequent than the last phrase |
| Insights.FewWordsNoPhrases | src/Insights.py:35-42 | fewer than two filtered words give no phrases |
| Insights.MeaningfulPhrases | src/Insights.py:23-53 | at most `top_n` phrases, each a bigram of the filtered words with its number of occurrences, counts non-increasing |
| Insights.MentionsAny | src/Insights.py:69 | true exactly when some keyword occurs as a substring |
| Insights.FirstMentioned | src/Insights.py:68-70 | the position of the first theme, in declared order, that the text mentions; none earlier is mentioned |
| Insights.CategorizeIssue | src/Insights.py:56-72 | the category is one of the seven names or `Other`; a named category has a keyword in the lower-cased phrase |
| Insights.CategorizeIssueSpec | src/Insights.py:56-72 | `"Other"` exactly when no category matches; otherwise the first matching category in declared order |
| Insights.NoCategoryIsOther | src/Insights.py:58-66 | no declared category is named `Other` |
| Insights.LoginNeverSecurity | src/Insights.py:59-70 | a phrase with `login` or `password` is never Security; it falls in one of the first four categories |
| Insights.SelectDrivers | src/Insights.py:93-104 | drivers are the top eight phrases, in order, except those categorised General Sentiment or Other; the top five are the fallback, only when there are no drivers but there are phrases |
| Insights.NoDriversSpec | src/Insights.py:94-101 | there are no drivers exactly when each of the top eight is General Sentiment or Other |
| Insights.ListPainPoints | src/Insights.py:115-119 | pain points are each of the top eight phrases, in order, with its count and category |
| Insights.PainPointsSpec | src/Insights.py:115-118 | there are `min(8, len)` pain points, the i-th taken from the i-th phrase |
| Insights.PainPointOf | src/Insights.py:116-118 | the triple keeps the phrase and its count, and its category is one of the eight labels |
| Insights.CategoryTotals | src/Insights.py:123-127 | each category of the summary appears once |
| Insights.SummarizeByCategory | src/Insights.py:121-130 | the loop builds the category totals, and the report is those totals sorted by descending total |
| Insights.CategoryTotalsSum | src/Insights.py:123-127 | the category totals add up to the total count of the pain points |
| Insights.CategoryTotalsKeys | src/Insights.py:123-127 | a category is in the summary exactly when some pain point is filed under it |
| Insights.CategoryTotalsEntries | src/Insights.py:123-127 | each category's total is the sum of the counts of the pain points filed under it |
| Insights.CategoryTotalsOrder | src/Insights.py:124-126 | categories come in the order they first appear among the pain points |
| Insights.CategoryReportSpec | src/Insights.py:129-130 | the report holds the same totals, descending, with ties in first-appearance order, and the same overall sum |
| Insights.CountMentions | src/Insights.py:146-149 | the count is the number of reviews that mention one of the keywords |
| Insights.MentionsIssueSpec | src/Insights.py:148 | a review mentions an issue exactly when one of its keywords occurs in the lower-cased review |
| Insights.IssueCountSpec | src/Insights.py:145-151 | each issue keeps its name, with a count at most the number of reviews and positive exactly when some review mentions it |
| Insights.ReportedThreshold | src/Insights.py:151 | an issue is reported exactly when its count exceeds five, and every reported count lies above five and at most the bound on all counts |
| Insights.ScanIssues | src/Insights.py:136-153 | each common issue is counted in order; the reported ones are those with a count over five, in order |
| Insights.ScanThemes | src/Insights.py:145-153 | the issue loop computes each count and the over-five filter |
| Insights.ScanStep | src/Insights.py:145-151 | one issue more extends the counts and the reported list |
| Insights.IssueScanSpec | src/Insights.py:145-153 | each count is at most the number of reviews; an issue is reported exactly when its count exceeds five |
| Insights.SelectedPhrases | src/Insights.py:87-91 | phrases are extracted only from a non-empty selection |
| Insights.ReportBank | src/Insights.py:82-163 | one bank's pass computes its drivers, fallback, pain points, category report, issues and summary |
| Insights.ReportFrom | src/Insights.py:82-153 | for any phrase lists and bank rows: at most eight drivers, all of a driver category; at most eight pain points; a fallback of at most five only without drivers; the category report is descending and adds up to the pain-point total; each reported issue has more than five and at most the bank's reviews |
| Insights.Fallback | src/Insights.py:100-104 | the fallback is non-empty exactly when there are no drivers but there are phrases, and then it is the first (at most five) phrases |
| Insights.ReportedIssues | src/Insights.py:145-153 | every issue reported for a bank has a count above five and at most the number of that bank's reviews |
| Insights.SummaryOf | src/Insights.py:156-163 | positive plus negative reviews are at most all reviews; at most five drivers and pain points, none without reviews of that kind; the total is positive exactly when the bank occurs |
| Insights.IdentifyDriversAndPainPoints | src/Insights.py:74-163 | the loop over `unique()` produces one report per bank, in order, and fills `bank_insights` |
| Insights.BankInsightsStep | src/Insights.py:156-163 | one loop pass assigns the visited bank's summary |
| Insights.BankInsights | src/Insights.py:156-163 | `bank_insights` has an entry for exactly the visited banks, each consistent |
| Insights.BankInsightsValue | src/Insights.py:156-163 | after the loop, every bank has an entry, and it is that bank's own summary |

## Left out

- Unicode: `lower()`, `\w`, `\s`, `strip()` and `split()` are modelled on ASCII only; other characters are kept as they are and never count as letters, digits or whitespace.
- VADER's lexicon scoring (`src/sentiment_analysis.py:15`) is a parameter `string -> real`; only its thresholding is modelled.
- Floating point: means are exact real arithmetic, and the percentages (`positive_pct`, the rating-distribution and issue percentages) and `round(2)` are not computed; `Analysis.Insight` stores the counts they are derived from.
- Analysis.BestAndWorst: with no banks pandas `idxmax`/`idxmin` raise an error; the model returns `None` instead.
- Corpus.Mean: pandas returns NaN for an empty column; the model returns 0.0, a case no caller reaches.
- CSV reads and writes, `pd.to_datetime`, the column selection and renaming of `process_file`, the `main` functions that list and concatenate files, and all `print` output are not modelled; `ProcessFile` takes the rows as already read.
- The keyword lists for low and high ratings (`src/Analysis.py:102-116`) are only printed; they are `Analysis.ExtractKeywords` applied to other selections and are not stored.
- The recommendations dictionary and the second loop that prints it (`src/Insights.py:165` onward) are static text.
- `src/topic_modeling.py`, `src/scrape_reviews.py`, `src/load_to_postgres.py` and `src/visualize.py` are not part of this model (statistical fitting, network, database and plotting).
- The sentiment labels are the datatype `SentimentAnalysis.Label` rather than the strings `"positive"`, `"neutral"`, `"negative"`.
- `bank_insights` in `src/Insights.py` calls `extract_meaningful_phrases` a second time for drivers and pain points; the model reuses the first result, which is the same value since the function is deterministic.
