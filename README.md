# Weighted service recommendation, modelled in Dafny

The backend of this system detects facial features in a photograph and
recommends up to five aesthetic-treatment services. The backend is an
Express server; the photograph analysis is done by a language model. The
recommendation itself is `weightedRecommendationAlgorithm`
(backend/index.js:45-122), and this project models it.

The algorithm receives two inputs:

- the detected features, which are short English phrases;
- the service catalog, an object mapping category names to lists of
  services. Each service has a `name` and an optional `description`,
  `problems_treated` list and `enhancements` list.

For every service and every feature it adds up a score:

- 25 points when one of the lower-cased service name and the lower-cased,
  trimmed feature contains the other (either direction suffices);
- 20 points per problem phrase that contains the feature;
- 15 points per enhancement phrase that contains the feature;
- 3, 2, 1 and 0.5 points per service-side keyword that is also a feature
  keyword. The keywords come from the problems, the enhancements, the name
  and the description respectively.

A service with a positive total is pushed onto a list. The list is sorted
by descending score with JavaScript's stable sort, and the services of the
first five entries are returned.

The keywords come from the nested `getKeywords`. It lower-cases the text
and deletes every character other than `[`, the ASCII word characters,
white space, `'` and `-`. It then splits the text at runs of white space
and keeps the pieces that have more than two characters and are not stop
words.

Files:

- `text.dfy` (module `Text`): the string built-ins the code uses:
  - `toLowerCase`, restricted to ASCII;
  - `trim`;
  - `includes`;
  - the `\s` and `\w` character classes.
- `keywords.dfy`:
  - module `Wrappers`: an `Option` for absent fields;
  - module `KeywordExtraction`: `getKeywords` and the `flatMap` over a
    phrase list.
- `sums.dfy` (module `Sums`): sums of integer sequences.
- `scoring.dfy` (module `Scoring`): the service record and the score of
  one feature and of one service, as functions. It also has the methods
  that compute them with the source's loops and counters.
- `ranking.dfy` (module `Ranking`):
  - the pushed records;
  - the stable descending sort, as a specification function and as an
    in-place insertion sort on an array;
  - the top five;
  - the `Recommend` method, which runs the whole algorithm with its loops.

Scores are kept in half-points, so every weight is an integer:
50, 40, 30, 6, 4, 2 and 1.

Behaviour the model takes from the code, where a prose description of the
algorithm would suggest otherwise:

- `\w` in an ECMAScript regular expression (without the `i` flag) matches
  only ASCII letters, digits and `_`, so `replace` deletes every non-ASCII
  letter.
- `[` is kept, because the character class excludes it from deletion.
- There are four keyword-overlap counts: problems, enhancements, name and
  description.
- Each count runs over the service-side keyword list. A keyword the
  service lists twice therefore counts twice, and a keyword the feature
  repeats counts once (`Scoring.KeywordMatchesIsCardinality`).
- The name bonus needs one of the name and the trimmed feature to contain
  the other. A service named "Lip Filler" gets no name bonus for the
  feature "thin lips", since neither string contains the other.
- A feature that is empty after trimming is contained in every name and
  every phrase. It therefore scores 25 plus 20 for each problem phrase and
  15 for each enhancement phrase (`Scoring.EmptyFeatureScore`).
- Sorting is stable, so equal scores stay in catalog order.

## Model

| member | source | states |
|---|---|---|
| Text.Lower | backend/index.js:57 | `toLowerCase`, ASCII only: same length, every character mapped by the ASCII case mapping |
| Text.Trim | backend/index.js:65 | `trim`: the leading and then the trailing white space removed (its properties are the two lemmas below) |
| Text.Contains | backend/index.js:70 | `includes`: the searched string is a prefix of the string or of one of its suffixes (related to an index search by `ContainsIff`) |
| Text.LowerIsLower | backend/index.js:51-65 | a lower-cased string has no upper-case letter, and lower-casing it again changes nothing |
| Text.LowerConcat | backend/index.js:51 | lower-casing works character by character, so it distributes over concatenation |
| Text.TrimIsSlice | backend/index.js:65 | `trim` leaves a contiguous slice of the feature, and everything it cut off at either end is white space |
| Text.TrimEndsNonSpace | backend/index.js:65 | a non-empty trimmed feature neither starts nor ends with white space |
| Text.ContainsIff | backend/index.js:70-81 | `includes` holds exactly when some position of the string starts a copy of the searched string |
| Text.ContainsLength | backend/index.js:70 | a string includes itself, and an included string is never longer than the one that includes it |
| KeywordExtraction.StripDisallowed | backend/index.js:51 | `replace(/[^\[\w\s'-]/g, '')`: the kept characters in their order |
| KeywordExtraction.SplitWs | backend/index.js:51 | `split(/\s+/)`: the pieces between maximal runs of white space, at least one |
| KeywordExtraction.FilterKeywords | backend/index.js:51 | the stop-word and length filter, order kept |
| KeywordExtraction.Tokens | backend/index.js:51 | the lowercase, replace, split and filter chain |
| KeywordExtraction.FlatKeywords | backend/index.js:60-61 | `flatMap(p => getKeywords(p))`: the keywords of every phrase, phrase after phrase |
| KeywordExtraction.Keywords | backend/index.js:49-50 | absent or empty text has no keywords |
| KeywordExtraction.StripDisallowedChars | backend/index.js:51 | after `replace`, exactly the kept characters of the text remain (`[`, ASCII word characters, white space, `'`, `-`) |
| KeywordExtraction.SplitWsChars | backend/index.js:51 | every piece of `split(/\s+/)` is made of characters of the text and contains no white space |
| KeywordExtraction.FilterKeywordsMembers | backend/index.js:47-51 | the filter keeps exactly the pieces that are longer than two characters and not stop words |
| KeywordExtraction.KeywordsShape | backend/index.js:47-52 | every keyword is longer than two characters, is not a stop word, and consists of kept, non-space, lower-case characters |
| KeywordExtraction.KeywordsConcat | backend/index.js:51 | the keywords of two texts joined by a space are the keywords of the first followed by those of the second, in text order and with repeats |
| KeywordExtraction.SplitJoin | backend/index.js:51 | splitting a text followed by a space-led text: the first piece is the first piece of the text alone, and after the keyword filter the remaining pieces are those of the text followed by those of the space-led part |
| KeywordExtraction.SplitWsWord | backend/index.js:51 | `split(/\s+/)` returns a text without white space as its single piece |
| KeywordExtraction.SplitWsLeadingWord | backend/index.js:51 | a word followed by one space and a text that does not start with white space splits into the word followed by the pieces of that text |
| KeywordExtraction.StripKeepsKept | backend/index.js:51 | `replace` leaves a text made only of kept characters unchanged |
| KeywordExtraction.KeywordsOfWord | backend/index.js:49-52 | a keyword of kept, non-space, lower-case characters is returned by `getKeywords` as its one keyword |
| KeywordExtraction.KeywordsOfJoin | backend/index.js:49-52 | `getKeywords` of such keywords joined by single spaces returns exactly that list, in order and with repeats |
| KeywordExtraction.FlatKeywordsShape | backend/index.js:60-61 | the `flatMap` over a phrase list yields only keywords |
| Sums.SumPositive | backend/index.js:111-114 | a sum of non-negative terms is non-negative, and it is positive exactly when one of its terms is |
| Scoring.ProfileOf | backend/index.js:57-62 | what is derived from a service before its features are scored: lowered name, name keywords, the two lists (absent as empty) and their keywords, description keywords |
| Scoring.NormalizeFeature | backend/index.js:65 | `feature.toLowerCase().trim()` |
| Scoring.NameMatches | backend/index.js:70 | the name test in both directions |
| Scoring.PhraseMatches | backend/index.js:75-84 | the number of phrases whose lower-case form includes the feature (counted by `PhraseMatchesIsCardinality`) |
| Scoring.KeywordMatches | backend/index.js:87-108 | the number of service-side keywords found among the feature keywords (counted by `KeywordMatchesIsCardinality`) |
| Scoring.FeatureScore | backend/index.js:65-109 | the score of one raw feature, never negative |
| Scoring.TotalScore | backend/index.js:64-111 | the sum of the feature scores against one profile |
| Scoring.ServiceScore | backend/index.js:56-112 | a service's total, `currentServiceScore` after the feature loop |
| Scoring.AbsentFieldsContributeNothing | backend/index.js:60-62 | an absent problems list, enhancements list or description gives no phrases and no keywords |
| Scoring.MatchScore | backend/index.js:69-109 | the score of one feature is never negative |
| Scoring.PhraseMatchesIsCardinality | backend/index.js:75-84 | the phrase-match count is the number of list positions whose phrase contains the feature |
| Scoring.PhraseMatchesPositive | backend/index.js:75-84 | the phrase-match count is positive exactly when some phrase contains the feature |
| Scoring.PhraseMatchesEmpty | backend/index.js:75-84 | an empty feature matches every phrase |
| Scoring.KeywordMatchesIsCardinality | backend/index.js:87-108 | an overlap count is the number of service-side positions whose keyword is a feature keyword |
| Scoring.KeywordMatchesConcat | backend/index.js:60-96 | the overlap with the flattened keyword list of several phrases is the sum of the overlaps with its parts |
| Scoring.KeywordMatchesPositive | backend/index.js:87-108 | an overlap count is positive exactly when some service keyword is a feature keyword |
| Scoring.NoKeywordsNoMatches | backend/index.js:66-108 | a feature with no keywords has no keyword overlap |
| Scoring.MatchScorePositiveIff | backend/index.js:69-109 | a normalised feature scores above zero exactly when it passes the name test, is contained in a phrase, or shares a keyword with the service |
| Scoring.FeatureScorePositiveIff | backend/index.js:65-109 | the same for a raw feature, after lower-casing and trimming |
| Scoring.NameMatchAddsAtLeast25 | backend/index.js:65-72 | a feature that passes the name test adds at least 25 points |
| Scoring.NameBonusExact | backend/index.js:69-72 | the name test is worth exactly 25 points: a service passing it scores 25 more than the same service under a name that fails it |
| Scoring.EmptyFeatureScore | backend/index.js:65-109 | a feature empty after trimming adds exactly 25, plus 20 per problem phrase and 15 per enhancement phrase |
| Scoring.TotalScoreAppend | backend/index.js:64-111 | scoring two feature lists one after the other adds their totals |
| Scoring.TotalScoreNonNegative | backend/index.js:56-111 | a service's total is never negative |
| Scoring.TotalScorePermutation | backend/index.js:64-111 | reordering the detected features does not change a service's total |
| Scoring.NameMatchRaisesTotal | backend/index.js:70-111 | adding a feature that passes the name test raises the total by at least 25 |
| Scoring.TotalScorePositive | backend/index.js:111-114 | a total is positive exactly when some feature scores above zero |
| Scoring.TotalScorePositiveIff | backend/index.js:64-114 | a service is pushed exactly when some feature shares a name, phrase or keyword with it |
| Scoring.CountKeywordMatches | backend/index.js:87-90 | the counting loop returns the overlap count of the service-side list against the feature keywords |
| Scoring.AddPhraseMatches | backend/index.js:75-84 | the phrase loop adds the weight once for every phrase that contains the feature |
| Scoring.ScoreFeature | backend/index.js:65-109 | the body of the feature loop computes the feature's score against the service profile |
| Scoring.ScoreService | backend/index.js:56-112 | one service's pass derives its profile and returns the total over all features |
| Ranking.SortDesc | backend/index.js:119 | the stable descending sort by score, as insertion sort (its properties are `SortDescSpec` and `StableSortIsSortDesc`) |
| Ranking.Flatten | backend/index.js:54-55 | the services of every category, category by category |
| Ranking.ScoreAll | backend/index.js:54-116 | `serviceScores` after the loops: each service with a positive total, paired with it, in catalog order |
| Ranking.TopFive | backend/index.js:119-121 | the services of the first five entries of the sorted list |
| Ranking.Recommendation | backend/index.js:45-121 | the value the algorithm returns |
| Ranking.SortDescSpec | backend/index.js:119 | the sort is a permutation, orders by descending score, and keeps the order of each set of equal-scoring entries |
| Ranking.StableSortIsSortDesc | backend/index.js:119 | any descending, stable arrangement of the list is the one the model computes, whatever algorithm produced it |
| Ranking.InsertLast | backend/index.js:119 | one insertion step of the in-place sort inserts the next element into the sorted prefix and leaves the rest of the array alone |
| Ranking.SortByScore | backend/index.js:119 | the in-place sort leaves the array holding the stable descending sort of its old contents |
| Ranking.ScoreAllAppend | backend/index.js:54-116 | scoring the categories one after another concatenates their pushed entries |
| Ranking.ScoreAllMembers | backend/index.js:114-116 | an entry is pushed exactly when its service is in the catalog with a positive total, and the total is its score |
| Ranking.ScoreAllFeatureOrder | backend/index.js:64-116 | reordering the features leaves the pushed entries unchanged |
| Ranking.ScoreAllNoFeatures | backend/index.js:56-116 | with no features nothing is pushed |
| Ranking.TopFiveSpec | backend/index.js:119-121 | at most five services come back, each from a pushed entry, ordered by descending score |
| Ranking.TopFiveBest | backend/index.js:119-121 | a pushed entry whose service is not returned scores no more than every returned one |
| Ranking.TopFiveComplete | backend/index.js:121 | with fewer than five pushed entries, every one of their services is returned |
| Ranking.RankedSpec | backend/index.js:54-119 | the sorted list is a permutation of the pushed entries, descending, with equal scores in catalog order |
| Ranking.RecommendationLength | backend/index.js:114-121 | the recommendation has min(5, number of positive services) entries |
| Ranking.RecommendationRelevant | backend/index.js:114-121 | every recommended service is in the catalog, has a positive total, and shares something with some feature |
| Ranking.RecommendationOrdered | backend/index.js:119-121 | recommendations come by descending total |
| Ranking.RecommendationBest | backend/index.js:119-121 | no catalog service left out scores above a recommended one |
| Ranking.RecommendationComplete | backend/index.js:114-121 | when fewer than five services score above zero, all of them are recommended |
| Ranking.RecommendationFeatureOrder | backend/index.js:64-121 | the order of the detected features does not change the recommendation |
| Ranking.RecommendationNoFeatures | backend/index.js:56-121 | no detected features, no recommendation |
| Ranking.ScoreCategory | backend/index.js:55-117 | the loop over one category's services appends one entry per service with a positive total, in list order |
| Ranking.Recommend | backend/index.js:45-121 | the algorithm with its loops, push and in-place sort returns the recommendation the specification functions define |

## Left out

- The Express server is not part of this model: its routes, its body
  parsing, loading `services.json`, the calls to the language-model API,
  `extractJsonFromString` and the prompts. They are I/O and foreign calls.
  The catalog and the detected features are parameters.
- The debugging `console.log` of the top ten scores (backend/index.js:120)
  is output only.
- JavaScript numbers are doubles. Scores are modelled as unbounded
  integers in half-points. Every real score is a small multiple of 0.5,
  so doubles represent it exactly, and a total reaching 2^53 is not
  modelled.
- `toLowerCase` is modelled on ASCII only. The source also maps non-ASCII
  letters, and some of those mappings change the length. Two of them give
  ASCII letters that `replace` keeps: U+212A KELVIN SIGN lowers to `k`, and
  U+0130 (capital I with dot above) lowers to `i` followed by U+0307,
  whose U+0307 `replace` then deletes. So for the text "\u212Aelvin" the
  source yields the keyword "kelvin" and the model yields "elvin". Other
  non-ASCII letters lower to non-ASCII letters, which `replace` deletes in
  either case. In the name and phrase `includes` tests every non-ASCII
  case mapping matters.
- Strings are sequences of Unicode characters. JavaScript strings are
  UTF-16 code units, so characters outside the Basic Multilingual Plane
  are not modelled as surrogate pairs.
- Malformed catalog entries are not modelled: a service without a `name`,
  where the source throws a `TypeError`, and field values of the wrong
  type. The model's types rule them out. Likewise, features are strings.
- `for...in` enumeration order is not modelled. The catalog is the
  sequence of categories in the order they are visited. JavaScript visits
  integer-like keys first, in numeric order, and lists inherited
  enumerable keys too.
- The engine's sorting algorithm is not modelled: V8 uses TimSort, and the
  model uses insertion sort. `Ranking.StableSortIsSortDesc` proves that any
  stable descending sort gives the same result, so the difference cannot
  be observed. The comparator `b.score - a.score` is exact on these
  scores.
- Object identity is not modelled. The source returns the same service
  objects it was given, and the model returns equal values.
- The source sorts the very array it pushed onto. The model pushes onto a
  sequence and copies it into a fresh array before sorting in place.
  Nothing else holds that array, so no aliasing is lost.
- `Scoring.MatchScore`: its own contract states only that a score is
  non-negative. Exact values are stated by the lemmas about it
  (`NameBonusExact`, `EmptyFeatureScore`, the cardinality lemmas).
