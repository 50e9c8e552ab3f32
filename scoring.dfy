/** The per-service score of the recommendation algorithm
    (backend/index.js:56-112): for every detected feature, a direct name
    match, phrase matches in the `problems_treated` and `enhancements`
    lists, and four keyword-overlap counts, each with its own weight.

    Scores are kept in half-points so that they are integers: the source's
    weights 25, 20, 15, 3, 2, 1 and 0.5 are 50, 40, 30, 6, 4, 2 and 1 here,
    and a score is positive in half-points exactly when it is positive in
    points. */
module Scoring {
  import opened Text
  import opened Wrappers
  import opened KeywordExtraction
  import opened Sums

  /** A catalog entry. `name` is required (the source calls `toLowerCase`
      on it); the other three fields may be absent. */
  datatype Service = Service(
    name: string,
    description: Option<string>,
    problemsTreated: Option<seq<string>>,
    enhancements: Option<seq<string>>)

  /** One key of the catalog object with its list of services. */
  datatype Category = Category(key: string, services: seq<Service>)

  /** The catalog, its categories in `for...in` order. */
  type Catalog = seq<Category>

  const NamePoints := 50
  const ProblemPhrasePoints := 40
  const EnhancementPhrasePoints := 30
  const ProblemKeywordPoints := 6
  const EnhancementKeywordPoints := 4
  const NameKeywordPoints := 2
  const DescriptionKeywordPoints := 1

  /** What the scorer derives from a service once, before it looks at the
      features (backend/index.js:57-62). */
  datatype Profile = Profile(
    nameLower: string,
    nameKeywords: seq<string>,
    problems: seq<string>,
    enhancements: seq<string>,
    problemKeywords: seq<string>,
    enhancementKeywords: seq<string>,
    descriptionKeywords: seq<string>)

  function ProfileOf(s: Service): Profile {
    var problems := s.problemsTreated.GetOr([]);
    var enhancements := s.enhancements.GetOr([]);
    Profile(Lower(s.name), Keywords(Some(s.name)), problems, enhancements,
            FlatKeywords(problems), FlatKeywords(enhancements), Keywords(s.description))
  }

  /** An absent list or description contributes no phrases and no
      keywords, as `|| []` and the guard of `getKeywords` make it. */
  lemma AbsentFieldsContributeNothing(s: Service)
    ensures s.problemsTreated == None ==> ProfileOf(s).problems == [] && ProfileOf(s).problemKeywords == []
    ensures s.enhancements == None ==> ProfileOf(s).enhancements == [] && ProfileOf(s).enhancementKeywords == []
    ensures s.description == None ==> ProfileOf(s).descriptionKeywords == []
  {
  }

  /** `feature.toLowerCase().trim()`. */
  function NormalizeFeature(feature: string): string {
    Trim(Lower(feature))
  }

  /** The direct name test, in both directions. */
  predicate NameMatches(nameLower: string, featureLower: string) {
    Contains(nameLower, featureLower) || Contains(featureLower, nameLower)
  }

  /** The number of phrases whose lower-case form contains the feature
      (each phrase that matches adds its points once). */
  function PhraseMatches(phrases: seq<string>, featureLower: string): nat {
    if phrases == [] then 0
    else PhraseMatches(phrases[..|phrases| - 1], featureLower)
         + (if Contains(Lower(phrases[|phrases| - 1]), featureLower) then 1 else 0)
  }

  /** The number of positions of the service-side keyword list whose
      keyword is one of the feature's keywords. */
  function KeywordMatches(serviceKeywords: seq<string>, featureKeywords: seq<string>): nat {
    if serviceKeywords == [] then 0
    else KeywordMatches(serviceKeywords[..|serviceKeywords| - 1], featureKeywords)
         + (if serviceKeywords[|serviceKeywords| - 1] in featureKeywords then 1 else 0)
  }

  /** The score of a feature that has been lowered and trimmed
      (`featureLower`) and split into keywords (`featureKeywords`)
      against a service profile (backend/index.js:69-109). */
  function MatchScore(p: Profile, featureLower: string, featureKeywords: seq<string>): (r: int)
    ensures r >= 0
  {
    (if NameMatches(p.nameLower, featureLower) then NamePoints else 0)
    + PhraseMatches(p.problems, featureLower) * ProblemPhrasePoints
    + PhraseMatches(p.enhancements, featureLower) * EnhancementPhrasePoints
    + KeywordMatches(p.problemKeywords, featureKeywords) * ProblemKeywordPoints
    + KeywordMatches(p.enhancementKeywords, featureKeywords) * EnhancementKeywordPoints
    + KeywordMatches(p.nameKeywords, featureKeywords) * NameKeywordPoints
    + KeywordMatches(p.descriptionKeywords, featureKeywords) * DescriptionKeywordPoints
  }

  /** The contribution of one feature to a service's score
      (backend/index.js:65-109). */
  function FeatureScore(p: Profile, feature: string): (r: int)
    ensures r >= 0
  {
    var featureLower := NormalizeFeature(feature);
    MatchScore(p, featureLower, Keywords(Some(featureLower)))
  }

  /** The score of every feature against one profile, in feature order. */
  function FeatureScores(p: Profile, features: seq<string>): (r: seq<int>)
    ensures |r| == |features|
    ensures forall i :: 0 <= i < |features| ==> r[i] == FeatureScore(p, features[i])
  {
    seq(|features|, i requires 0 <= i < |features| => FeatureScore(p, features[i]))
  }

  /** The total over all features of their scores against one profile:
      the inner `forEach` of backend/index.js:64-110. */
  function TotalScore(p: Profile, features: seq<string>): int {
    Sum(FeatureScores(p, features))
  }

  /** A service's total: its profile scored against every feature. */
  function ServiceScore(s: Service, features: seq<string>): int {
    TotalScore(ProfileOf(s), features)
  }

  // ---------------------------------------------------------------------
  // Counting

  /** The positions of the phrases that contain the feature. */
  function PhraseHits(phrases: seq<string>, featureLower: string): set<int> {
    set i | 0 <= i < |phrases| && Contains(Lower(phrases[i]), featureLower)
  }

  /** The phrase-match count is the number of phrases containing the
      feature, repeated phrases included. */
  lemma {:induction false} PhraseMatchesIsCardinality(phrases: seq<string>, featureLower: string)
    ensures PhraseMatches(phrases, featureLower) == |PhraseHits(phrases, featureLower)|
  {
    if phrases != [] {
      var n := |phrases| - 1;
      PhraseMatchesIsCardinality(phrases[..n], featureLower);
      PhraseHitsSnoc(phrases, featureLower);
    }
  }

  lemma PhraseHitsSnoc(phrases: seq<string>, featureLower: string)
    requires phrases != []
    ensures var n := |phrases| - 1;
      PhraseHits(phrases, featureLower)
      == PhraseHits(phrases[..n], featureLower) + (if Contains(Lower(phrases[n]), featureLower) then {n} else {})
    ensures |phrases| - 1 !in PhraseHits(phrases[..|phrases| - 1], featureLower)
  {
    var n := |phrases| - 1;
    var init := phrases[..n];
    var before := PhraseHits(init, featureLower);
    var all := PhraseHits(phrases, featureLower);
    var last: set<int> := if Contains(Lower(phrases[n]), featureLower) then {n} else {};
    forall i ensures i in all <==> i in before + last {
      if 0 <= i < n {
        assert init[i] == phrases[i];
      }
    }
  }

  /** The positions of the service-side keywords that are feature
      keywords. */
  function KeywordHits(serviceKeywords: seq<string>, featureKeywords: seq<string>): set<int> {
    set i | 0 <= i < |serviceKeywords| && serviceKeywords[i] in featureKeywords
  }

  /** The keyword-overlap count is the number of positions of the SERVICE
      side list whose keyword occurs among the feature's keywords, so a
      keyword the service lists twice counts twice. */
  lemma {:induction false} KeywordMatchesIsCardinality(serviceKeywords: seq<string>, featureKeywords: seq<string>)
    ensures KeywordMatches(serviceKeywords, featureKeywords) == |KeywordHits(serviceKeywords, featureKeywords)|
  {
    if serviceKeywords != [] {
      var n := |serviceKeywords| - 1;
      var init := serviceKeywords[..n];
      KeywordMatchesIsCardinality(init, featureKeywords);
      var before := KeywordHits(init, featureKeywords);
      var all := KeywordHits(serviceKeywords, featureKeywords);
      assert before == set i | 0 <= i < n && serviceKeywords[i] in featureKeywords;
      if serviceKeywords[n] in featureKeywords {
        assert n !in before && all == before + {n};
      } else {
        assert all == before;
      }
    }
  }

  /** The overlap with a concatenated keyword list (the `flatMap` of the
      problems or enhancements) is the sum of the overlaps with its parts. */
  lemma {:induction false} KeywordMatchesConcat(a: seq<string>, b: seq<string>, featureKeywords: seq<string>)
    ensures KeywordMatches(a + b, featureKeywords)
         == KeywordMatches(a, featureKeywords) + KeywordMatches(b, featureKeywords)
    decreases |b|
  {
    if b == [] {
      assert a + b == a;
    } else {
      assert (a + b)[..|a + b| - 1] == a + b[..|b| - 1];
      KeywordMatchesConcat(a, b[..|b| - 1], featureKeywords);
    }
  }

  /** Some service keyword is a feature keyword exactly when the overlap
      count is positive. */
  lemma {:induction false} KeywordMatchesPositive(serviceKeywords: seq<string>, featureKeywords: seq<string>)
    ensures KeywordMatches(serviceKeywords, featureKeywords) > 0
        <==> exists i :: 0 <= i < |serviceKeywords| && serviceKeywords[i] in featureKeywords
  {
    if serviceKeywords != [] {
      var n := |serviceKeywords| - 1;
      var init := serviceKeywords[..n];
      KeywordMatchesPositive(init, featureKeywords);
      if exists i :: 0 <= i < n && init[i] in featureKeywords {
        var i :| 0 <= i < n && init[i] in featureKeywords;
        assert serviceKeywords[i] in featureKeywords;
      }
      if exists i :: 0 <= i < |serviceKeywords| && serviceKeywords[i] in featureKeywords {
        var i :| 0 <= i < |serviceKeywords| && serviceKeywords[i] in featureKeywords;
        if i < n {
          assert init[i] in featureKeywords;
        }
      }
    }
  }

  /** Some phrase contains the feature exactly when the phrase-match count
      is positive. */
  lemma {:induction false} PhraseMatchesPositive(phrases: seq<string>, featureLower: string)
    ensures PhraseMatches(phrases, featureLower) > 0
        <==> exists i :: 0 <= i < |phrases| && Contains(Lower(phrases[i]), featureLower)
  {
    if phrases != [] {
      var n := |phrases| - 1;
      var init := phrases[..n];
      PhraseMatchesPositive(init, featureLower);
      if exists i :: 0 <= i < n && Contains(Lower(init[i]), featureLower) {
        var i :| 0 <= i < n && Contains(Lower(init[i]), featureLower);
        assert init[i] == phrases[i];
      }
      if exists i :: 0 <= i < |phrases| && Contains(Lower(phrases[i]), featureLower) {
        var i :| 0 <= i < |phrases| && Contains(Lower(phrases[i]), featureLower);
        if i < n {
          assert init[i] == phrases[i];
        }
      }
    }
  }

  /** Every phrase includes the empty feature. */
  lemma {:induction false} PhraseMatchesEmpty(phrases: seq<string>)
    ensures PhraseMatches(phrases, "") == |phrases|
  {
    if phrases != [] {
      PhraseMatchesEmpty(phrases[..|phrases| - 1]);
      ContainsEmpty(Lower(phrases[|phrases| - 1]));
    }
  }

  /** A feature with no keywords overlaps with nothing. */
  lemma {:induction false} NoKeywordsNoMatches(serviceKeywords: seq<string>)
    ensures KeywordMatches(serviceKeywords, []) == 0
  {
    if serviceKeywords != [] {
      NoKeywordsNoMatches(serviceKeywords[..|serviceKeywords| - 1]);
    }
  }

  // ---------------------------------------------------------------------
  // Properties of the per-feature score

  /** The service and the feature share something: the name test passes, a
      phrase contains the feature, or a service keyword is a feature
      keyword. */
  predicate Shares(p: Profile, featureLower: string, featureKeywords: seq<string>) {
    NameMatches(p.nameLower, featureLower)
    || (exists i :: 0 <= i < |p.problems| && Contains(Lower(p.problems[i]), featureLower))
    || (exists i :: 0 <= i < |p.enhancements| && Contains(Lower(p.enhancements[i]), featureLower))
    || (exists i :: 0 <= i < |p.problemKeywords| && p.problemKeywords[i] in featureKeywords)
    || (exists i :: 0 <= i < |p.enhancementKeywords| && p.enhancementKeywords[i] in featureKeywords)
    || (exists i :: 0 <= i < |p.nameKeywords| && p.nameKeywords[i] in featureKeywords)
    || (exists i :: 0 <= i < |p.descriptionKeywords| && p.descriptionKeywords[i] in featureKeywords)
  }

  predicate SharesSomething(p: Profile, feature: string) {
    var featureLower := NormalizeFeature(feature);
    Shares(p, featureLower, Keywords(Some(featureLower)))
  }

  /** A weighted sum of counts with positive weights is positive exactly
      when one of its terms is. */
  lemma WeightedSumPositive(name: bool, problemPhrases: nat, enhancementPhrases: nat,
                            problemWords: nat, enhancementWords: nat, nameWords: nat, descriptionWords: nat)
    ensures (if name then NamePoints else 0)
            + problemPhrases * ProblemPhrasePoints + enhancementPhrases * EnhancementPhrasePoints
            + problemWords * ProblemKeywordPoints + enhancementWords * EnhancementKeywordPoints
            + nameWords * NameKeywordPoints + descriptionWords * DescriptionKeywordPoints > 0
        <==> name || problemPhrases > 0 || enhancementPhrases > 0
             || problemWords > 0 || enhancementWords > 0 || nameWords > 0 || descriptionWords > 0
  {
  }

  /** A normalised feature scores above zero exactly when it shares a
      substring or a keyword with the service; otherwise it adds nothing. */
  lemma MatchScorePositiveIff(p: Profile, featureLower: string, featureKeywords: seq<string>)
    ensures MatchScore(p, featureLower, featureKeywords) > 0 <==> Shares(p, featureLower, featureKeywords)
  {
    var problemPhrases := PhraseMatches(p.problems, featureLower);
    var enhancementPhrases := PhraseMatches(p.enhancements, featureLower);
    var problemWords := KeywordMatches(p.problemKeywords, featureKeywords);
    var enhancementWords := KeywordMatches(p.enhancementKeywords, featureKeywords);
    var nameWords := KeywordMatches(p.nameKeywords, featureKeywords);
    var descriptionWords := KeywordMatches(p.descriptionKeywords, featureKeywords);
    WeightedSumPositive(NameMatches(p.nameLower, featureLower), problemPhrases, enhancementPhrases,
                        problemWords, enhancementWords, nameWords, descriptionWords);
    PhraseMatchesPositive(p.problems, featureLower);
    PhraseMatchesPositive(p.enhancements, featureLower);
    KeywordMatchesPositive(p.problemKeywords, featureKeywords);
    KeywordMatchesPositive(p.enhancementKeywords, featureKeywords);
    KeywordMatchesPositive(p.nameKeywords, featureKeywords);
    KeywordMatchesPositive(p.descriptionKeywords, featureKeywords);
  }

  /** The same for a raw feature string. */
  lemma FeatureScorePositiveIff(p: Profile, feature: string)
    ensures FeatureScore(p, feature) > 0 <==> SharesSomething(p, feature)
  {
    var featureLower := NormalizeFeature(feature);
    MatchScorePositiveIff(p, featureLower, Keywords(Some(featureLower)));
  }

  /** A feature that passes the direct name test adds at least 25 points. */
  lemma NameMatchAddsAtLeast25(p: Profile, feature: string)
    requires NameMatches(p.nameLower, NormalizeFeature(feature))
    ensures FeatureScore(p, feature) >= NamePoints
  {
  }

  /** The name test is worth exactly 25 points, once per feature: a
      service whose name passes it scores exactly 25 more than the same
      service under a name that does not. */
  lemma NameBonusExact(p: Profile, otherName: string, featureLower: string, featureKeywords: seq<string>)
    requires NameMatches(p.nameLower, featureLower) && !NameMatches(otherName, featureLower)
    ensures MatchScore(p, featureLower, featureKeywords)
         == MatchScore(p.(nameLower := otherName), featureLower, featureKeywords) + NamePoints
  {
  }

  /** A feature that is empty after trimming passes the name test and is
      contained in every phrase, and it has no keywords: it adds exactly
      25 points plus 20 per problem phrase and 15 per enhancement phrase. */
  lemma EmptyFeatureScore(p: Profile, feature: string)
    requires NormalizeFeature(feature) == ""
    ensures FeatureScore(p, feature)
         == NamePoints + |p.problems| * ProblemPhrasePoints + |p.enhancements| * EnhancementPhrasePoints
  {
    ContainsEmpty(p.nameLower);
    PhraseMatchesEmpty(p.problems);
    PhraseMatchesEmpty(p.enhancements);
    NoKeywordsNoMatches(p.problemKeywords);
    NoKeywordsNoMatches(p.enhancementKeywords);
    NoKeywordsNoMatches(p.nameKeywords);
    NoKeywordsNoMatches(p.descriptionKeywords);
  }

  // ---------------------------------------------------------------------
  // Properties of the total

  lemma FeatureScoresAppend(p: Profile, a: seq<string>, b: seq<string>)
    ensures FeatureScores(p, a + b) == FeatureScores(p, a) + FeatureScores(p, b)
  {
    var whole, parts := FeatureScores(p, a + b), FeatureScores(p, a) + FeatureScores(p, b);
    forall i | 0 <= i < |whole| ensures whole[i] == parts[i] {
      if i < |a| {
        assert (a + b)[i] == a[i];
      } else {
        assert (a + b)[i] == b[i - |a|];
      }
    }
  }

  /** Scoring two feature lists one after the other adds their totals. */
  lemma TotalScoreAppend(p: Profile, a: seq<string>, b: seq<string>)
    ensures TotalScore(p, a + b) == TotalScore(p, a) + TotalScore(p, b)
  {
    FeatureScoresAppend(p, a, b);
    SumAppend(FeatureScores(p, a), FeatureScores(p, b));
  }

  lemma TotalScoreSingle(p: Profile, feature: string)
    ensures TotalScore(p, [feature]) == FeatureScore(p, feature)
  {
    assert FeatureScores(p, [feature]) == [FeatureScore(p, feature)];
    SumSingle(FeatureScore(p, feature));
  }

  /** A total is never negative. */
  lemma TotalScoreNonNegative(p: Profile, features: seq<string>)
    ensures TotalScore(p, features) >= 0
  {
    SumPositive(FeatureScores(p, features));
  }

  /** Taking one feature out of the list takes its score out of the
      total. */
  lemma TotalScoreSplit(p: Profile, features: seq<string>, k: nat)
    requires k < |features|
    ensures TotalScore(p, features)
         == TotalScore(p, features[..k]) + FeatureScore(p, features[k]) + TotalScore(p, features[k + 1..])
  {
    var xs := FeatureScores(p, features);
    SumSplit(xs, k);
    FeatureScoresTake(p, features, k);
    FeatureScoresDrop(p, features, k + 1);
  }

  lemma FeatureScoresTake(p: Profile, features: seq<string>, k: nat)
    requires k <= |features|
    ensures FeatureScores(p, features)[..k] == FeatureScores(p, features[..k])
  {
  }

  lemma FeatureScoresDrop(p: Profile, features: seq<string>, k: nat)
    requires k <= |features|
    ensures FeatureScores(p, features)[k..] == FeatureScores(p, features[k..])
  {
  }

  /** The prefix form used by the scoring loop. */
  lemma TotalScoreSnoc(p: Profile, features: seq<string>, i: nat)
    requires i < |features|
    ensures TotalScore(p, features[..i + 1]) == TotalScore(p, features[..i]) + FeatureScore(p, features[i])
  {
    var xs := FeatureScores(p, features[..i + 1]);
    FeatureScoresTake(p, features[..i + 1], i);
    assert features[..i + 1][..i] == features[..i];
  }

  /** The order of the features does not change a service's total. */
  lemma {:induction false} TotalScorePermutation(p: Profile, a: seq<string>, b: seq<string>)
    requires multiset(a) == multiset(b)
    ensures TotalScore(p, a) == TotalScore(p, b)
    decreases |a|
  {
    if a != [] {
      var n := |a| - 1;
      var k := MatchLast(a, b);
      TotalScorePermutation(p, a[..n], b[..k] + b[k + 1..]);
      TotalScoreSplit(p, a, n);
      assert a[n + 1..] == [];
      TotalScoreSplit(p, b, k);
      TotalScoreAppend(p, b[..k], b[k + 1..]);
    } else {
      assert |b| == |multiset(b)| == 0;
    }
  }

  /** Adding a feature that passes the name test raises the total by at
      least 25 points. */
  lemma NameMatchRaisesTotal(p: Profile, features: seq<string>, feature: string)
    requires NameMatches(p.nameLower, NormalizeFeature(feature))
    ensures TotalScore(p, features + [feature]) >= TotalScore(p, features) + NamePoints
  {
    TotalScoreAppend(p, features, [feature]);
    TotalScoreSingle(p, feature);
    NameMatchAddsAtLeast25(p, feature);
  }

  /** A total is positive exactly when one of its features scores above
      zero. */
  lemma TotalScorePositive(p: Profile, features: seq<string>)
    ensures TotalScore(p, features) > 0
        <==> exists i :: 0 <= i < |features| && FeatureScore(p, features[i]) > 0
  {
    SumPositive(FeatureScores(p, features));
  }

  /** A service scores above zero exactly when some feature shares a
      substring or a keyword with it. */
  lemma TotalScorePositiveIff(p: Profile, features: seq<string>)
    ensures TotalScore(p, features) > 0
        <==> exists i :: 0 <= i < |features| && SharesSomething(p, features[i])
  {
    TotalScorePositive(p, features);
    if TotalScore(p, features) > 0 {
      var i :| 0 <= i < |features| && FeatureScore(p, features[i]) > 0;
      FeatureScorePositiveIff(p, features[i]);
    }
    if exists i :: 0 <= i < |features| && SharesSomething(p, features[i]) {
      var i :| 0 <= i < |features| && SharesSomething(p, features[i]);
      FeatureScorePositiveIff(p, features[i]);
    }
  }

  // ---------------------------------------------------------------------
  // The scoring loops

  /** `serviceKeywords.forEach(k => { if (featureKeywords.includes(k)) n++ })`. */
  method CountKeywordMatches(serviceKeywords: seq<string>, featureKeywords: seq<string>)
    returns (matches: nat)
    ensures matches == KeywordMatches(serviceKeywords, featureKeywords)
  {
    matches := 0;
    var i := 0;
    while i < |serviceKeywords|
      invariant 0 <= i <= |serviceKeywords|
      invariant matches == KeywordMatches(serviceKeywords[..i], featureKeywords)
    {
      assert serviceKeywords[..i + 1][..i] == serviceKeywords[..i];
      if serviceKeywords[i] in featureKeywords {
        matches := matches + 1;
      }
      i := i + 1;
    }
    assert serviceKeywords[..i] == serviceKeywords;
  }

  /** `phrases.forEach(p => { if (p.toLowerCase().includes(featureLower)) score += points })`. */
  method AddPhraseMatches(phrases: seq<string>, featureLower: string, points: int, score: int)
    returns (newScore: int)
    ensures newScore == score + PhraseMatches(phrases, featureLower) * points
  {
    newScore := score;
    var i := 0;
    while i < |phrases|
      invariant 0 <= i <= |phrases|
      invariant newScore == score + PhraseMatches(phrases[..i], featureLower) * points
    {
      ghost var before := PhraseMatches(phrases[..i], featureLower);
      assert phrases[..i + 1][..i] == phrases[..i];
      if Contains(Lower(phrases[i]), featureLower) {
        assert (before + 1) * points == before * points + points;
        newScore := newScore + points;
      }
      i := i + 1;
    }
    assert phrases[..i] == phrases;
  }

  /** The body of `detectedFeatures.forEach` (backend/index.js:65-109). */
  method ScoreFeature(p: Profile, feature: string) returns (featureScore: int)
    ensures featureScore == FeatureScore(p, feature)
  {
    var featureLower := Trim(Lower(feature));
    var featureKeywords := Keywords(Some(featureLower));
    featureScore := 0;
    if Contains(p.nameLower, featureLower) || Contains(featureLower, p.nameLower) {
      featureScore := featureScore + NamePoints;
    }
    featureScore := AddPhraseMatches(p.problems, featureLower, ProblemPhrasePoints, featureScore);
    featureScore := AddPhraseMatches(p.enhancements, featureLower, EnhancementPhrasePoints, featureScore);
    var problemMatches := CountKeywordMatches(p.problemKeywords, featureKeywords);
    featureScore := featureScore + problemMatches * ProblemKeywordPoints;
    var enhancementMatches := CountKeywordMatches(p.enhancementKeywords, featureKeywords);
    featureScore := featureScore + enhancementMatches * EnhancementKeywordPoints;
    var nameMatches := CountKeywordMatches(p.nameKeywords, featureKeywords);
    featureScore := featureScore + nameMatches * NameKeywordPoints;
    var descriptionMatches := CountKeywordMatches(p.descriptionKeywords, featureKeywords);
    featureScore := featureScore + descriptionMatches * DescriptionKeywordPoints;
    assert featureScore == MatchScore(p, featureLower, featureKeywords);
  }

  /** One service's pass of the scorer (backend/index.js:56-112): derive its
      profile, then add up the score of every feature. */
  method ScoreService(s: Service, features: seq<string>) returns (currentServiceScore: int)
    ensures currentServiceScore == ServiceScore(s, features)
  {
    var problems := s.problemsTreated.GetOr([]);
    var enhancements := s.enhancements.GetOr([]);
    var p := Profile(Lower(s.name), Keywords(Some(s.name)), problems, enhancements,
                     FlatKeywords(problems), FlatKeywords(enhancements), Keywords(s.description));
    assert p == ProfileOf(s);
    currentServiceScore := 0;
    var i := 0;
    while i < |features|
      invariant 0 <= i <= |features|
      invariant currentServiceScore == TotalScore(p, features[..i])
    {
      var featureScore := ScoreFeature(p, features[i]);
      TotalScoreSnoc(p, features, i);
      currentServiceScore := currentServiceScore + featureScore;
      i := i + 1;
    }
    assert features[..i] == features;
  }
}
