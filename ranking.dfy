/** Ranking the scored services (backend/index.js:114-121): the records
    whose score is positive are pushed in catalog order, sorted by
    descending score with `Array.prototype.sort` (which is stable), and the
    services of the first five are returned. */
module Ranking {
  import opened Scoring

  /** One entry of `serviceScores`: `{ service, score }`. */
  datatype Scored = Scored(service: Service, score: int)

  // ---------------------------------------------------------------------
  // The order `sort((a, b) => b.score - a.score)` produces

  predicate SortedDesc(xs: seq<Scored>) {
    forall i, j :: 0 <= i < j < |xs| ==> xs[i].score >= xs[j].score
  }

  /** The entries with score `v`, in their order. */
  function WithScore(xs: seq<Scored>, v: int): seq<Scored> {
    if xs == [] then []
    else WithScore(xs[..|xs| - 1], v) + (if xs[|xs| - 1].score == v then [xs[|xs| - 1]] else [])
  }

  /** Inserts `x` behind every entry whose score is at least its own. */
  function Insert(xs: seq<Scored>, x: Scored): seq<Scored> {
    if xs == [] then [x]
    else if xs[|xs| - 1].score >= x.score then xs + [x]
    else Insert(xs[..|xs| - 1], x) + [xs[|xs| - 1]]
  }

  /** The stable descending sort, as insertion sort from the front. */
  function SortDesc(xs: seq<Scored>): seq<Scored> {
    if xs == [] then [] else Insert(SortDesc(xs[..|xs| - 1]), xs[|xs| - 1])
  }

  lemma {:induction false} InsertLength(xs: seq<Scored>, x: Scored)
    ensures |Insert(xs, x)| == |xs| + 1
  {
    if xs != [] && xs[|xs| - 1].score < x.score {
      InsertLength(xs[..|xs| - 1], x);
    }
  }

  lemma {:induction false} InsertMultiset(xs: seq<Scored>, x: Scored)
    ensures multiset(Insert(xs, x)) == multiset(xs) + multiset{x}
  {
    if xs != [] && xs[|xs| - 1].score < x.score {
      var n := |xs| - 1;
      InsertMultiset(xs[..n], x);
      assert xs == xs[..n] + [xs[n]];
    }
  }

  /** Every entry of `Insert(xs, x)` is `x` or an entry of `xs`. */
  lemma InsertMembers(xs: seq<Scored>, x: Scored)
    ensures forall y :: y in Insert(xs, x) <==> y == x || y in xs
  {
    InsertMultiset(xs, x);
    forall y ensures y in Insert(xs, x) <==> y == x || y in xs {
      assert y in Insert(xs, x) <==> y in multiset(Insert(xs, x));
      assert y in xs <==> y in multiset(xs);
    }
  }

  lemma {:induction false} InsertSorted(xs: seq<Scored>, x: Scored)
    requires SortedDesc(xs)
    ensures SortedDesc(Insert(xs, x))
  {
    if xs != [] && xs[|xs| - 1].score < x.score {
      var n := |xs| - 1;
      var init := xs[..n];
      InsertSorted(init, x);
      InsertMembers(init, x);
      var r := Insert(init, x);
      forall i | 0 <= i < |r| ensures r[i].score >= xs[n].score {
        assert r[i] in r;
        if r[i] != x {
          var k :| 0 <= k < n && init[k] == r[i];
        }
      }
    }
  }

  lemma WithScoreAppend(xs: seq<Scored>, ys: seq<Scored>, v: int)
    ensures WithScore(xs + ys, v) == WithScore(xs, v) + WithScore(ys, v)
    decreases |ys|
  {
    if ys == [] {
      assert xs + ys == xs;
    } else {
      assert (xs + ys)[..|xs + ys| - 1] == xs + ys[..|ys| - 1];
      WithScoreAppend(xs, ys[..|ys| - 1], v);
    }
  }

  lemma WithScoreSingle(x: Scored, v: int)
    ensures WithScore([x], v) == if x.score == v then [x] else []
  {
    assert [x][..0] == [];
  }

  /** Inserting keeps, for every score, the order of the entries with that
      score, and puts `x` behind the ones already there. */
  lemma {:induction false} InsertStable(xs: seq<Scored>, x: Scored, v: int)
    ensures WithScore(Insert(xs, x), v) == WithScore(xs, v) + WithScore([x], v)
  {
    if xs == [] {
      WithScoreSingle(x, v);
    } else if xs[|xs| - 1].score >= x.score {
      WithScoreAppend(xs, [x], v);
    } else {
      var n := |xs| - 1;
      var init, last := xs[..n], xs[n];
      // `last` scores below `x`, so at most one of them has score `v`.
      assert WithScore([x], v) == [] || WithScore([last], v) == [] by {
        WithScoreSingle(x, v);
        WithScoreSingle(last, v);
      }
      calc {
        WithScore(Insert(xs, x), v);
        WithScore(Insert(init, x) + [last], v);
        { WithScoreAppend(Insert(init, x), [last], v); }
        WithScore(Insert(init, x), v) + WithScore([last], v);
        { InsertStable(init, x, v); }
        WithScore(init, v) + WithScore([x], v) + WithScore([last], v);
        WithScore(init, v) + WithScore([last], v) + WithScore([x], v);
        { WithScoreAppend(init, [last], v); assert xs == init + [last]; }
        WithScore(xs, v) + WithScore([x], v);
      }
    }
  }

  /** The sort is a permutation, orders by descending score, and is stable:
      for every score, the entries with that score keep their order. */
  lemma {:induction false} SortDescSpec(xs: seq<Scored>)
    ensures |SortDesc(xs)| == |xs|
    ensures multiset(SortDesc(xs)) == multiset(xs)
    ensures SortedDesc(SortDesc(xs))
    ensures forall v :: WithScore(SortDesc(xs), v) == WithScore(xs, v)
  {
    if xs != [] {
      var n := |xs| - 1;
      var init := xs[..n];
      SortDescSpec(init);
      InsertLength(SortDesc(init), xs[n]);
      InsertMultiset(SortDesc(init), xs[n]);
      assert xs == init + [xs[n]];
      InsertSorted(SortDesc(init), xs[n]);
      forall v ensures WithScore(SortDesc(xs), v) == WithScore(xs, v) {
        InsertStable(SortDesc(init), xs[n], v);
        WithScoreAppend(init, [xs[n]], v);
      }
    }
  }

  lemma WithScoreMembers(xs: seq<Scored>, v: int)
    ensures forall y :: y in WithScore(xs, v) <==> y in xs && y.score == v
  {
    if xs != [] {
      var n := |xs| - 1;
      WithScoreMembers(xs[..n], v);
      assert xs == xs[..n] + [xs[n]];
    }
  }

  /** The last entry of a non-empty sequence is among the entries with its
      score. */
  lemma LastWithScore(xs: seq<Scored>)
    requires xs != []
    ensures xs[|xs| - 1] in WithScore(xs, xs[|xs| - 1].score)
  {
  }

  /** In a descending sequence no entry scores below the last one. */
  lemma ScoreAboveLast(xs: seq<Scored>, y: Scored)
    requires SortedDesc(xs) && xs != [] && y in xs
    ensures y.score >= xs[|xs| - 1].score
  {
  }

  lemma SnocCancel(p: seq<Scored>, q: seq<Scored>, t: seq<Scored>)
    requires p + t == q + t
    ensures p == q
  {
    assert p == (p + t)[..|p|];
    assert q == (q + t)[..|q|];
  }

  /** Two descending sequences that agree on the entries of every score end
      with the same entry. */
  lemma LastsEqual(a: seq<Scored>, b: seq<Scored>)
    requires SortedDesc(a) && SortedDesc(b) && a != [] && b != []
    requires forall v :: WithScore(a, v) == WithScore(b, v)
    ensures a[|a| - 1] == b[|b| - 1]
  {
    var n, m := |a| - 1, |b| - 1;
    var x, y := a[n], b[m];
    assert x.score == y.score by {
      LastWithScore(a);
      LastWithScore(b);
      WithScoreMembers(b, x.score);
      WithScoreMembers(a, y.score);
      ScoreAboveLast(b, x);
      ScoreAboveLast(a, y);
    }
    var sx := WithScore(a, x.score);
    assert sx == WithScore(a[..n], x.score) + [x];
    assert sx == WithScore(b[..m], x.score) + [y];
    assert x == sx[|sx| - 1] == y;
  }

  /** Dropping the same last entry from two sequences that agree on the
      entries of every score leaves two that still agree. */
  lemma PrefixesAgree(a: seq<Scored>, b: seq<Scored>, x: Scored)
    requires forall v :: WithScore(a + [x], v) == WithScore(b + [x], v)
    ensures forall v :: WithScore(a, v) == WithScore(b, v)
  {
    forall v ensures WithScore(a, v) == WithScore(b, v) {
      var t := if x.score == v then [x] else [];
      assert (a + [x])[..|a|] == a;
      assert (b + [x])[..|b|] == b;
      assert WithScore(a + [x], v) == WithScore(a, v) + t;
      assert WithScore(b + [x], v) == WithScore(b, v) + t;
      SnocCancel(WithScore(a, v), WithScore(b, v), t);
    }
  }

  /** Two descending sequences that agree on the entries of every score, in
      order, are equal. */
  lemma {:induction false} SortedUnique(a: seq<Scored>, b: seq<Scored>)
    requires SortedDesc(a) && SortedDesc(b)
    requires forall v :: WithScore(a, v) == WithScore(b, v)
    ensures a == b
    decreases |a| + |b|
  {
    if a != [] && b == [] {
      LastWithScore(a);
    } else if a == [] && b != [] {
      LastWithScore(b);
    } else if a != [] {
      var n, m := |a| - 1, |b| - 1;
      LastsEqual(a, b);
      assert a == a[..n] + [a[n]];
      assert b == b[..m] + [a[n]];
      PrefixesAgree(a[..n], b[..m], a[n]);
      assert SortedDesc(a[..n]) && SortedDesc(b[..m]);
      SortedUnique(a[..n], b[..m]);
    }
  }

  /** Whatever algorithm a stable descending sort uses, its result is
      `SortDesc`'s. */
  lemma StableSortIsSortDesc(xs: seq<Scored>, ys: seq<Scored>)
    requires SortedDesc(ys)
    requires forall v :: WithScore(ys, v) == WithScore(xs, v)
    ensures ys == SortDesc(xs)
  {
    SortDescSpec(xs);
    SortedUnique(ys, SortDesc(xs));
  }

  // ---------------------------------------------------------------------
  // The in-place sort

  /** `Insert` of `x` into a descending `s` puts `x` at the first index `j`
      from the back whose predecessor scores at least as much as `x`. */
  lemma {:induction false} InsertAt(s: seq<Scored>, x: Scored, j: nat)
    requires j <= |s|
    requires j == 0 || s[j - 1].score >= x.score
    requires forall k :: j <= k < |s| ==> s[k].score < x.score
    ensures Insert(s, x) == s[..j] + [x] + s[j..]
  {
    if j < |s| {
      var n := |s| - 1;
      InsertAt(s[..n], x, j);
      assert s[..n][..j] == s[..j];
      assert s[j..] == s[..n][j..] + [s[n]];
    } else if s != [] {
      assert s[..j] == s;
    }
  }

  /** The array contents the shift loop leaves: the first `j` entries of
      `sorted`, then `x`, then the rest of `sorted` one place to the right. */
  lemma Shifted(cur: seq<Scored>, sorted: seq<Scored>, x: Scored, j: nat)
    requires j <= |sorted| < |cur|
    requires forall k :: 0 <= k < j ==> cur[k] == sorted[k]
    requires cur[j] == x
    requires forall k :: j < k <= |sorted| ==> cur[k] == sorted[k - 1]
    ensures cur[..|sorted| + 1] == sorted[..j] + [x] + sorted[j..]
  {
  }

  /** Moves `a[i]` left past the entries before it, from the back, that
      score strictly less, shifting those one place right. */
  method InsertLast(a: array<Scored>, i: nat)
    requires i < a.Length
    modifies a
    ensures a[..i + 1] == Insert(old(a[..i]), old(a[i]))
    ensures a[i + 1..] == old(a[i + 1..])
  {
    ghost var sorted := a[..i];
    var x := a[i];
    var j := i;
    while j > 0 && a[j - 1].score < x.score
      invariant 0 <= j <= i
      invariant forall k :: 0 <= k < j ==> a[k] == sorted[k]
      invariant forall k :: j < k <= i ==> a[k] == sorted[k - 1]
      invariant forall k :: i < k < a.Length ==> a[k] == old(a[k])
      invariant forall k :: j <= k < i ==> sorted[k].score < x.score
    {
      a[j] := a[j - 1];
      j := j - 1;
    }
    a[j] := x;
    InsertAt(sorted, x, j);
    Shifted(a[..], sorted, x, j);
    assert a[..][..i + 1] == a[..i + 1];
  }

  /** Sorts `a` in place into the order `SortDesc` defines, by insertion:
      the order `sort((a, b) => b.score - a.score)` gives. */
  method SortByScore(a: array<Scored>)
    modifies a
    ensures a[..] == SortDesc(old(a[..]))
  {
    ghost var input := a[..];
    var i := 0;
    while i < a.Length
      invariant 0 <= i <= a.Length
      invariant a[..i] == SortDesc(input[..i])
      invariant a[i..] == input[i..]
    {
      assert a[i] == input[i] && a[i + 1..] == input[i + 1..] by {
        assert a[i..][0] == a[i] && a[i..][1..] == a[i + 1..];
        assert input[i..][0] == input[i] && input[i..][1..] == input[i + 1..];
      }
      InsertLast(a, i);
      assert input[..i + 1][..i] == input[..i];
      i := i + 1;
    }
    assert input[..a.Length] == input;
  }

  // ---------------------------------------------------------------------
  // From the catalog to the recommendation

  /** The services of every category, category by category, in the order
      `for (const category in allServices)` visits them. */
  function Flatten(catalog: Catalog): seq<Service> {
    if catalog == [] then []
    else Flatten(catalog[..|catalog| - 1]) + catalog[|catalog| - 1].services
  }

  /** Every service paired with its total. */
  function ScoreEach(services: seq<Service>, features: seq<string>): (r: seq<Scored>)
    ensures |r| == |services|
    ensures forall i :: 0 <= i < |services| ==> r[i] == Scored(services[i], ServiceScore(services[i], features))
  {
    seq(|services|, i requires 0 <= i < |services| => Scored(services[i], ServiceScore(services[i], features)))
  }

  /** The entries whose score is above zero, in their order: the
      `if (currentServiceScore > 0)` guard on the push. */
  function Positive(xs: seq<Scored>): seq<Scored> {
    if xs == [] then []
    else Positive(xs[..|xs| - 1]) + (if xs[|xs| - 1].score > 0 then [xs[|xs| - 1]] else [])
  }

  /** `serviceScores` after the loops: one entry per service whose total is
      positive, in catalog order. */
  function ScoreAll(services: seq<Service>, features: seq<string>): seq<Scored> {
    Positive(ScoreEach(services, features))
  }

  /** `.map(item => item.service)`. */
  function Services(xs: seq<Scored>): (r: seq<Service>)
    ensures |r| == |xs|
    ensures forall i :: 0 <= i < |xs| ==> r[i] == xs[i].service
  {
    seq(|xs|, i requires 0 <= i < |xs| => xs[i].service)
  }

  function Min(a: int, b: int): int {
    if a < b then a else b
  }

  /** `serviceScores.slice(0, 5).map(item => item.service)` once
      `serviceScores` is sorted. */
  function TopFive(pushed: seq<Scored>): seq<Service> {
    var ranked := SortDesc(pushed);
    Services(ranked[..Min(5, |ranked|)])
  }

  /** The value `weightedRecommendationAlgorithm` returns. */
  function Recommendation(features: seq<string>, catalog: Catalog): seq<Service> {
    TopFive(ScoreAll(Flatten(catalog), features))
  }

  lemma FlattenSnoc(catalog: Catalog, c: nat)
    requires c < |catalog|
    ensures Flatten(catalog[..c + 1]) == Flatten(catalog[..c]) + catalog[c].services
  {
    assert catalog[..c + 1][..c] == catalog[..c];
  }

  lemma ScoreEachAppend(a: seq<Service>, b: seq<Service>, features: seq<string>)
    ensures ScoreEach(a + b, features) == ScoreEach(a, features) + ScoreEach(b, features)
  {
  }

  lemma ScoreEachSnoc(services: seq<Service>, k: nat, features: seq<string>)
    requires k < |services|
    ensures ScoreEach(services[..k + 1], features)
         == ScoreEach(services[..k], features) + [Scored(services[k], ServiceScore(services[k], features))]
  {
    var whole := ScoreEach(services[..k + 1], features);
    var parts := ScoreEach(services[..k], features) + [Scored(services[k], ServiceScore(services[k], features))];
    forall i | 0 <= i <= k ensures whole[i] == parts[i] {
      assert services[..k + 1][i] == services[i];
    }
  }

  lemma PositiveSnoc(xs: seq<Scored>, x: Scored)
    ensures Positive(xs + [x]) == Positive(xs) + (if x.score > 0 then [x] else [])
  {
    assert (xs + [x])[..|xs|] == xs;
  }

  lemma {:induction false} PositiveAppend(xs: seq<Scored>, ys: seq<Scored>)
    ensures Positive(xs + ys) == Positive(xs) + Positive(ys)
    decreases |ys|
  {
    if ys == [] {
      assert xs + ys == xs;
    } else {
      var n := |ys| - 1;
      assert xs + ys == (xs + ys[..n]) + [ys[n]];
      PositiveAppend(xs, ys[..n]);
      PositiveSnoc(xs + ys[..n], ys[n]);
      PositiveSnoc(ys[..n], ys[n]);
      assert ys == ys[..n] + [ys[n]];
    }
  }

  lemma {:induction false} PositiveMembers(xs: seq<Scored>)
    ensures forall x :: x in Positive(xs) <==> x in xs && x.score > 0
  {
    if xs != [] {
      var n := |xs| - 1;
      PositiveMembers(xs[..n]);
      assert xs == xs[..n] + [xs[n]];
    }
  }

  /** Scoring a catalog is scoring its parts one after the other. */
  lemma ScoreAllAppend(a: seq<Service>, b: seq<Service>, features: seq<string>)
    ensures ScoreAll(a + b, features) == ScoreAll(a, features) + ScoreAll(b, features)
  {
    ScoreEachAppend(a, b, features);
    PositiveAppend(ScoreEach(a, features), ScoreEach(b, features));
  }

  /** An entry is in `serviceScores` exactly when its service is in the
      catalog with a positive total, and that total is its score. */
  lemma ScoreAllMembers(services: seq<Service>, features: seq<string>)
    ensures forall x :: x in ScoreAll(services, features) <==>
      (x.service in services && x.score == ServiceScore(x.service, features) && x.score > 0)
  {
    var each := ScoreEach(services, features);
    PositiveMembers(each);
    forall x ensures x in each <==> x.service in services && x.score == ServiceScore(x.service, features) {
      if x.service in services && x.score == ServiceScore(x.service, features) {
        var k :| 0 <= k < |services| && services[k] == x.service;
        assert each[k] == x;
      }
    }
  }

  /** Scoring with the features in another order gives the same entries. */
  lemma ScoreAllFeatureOrder(services: seq<Service>, f: seq<string>, g: seq<string>)
    requires multiset(f) == multiset(g)
    ensures ScoreAll(services, f) == ScoreAll(services, g)
  {
    forall i | 0 <= i < |services| ensures ServiceScore(services[i], f) == ServiceScore(services[i], g) {
      TotalScorePermutation(ProfileOf(services[i]), f, g);
    }
    assert ScoreEach(services, f) == ScoreEach(services, g);
  }

  lemma {:induction false} PositiveNone(xs: seq<Scored>)
    requires forall i :: 0 <= i < |xs| ==> xs[i].score <= 0
    ensures Positive(xs) == []
  {
    if xs != [] {
      PositiveNone(xs[..|xs| - 1]);
    }
  }

  /** With no features every total is zero, so nothing is pushed. */
  lemma ScoreAllNoFeatures(services: seq<Service>)
    ensures ScoreAll(services, []) == []
  {
    var each := ScoreEach(services, []);
    forall i | 0 <= i < |services| ensures each[i].score == 0 {
      assert FeatureScores(ProfileOf(services[i]), []) == [];
    }
    PositiveNone(each);
  }

  // The top five of any list, by descending score

  /** The first five come from the list, in descending order of score. */
  lemma TopFiveSpec(pushed: seq<Scored>)
    ensures |TopFive(pushed)| == Min(5, |pushed|)
    ensures forall i :: 0 <= i < |TopFive(pushed)| ==>
      SortDesc(pushed)[i] in pushed && TopFive(pushed)[i] == SortDesc(pushed)[i].service
    ensures forall i, j :: 0 <= i < j < |TopFive(pushed)| ==>
      SortDesc(pushed)[i].score >= SortDesc(pushed)[j].score
  {
    var ranked := SortDesc(pushed);
    SortDescSpec(pushed);
    forall i | 0 <= i < |TopFive(pushed)| ensures ranked[i] in pushed {
      assert ranked[i] in multiset(ranked);
    }
  }

  /** In a descending list, an entry whose service is not among the first
      `n` scores no more than any of them. */
  lemma BelowTop(ranked: seq<Scored>, n: nat, x: Scored)
    requires SortedDesc(ranked) && n <= |ranked| && x in ranked
    requires x.service !in Services(ranked[..n])
    ensures forall i :: 0 <= i < n ==> x.score <= ranked[i].score
  {
    var top := Services(ranked[..n]);
    forall j | 0 <= j < n ensures ranked[j] != x {
      assert top[j] == ranked[j].service;
    }
    var k :| 0 <= k < |ranked| && ranked[k] == x;
    assert k >= n;
  }

  /** An entry whose service is left out scores no more than the ones
      kept. */
  lemma TopFiveBest(pushed: seq<Scored>)
    ensures forall x, i :: x in pushed && x.service !in TopFive(pushed) && 0 <= i < |TopFive(pushed)| ==>
      x.score <= SortDesc(pushed)[i].score
  {
    var ranked := SortDesc(pushed);
    SortDescSpec(pushed);
    forall x | x in pushed && x.service !in TopFive(pushed)
      ensures forall i :: 0 <= i < |TopFive(pushed)| ==> x.score <= ranked[i].score
    {
      assert x in multiset(ranked);
      BelowTop(ranked, Min(5, |ranked|), x);
    }
  }

  lemma ServiceOfMember(xs: seq<Scored>, x: Scored)
    requires x in xs
    ensures x.service in Services(xs)
  {
    var k :| 0 <= k < |xs| && xs[k] == x;
    assert Services(xs)[k] == x.service;
  }

  /** A list of fewer than five entries keeps every service. */
  lemma TopFiveComplete(pushed: seq<Scored>)
    requires |pushed| < 5
    ensures forall x :: x in pushed ==> x.service in TopFive(pushed)
  {
    var ranked := SortDesc(pushed);
    SortDescSpec(pushed);
    TakeAll(ranked);
    forall x | x in pushed ensures x.service in Services(ranked) {
      assert x in multiset(ranked);
      ServiceOfMember(ranked, x);
    }
  }

  // The recommendation

  /** The sorted list holds the pushed entries, by descending score, with
      equal scores in catalog order. */
  lemma RankedSpec(features: seq<string>, catalog: Catalog)
    ensures multiset(SortDesc(ScoreAll(Flatten(catalog), features)))
         == multiset(ScoreAll(Flatten(catalog), features))
    ensures SortedDesc(SortDesc(ScoreAll(Flatten(catalog), features)))
    ensures forall v :: WithScore(SortDesc(ScoreAll(Flatten(catalog), features)), v)
                     == WithScore(ScoreAll(Flatten(catalog), features), v)
  {
    SortDescSpec(ScoreAll(Flatten(catalog), features));
  }

  /** At most five services come back, and fewer only when fewer than five
      score above zero. */
  lemma RecommendationLength(features: seq<string>, catalog: Catalog)
    ensures |Recommendation(features, catalog)| == Min(5, |ScoreAll(Flatten(catalog), features)|)
  {
    TopFiveSpec(ScoreAll(Flatten(catalog), features));
  }

  /** Each recommended service is in the catalog and shares a phrase or a
      keyword with some feature. */
  lemma RecommendationRelevant(features: seq<string>, catalog: Catalog)
    ensures forall s :: s in Recommendation(features, catalog) ==>
      s in Flatten(catalog) && ServiceScore(s, features) > 0
      && exists i :: 0 <= i < |features| && SharesSomething(ProfileOf(s), features[i])
  {
    var pushed := ScoreAll(Flatten(catalog), features);
    var r := TopFive(pushed);
    TopFiveSpec(pushed);
    ScoreAllMembers(Flatten(catalog), features);
    forall s | s in r
      ensures s in Flatten(catalog) && ServiceScore(s, features) > 0
      ensures exists i :: 0 <= i < |features| && SharesSomething(ProfileOf(s), features[i])
    {
      var k :| 0 <= k < |r| && r[k] == s;
      assert SortDesc(pushed)[k] in pushed;
      TotalScorePositiveIff(ProfileOf(s), features);
    }
  }

  /** The recommendations come by descending total. */
  lemma RecommendationOrdered(features: seq<string>, catalog: Catalog)
    ensures forall i, j :: 0 <= i < j < |Recommendation(features, catalog)| ==>
      ServiceScore(Recommendation(features, catalog)[i], features)
        >= ServiceScore(Recommendation(features, catalog)[j], features)
  {
    var pushed := ScoreAll(Flatten(catalog), features);
    var r := TopFive(pushed);
    TopFiveSpec(pushed);
    ScoreAllMembers(Flatten(catalog), features);
    forall i, j | 0 <= i < j < |r|
      ensures ServiceScore(r[i], features) >= ServiceScore(r[j], features)
    {
      assert SortDesc(pushed)[i] in pushed && SortDesc(pushed)[j] in pushed;
    }
  }

  /** No catalog service left out of the recommendation scores above one
      that is in it. */
  lemma RecommendationBest(features: seq<string>, catalog: Catalog)
    ensures forall s, i ::
      (s in Flatten(catalog) && s !in Recommendation(features, catalog)
       && 0 <= i < |Recommendation(features, catalog)|) ==>
      ServiceScore(s, features) <= ServiceScore(Recommendation(features, catalog)[i], features)
  {
    var pushed := ScoreAll(Flatten(catalog), features);
    var r := TopFive(pushed);
    TopFiveSpec(pushed);
    TopFiveBest(pushed);
    ScoreAllMembers(Flatten(catalog), features);
    forall s, i | s in Flatten(catalog) && s !in r && 0 <= i < |r|
      ensures ServiceScore(s, features) <= ServiceScore(r[i], features)
    {
      assert SortDesc(pushed)[i] in pushed;
      if ServiceScore(s, features) > 0 {
        assert Scored(s, ServiceScore(s, features)) in pushed;
      }
    }
  }

  /** When fewer than five services score above zero, all of them are
      recommended. */
  lemma RecommendationComplete(features: seq<string>, catalog: Catalog)
    requires |ScoreAll(Flatten(catalog), features)| < 5
    ensures forall s :: s in Flatten(catalog) && ServiceScore(s, features) > 0 ==>
      s in Recommendation(features, catalog)
  {
    var pushed := ScoreAll(Flatten(catalog), features);
    TopFiveComplete(pushed);
    ScoreAllMembers(Flatten(catalog), features);
    forall s | s in Flatten(catalog) && ServiceScore(s, features) > 0
      ensures s in TopFive(pushed)
    {
      assert Scored(s, ServiceScore(s, features)) in pushed;
    }
  }

  /** The order of the detected features does not change the
      recommendation. */
  lemma RecommendationFeatureOrder(f: seq<string>, g: seq<string>, catalog: Catalog)
    requires multiset(f) == multiset(g)
    ensures Recommendation(f, catalog) == Recommendation(g, catalog)
  {
    ScoreAllFeatureOrder(Flatten(catalog), f, g);
  }

  /** No detected features, no recommendation. */
  lemma RecommendationNoFeatures(catalog: Catalog)
    ensures Recommendation([], catalog) == []
  {
    ScoreAllNoFeatures(Flatten(catalog));
  }

  // ---------------------------------------------------------------------
  // The algorithm

  lemma TakeAll<T>(s: seq<T>)
    ensures s[..|s|] == s
  {
  }

  /** One step of the loop over the categories. */
  lemma CategoryStep(catalog: Catalog, c: nat, features: seq<string>)
    requires c < |catalog|
    ensures ScoreAll(Flatten(catalog[..c + 1]), features)
         == ScoreAll(Flatten(catalog[..c]), features) + ScoreAll(catalog[c].services, features)
  {
    FlattenSnoc(catalog, c);
    ScoreAllAppend(Flatten(catalog[..c]), catalog[c].services, features);
  }

  /** One step of the loop over a category's services keeps
      `pushed == before + ScoreAll(services[..k], features)`. */
  lemma PushStep(services: seq<Service>, k: nat, features: seq<string>,
                 before: seq<Scored>, pushed: seq<Scored>, score: int)
    requires k < |services|
    requires pushed == before + Positive(ScoreEach(services[..k], features))
    requires score == ServiceScore(services[k], features)
    ensures (if score > 0 then pushed + [Scored(services[k], score)] else pushed)
         == before + Positive(ScoreEach(services[..k + 1], features))
  {
    ScoreEachSnoc(services, k, features);
    PositiveSnoc(ScoreEach(services[..k], features), Scored(services[k], score));
  }

  /** `allServices[category].forEach(...)`: scores each service of one
      category and pushes those whose total is positive. */
  method ScoreCategory(services: seq<Service>, features: seq<string>, serviceScores: seq<Scored>)
    returns (pushed: seq<Scored>)
    ensures pushed == serviceScores + ScoreAll(services, features)
  {
    pushed := serviceScores;
    var k := 0;
    while k < |services|
      invariant 0 <= k <= |services|
      invariant pushed == serviceScores + Positive(ScoreEach(services[..k], features))
    {
      var service := services[k];
      var currentServiceScore := ScoreService(service, features);
      PushStep(services, k, features, serviceScores, pushed, currentServiceScore);
      if currentServiceScore > 0 {
        pushed := pushed + [Scored(service, currentServiceScore)];
      }
      k := k + 1;
    }
    assert services[..k] == services;
  }

  /** `weightedRecommendationAlgorithm(detectedFeatures, allServices)`:
      scores every service of every category, pushes the positive ones,
      sorts them in place and returns the services of the first five. */
  method Recommend(features: seq<string>, catalog: Catalog) returns (top: seq<Service>)
    ensures top == Recommendation(features, catalog)
  {
    var serviceScores: seq<Scored> := [];
    var c := 0;
    while c < |catalog|
      invariant 0 <= c <= |catalog|
      invariant serviceScores == ScoreAll(Flatten(catalog[..c]), features)
    {
      serviceScores := ScoreCategory(catalog[c].services, features, serviceScores);
      CategoryStep(catalog, c, features);
      c := c + 1;
    }
    TakeAll(catalog);
    var a := new Scored[|serviceScores|](i requires 0 <= i < |serviceScores| => serviceScores[i]);
    assert a[..] == serviceScores;
    SortByScore(a);
    top := Services(a[..Min(5, a.Length)]);
  }
}
