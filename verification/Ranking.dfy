/** Deterministic weighted ranking of publications (`codegen_kit_ranking/scoring.py`), over
    real arithmetic. */
module Ranking {
  import opened Options
  import Sorting

  datatype Criterion = Views | Reactions | Forwards | Freshness | Keywords

  const Metrics: seq<Criterion> := [Views, Reactions, Forwards]
  const Criteria: seq<Criterion> := [Views, Reactions, Forwards, Freshness, Keywords]

  const MaxHalfLifeHours: real := 8760.0
  const SecondsPerHour: real := 3600.0

  datatype Publication = Publication(
    id: string,
    date: int,
    text: Option<string>,
    views: Option<nat>,
    reactions: Option<nat>,
    forwards: Option<nat>)
  {
    function Reported(c: Criterion): Option<nat> {
      match c
      case Views => views
      case Reactions => reactions
      case Forwards => forwards
      case _ => None
    }
  }

  datatype Weights = Weights(views: real, reactions: real, forwards: real, freshness: real, keywords: real) {
    function Of(c: Criterion): real {
      match c
      case Views => views
      case Reactions => reactions
      case Forwards => forwards
      case Freshness => freshness
      case Keywords => keywords
    }

    function Total(): real {
      views + reactions + forwards + freshness + keywords
    }

    function Scaled(k: real): Weights {
      Weights(k * views, k * reactions, k * forwards, k * freshness, k * keywords)
    }
  }

  datatype Settings = Settings(weights: Weights, keywords: seq<string>)

  /** What a call ranks under besides the publications: `decay` is one half raised to its
      argument, `mentions` the case-folded containment of a keyword. */
  datatype Call = Call(
    settings: Settings,
    now: int,
    halfLife: real,
    decay: real -> real,
    mentions: (string, string) -> bool)

  /** One half raised to a non-negative power, as far as the ranking depends on it. */
  ghost predicate IsDecay(decay: real -> real) {
    && (forall x :: x >= 0.0 ==> 0.0 < decay(x) <= 1.0)
    && (forall x, y :: 0.0 <= x < y ==> decay(y) < decay(x))
  }

  datatype Ranked = Ranked(publication: Publication, score: real, contributions: map<Criterion, real>)

  datatype Code = DuplicatePublication | WeightsAllZero | InvalidHalfLife | InvalidLimit
  datatype Result = Ok(top: seq<Ranked>) | Error(code: Code)

  // -------------------------------------------------------------------------- maxima

  /** `v` is the largest reported value of a metric, and zero when nobody reports it. */
  ghost predicate IsMaximum(publications: seq<Publication>, c: Criterion, v: real) {
    && (forall i :: 0 <= i < |publications| && publications[i].Reported(c).Some? ==>
          publications[i].Reported(c).value as real <= v)
    && (if exists i :: 0 <= i < |publications| && publications[i].Reported(c).Some?
        then exists i ::
               0 <= i < |publications| && publications[i].Reported(c).Some?
               && publications[i].Reported(c).value as real == v
        else v == 0.0)
  }

  function Larger(a: real, b: real): real {
    if a < b then b else a
  }

  function Maximum(publications: seq<Publication>, c: Criterion): real {
    if publications == [] then 0.0
    else
      var rest := Maximum(publications[..|publications| - 1], c);
      var reported := publications[|publications| - 1].Reported(c);
      if reported.None? then rest else Larger(rest, reported.value as real)
  }

  lemma {:induction false} MaximumIsMaximum(publications: seq<Publication>, c: Criterion)
    ensures IsMaximum(publications, c, Maximum(publications, c))
    ensures Maximum(publications, c) >= 0.0
  {
    if publications != [] {
      var front, last := publications[..|publications| - 1], publications[|publications| - 1];
      MaximumIsMaximum(front, c);
      assert forall i :: 0 <= i < |front| ==> front[i] == publications[i];
      if last.Reported(c).Some? {
        assert publications[|publications| - 1].Reported(c).Some?;
      }
    }
  }

  /** The maximum of a metric is a property of the collection, not of its arrangement. */
  lemma MaximumIgnoresArrangement(a: seq<Publication>, b: seq<Publication>, c: Criterion)
    requires multiset(a) == multiset(b)
    ensures Maximum(a, c) == Maximum(b, c)
  {
    MaximumIsMaximum(a, c);
    MaximumIsMaximum(b, c);
    MaximumIsBounded(a, b, c);
    MaximumIsBounded(b, a, c);
  }

  lemma MaximumIsBounded(a: seq<Publication>, b: seq<Publication>, c: Criterion)
    requires multiset(a) == multiset(b) && IsMaximum(b, c, Maximum(b, c)) && Maximum(b, c) >= 0.0
    ensures Maximum(a, c) <= Maximum(b, c)
  {
    MaximumIsMaximum(a, c);
    if i :| 0 <= i < |a| && a[i].Reported(c).Some? && a[i].Reported(c).value as real == Maximum(a, c) {
      assert a[i] in multiset(b);
      var j :| 0 <= j < |b| && b[j] == a[i];
    }
  }

  type Table = map<Criterion, real>

  predicate HasMetrics(maxima: Table) {
    Views in maxima && Reactions in maxima && Forwards in maxima
  }

  function MaximaOf(publications: seq<Publication>): Table {
    map[Views := Maximum(publications, Views),
        Reactions := Maximum(publications, Reactions),
        Forwards := Maximum(publications, Forwards)]
  }

  // ---------------------------------------------------------------------------- scores

  predicate UsesKeywords(settings: Settings) {
    settings.weights.keywords > 0.0 && settings.keywords != []
  }

  /** The publication carries data for the criterion. */
  predicate Applies(p: Publication, settings: Settings, c: Criterion) {
    match c
    case Freshness => true
    case Keywords => UsesKeywords(settings) && p.text.Some?
    case _ => p.Reported(c).Some?
  }

  function AgeHours(p: Publication, now: int): real {
    (if now < p.date then 0 else now - p.date) as real / SecondsPerHour
  }

  function FreshnessOf(p: Publication, call: Call): real
    requires call.halfLife > 0.0
  {
    call.decay(AgeHours(p, call.now) / call.halfLife)
  }

  function Matched(text: string, keywords: seq<string>, mentions: (string, string) -> bool): nat {
    if keywords == [] then 0
    else Matched(text, keywords[..|keywords| - 1], mentions) + if mentions(text, keywords[|keywords| - 1]) then 1 else 0
  }

  function CriterionScore(p: Publication, call: Call, maxima: Table, c: Criterion): real
    requires call.halfLife > 0.0 && HasMetrics(maxima) && Applies(p, call.settings, c)
  {
    match c
    case Freshness => FreshnessOf(p, call)
    case Keywords =>
      Matched(p.text.value, call.settings.keywords, call.mentions) as real / |call.settings.keywords| as real
    case _ => if maxima[c] > 0.0 then p.Reported(c).value as real / maxima[c] else 0.0
  }

  function Scores(p: Publication, call: Call, maxima: Table): Table
    requires call.halfLife > 0.0 && HasMetrics(maxima)
  {
    map c: Criterion | Applies(p, call.settings, c) :: CriterionScore(p, call, maxima, c)
  }

  /** The weights of the criteria that have data and weight: they take part in the mean. */
  function Applicable(weights: Weights, scores: Table): Table {
    map c: Criterion | c in scores && weights.Of(c) > 0.0 :: weights.Of(c)
  }

  function SumOf(m: Table, names: seq<Criterion>): real {
    if names == [] then 0.0
    else
      var last := names[|names| - 1];
      SumOf(m, names[..|names| - 1]) + if last in m then m[last] else 0.0
  }

  /** A weight's share of the total, times the score it weighs. */
  function Part(w: real, total: real, s: real): real
    requires total > 0.0
  {
    w / total * s
  }

  function Contributions(weights: Weights, scores: Table): Table {
    var total := SumOf(Applicable(weights, scores), Criteria);
    if total <= 0.0 then map[]
    else map c: Criterion | c in scores && weights.Of(c) > 0.0 :: Part(weights.Of(c), total, scores[c])
  }

  /** `_rank_one`, once the criteria are scored. */
  function Combined(p: Publication, weights: Weights, scores: Table): Ranked {
    var contributions := Contributions(weights, scores);
    Ranked(p, SumOf(contributions, Criteria), contributions)
  }

  function RankOf(p: Publication, call: Call, maxima: Table): Ranked
    requires call.halfLife > 0.0 && HasMetrics(maxima)
  {
    Combined(p, call.settings.weights, Scores(p, call, maxima))
  }

  // -------------------------------------------------------------- the score is a mean

  function Product(a: real, b: real): real {
    a * b
  }

  /** The scores that count, weighted. */
  function Products(weights: Weights, scores: Table): Table {
    map c: Criterion | c in scores && weights.Of(c) > 0.0 :: Product(weights.Of(c), scores[c])
  }

  lemma {:induction false} SumOfPositives(m: Table, names: seq<Criterion>)
    requires forall c :: c in m ==> m[c] > 0.0
    ensures SumOf(m, names) >= 0.0
    ensures (exists c :: c in names && c in m) <==> SumOf(m, names) > 0.0
  {
    if names != [] {
      var front, last := names[..|names| - 1], names[|names| - 1];
      SumOfPositives(m, front);
      assert names == front + [last];
      assert forall c :: c in names <==> c in front || c == last;
    }
  }

  lemma {:induction false} SumKeepsOrder(a: Table, b: Table, names: seq<Criterion>)
    requires a.Keys == b.Keys && forall c :: c in a ==> a[c] <= b[c]
    ensures SumOf(a, names) <= SumOf(b, names)
  {
    if names != [] {
      SumKeepsOrder(a, b, names[..|names| - 1]);
    }
  }

  function Times(m: Table, k: real): Table {
    map c | c in m :: Product(m[c], k)
  }

  lemma Distribute(a: real, b: real, k: real)
    ensures Product(a + b, k) == Product(a, k) + Product(b, k)
    ensures Product(0.0, k) == 0.0
  {
  }

  lemma {:induction false} SumTimes(m: Table, k: real, names: seq<Criterion>)
    ensures SumOf(Times(m, k), names) == Product(SumOf(m, names), k)
  {
    hide Product;
    Distribute(0.0, 0.0, k);
    if names != [] {
      var front, last := names[..|names| - 1], names[|names| - 1];
      SumTimes(m, k, front);
      Distribute(SumOf(m, front), if last in m then m[last] else 0.0, k);
    }
  }

  lemma PartOfTotal(w: real, total: real, s: real)
    requires total > 0.0
    ensures Product(Part(w, total, s), total) == Product(w, s)
  {
  }

  lemma BetweenTimesWeight(w: real, s: real, lo: real, hi: real)
    requires w > 0.0 && lo <= s <= hi
    ensures Product(w, lo) <= Product(w, s) <= Product(w, hi)
  {
  }

  lemma DivideOut(lo: real, sum: real, hi: real, total: real)
    requires total > 0.0 && Product(total, lo) <= Product(sum, total) <= Product(total, hi)
    ensures lo <= sum <= hi
  {
  }

  /** The contributions, times the total weight, are the weighted scores. */
  lemma ContributionsTimesTotal(weights: Weights, scores: Table)
    requires SumOf(Applicable(weights, scores), Criteria) > 0.0
    ensures var total := SumOf(Applicable(weights, scores), Criteria);
            Product(SumOf(Contributions(weights, scores), Criteria), total)
              == SumOf(Products(weights, scores), Criteria)
  {
    hide Product, Part;
    var total := SumOf(Applicable(weights, scores), Criteria);
    var parts, products := Contributions(weights, scores), Products(weights, scores);
    SumTimes(parts, total, Criteria);
    forall c | c in parts ensures Times(parts, total)[c] == products[c] {
      PartOfTotal(weights.Of(c), total, scores[c]);
    }
    assert Times(parts, total) == products;
  }

  lemma ProductsAreBetween(weights: Weights, scores: Table, lo: real, hi: real)
    requires forall c :: c in scores && weights.Of(c) > 0.0 ==> lo <= scores[c] <= hi
    ensures var total := SumOf(Applicable(weights, scores), Criteria);
            Product(total, lo) <= SumOf(Products(weights, scores), Criteria) <= Product(total, hi)
  {
    hide Product;
    var applicable, products := Applicable(weights, scores), Products(weights, scores);
    forall c | c in products ensures Times(applicable, lo)[c] <= products[c] <= Times(applicable, hi)[c] {
      BetweenTimesWeight(weights.Of(c), scores[c], lo, hi);
    }
    SumKeepsOrder(Times(applicable, lo), products, Criteria);
    SumKeepsOrder(products, Times(applicable, hi), Criteria);
    SumTimes(applicable, lo, Criteria);
    SumTimes(applicable, hi, Criteria);
  }

  lemma EveryCriterionIsListed(c: Criterion)
    ensures c in Criteria
  {
    assert Criteria[0] == Views && Criteria[1] == Reactions && Criteria[2] == Forwards
           && Criteria[3] == Freshness && Criteria[4] == Keywords;
  }

  lemma TotalIsPositive(weights: Weights, scores: Table)
    ensures SumOf(Applicable(weights, scores), Criteria) > 0.0 <==> Applicable(weights, scores) != map[]
    ensures SumOf(Applicable(weights, scores), Criteria) >= 0.0
  {
    SumOfPositives(Applicable(weights, scores), Criteria);
    if c :| c in Applicable(weights, scores) {
      EveryCriterionIsListed(c);
    }
  }

  /** The score is the weighted mean of the criteria that count, hence lies wherever they all
      lie; with no criterion to count it is zero. */
  lemma ScoreIsAMean(p: Publication, weights: Weights, scores: Table, lo: real, hi: real)
    requires forall c :: c in scores && weights.Of(c) > 0.0 ==> lo <= scores[c] <= hi
    ensures var r := Combined(p, weights, scores);
            if Applicable(weights, scores) == map[] then r.score == 0.0 && r.contributions == map[]
            else
              && Product(r.score, SumOf(Applicable(weights, scores), Criteria))
                   == SumOf(Products(weights, scores), Criteria)
              && lo <= r.score <= hi
  {
    hide Product, Part;
    TotalIsPositive(weights, scores);
    if Applicable(weights, scores) == map[] {
      SumOfNothing(Criteria);
    } else {
      ContributionsTimesTotal(weights, scores);
      ProductsAreBetween(weights, scores, lo, hi);
      DivideOut(lo, Combined(p, weights, scores).score, hi, SumOf(Applicable(weights, scores), Criteria));
    }
  }

  lemma {:induction false} SumOfNothing(names: seq<Criterion>)
    ensures SumOf(map[], names) == 0.0
  {
    if names != [] {
      SumOfNothing(names[..|names| - 1]);
    }
  }

  lemma {:induction false} MatchedIsBounded(text: string, keywords: seq<string>, mentions: (string, string) -> bool)
    ensures Matched(text, keywords, mentions) <= |keywords|
  {
    if keywords != [] {
      MatchedIsBounded(text, keywords[..|keywords| - 1], mentions);
    }
  }

  lemma Quotient(a: real, b: real)
    requires 0.0 <= a <= b && b > 0.0
    ensures 0.0 <= a / b <= 1.0
  {
  }

  lemma CriterionIsAShare(p: Publication, call: Call, maxima: Table, c: Criterion)
    requires call.halfLife > 0.0 && IsDecay(call.decay) && HasMetrics(maxima) && Applies(p, call.settings, c)
    requires c in Metrics ==> p.Reported(c).value as real <= maxima[c]
    ensures 0.0 <= CriterionScore(p, call, maxima, c) <= 1.0
  {
    match c
    case Freshness => AgeIsNotNegative(p, call);
    case Keywords =>
      MatchedIsBounded(p.text.value, call.settings.keywords, call.mentions);
      Quotient(Matched(p.text.value, call.settings.keywords, call.mentions) as real, |call.settings.keywords| as real);
    case _ =>
      assert Metrics[0] == Views && Metrics[1] == Reactions && Metrics[2] == Forwards;
      if maxima[c] > 0.0 {
        Quotient(p.Reported(c).value as real, maxima[c]);
      }
  }

  lemma AgeIsNotNegative(p: Publication, call: Call)
    requires call.halfLife > 0.0
    ensures AgeHours(p, call.now) / call.halfLife >= 0.0
  {
  }

  /** Data equal but for the date, the fresher publication scores higher when freshness has
      weight, and no lower in any case. */
  lemma FresherScoresHigher(older: Publication, newer: Publication, call: Call, maxima: Table)
    requires call.halfLife > 0.0 && IsDecay(call.decay) && HasMetrics(maxima)
    requires newer == older.(id := newer.id, date := newer.date) && older.date < newer.date
    ensures RankOf(older, call, maxima).score <= RankOf(newer, call, maxima).score
    ensures call.settings.weights.freshness > 0.0 && older.date < call.now ==>
              RankOf(older, call, maxima).score < RankOf(newer, call, maxima).score
  {
    var a, b := Scores(older, call, maxima), Scores(newer, call, maxima);
    forall c ensures c in a <==> c in b
             ensures c in a && c != Freshness ==> a[c] == b[c]
    {
      assert Applies(older, call.settings, c) <==> Applies(newer, call.settings, c);
    }
    FresherDecaysLess(older, newer, call);
    assert a[Freshness] == FreshnessOf(older, call) && b[Freshness] == FreshnessOf(newer, call);
    HigherFreshnessRaisesTheMean(older, newer, call.settings.weights, a, b);
  }

  lemma HigherFreshnessRaisesTheMean(p: Publication, q: Publication, weights: Weights, a: Table, b: Table)
    requires a.Keys == b.Keys && Freshness in a && a[Freshness] <= b[Freshness]
    requires forall c :: c in a && c != Freshness ==> a[c] == b[c]
    ensures Combined(p, weights, a).score <= Combined(q, weights, b).score
    ensures weights.freshness > 0.0 && a[Freshness] < b[Freshness] ==>
            Combined(p, weights, a).score < Combined(q, weights, b).score
  {
    hide Product, Part;
    assert Applicable(weights, a) == Applicable(weights, b);
    var total := SumOf(Applicable(weights, a), Criteria);
    TotalIsPositive(weights, a);
    if Applicable(weights, a) == map[] {
      assert Freshness !in Applicable(weights, a);
      SumOfNothing(Criteria);
    } else {
      ContributionsTimesTotal(weights, a);
      ContributionsTimesTotal(weights, b);
      OnlyFreshnessMoves(weights, a, b);
      MeansCompare(Combined(p, weights, a).score, Combined(q, weights, b).score,
                   SumOf(Products(weights, a), Criteria), SumOf(Products(weights, b), Criteria), total);
    }
  }

  lemma FresherDecaysLess(older: Publication, newer: Publication, call: Call)
    requires call.halfLife > 0.0 && IsDecay(call.decay) && older.date < newer.date
    ensures FreshnessOf(older, call) <= FreshnessOf(newer, call)
    ensures older.date < call.now ==> FreshnessOf(older, call) < FreshnessOf(newer, call)
  {
    AgeIsNotNegative(newer, call);
    var x, y := AgeHours(newer, call.now), AgeHours(older, call.now);
    if older.date < call.now {
      assert x < y;
      DivideKeepsOrder(x, y, call.halfLife);
    }
  }

  lemma DivideKeepsOrder(x: real, y: real, h: real)
    requires x < y && h > 0.0
    ensures x / h < y / h
  {
  }

  lemma RaisedProduct(w: real, x: real, y: real)
    requires w > 0.0 && x <= y
    ensures Product(w, x) <= Product(w, y) && (x < y ==> Product(w, x) < Product(w, y))
  {
  }

  lemma OnlyFreshnessMoves(weights: Weights, a: Table, b: Table)
    requires a.Keys == b.Keys && Freshness in a && a[Freshness] <= b[Freshness]
    requires forall c :: c in a && c != Freshness ==> a[c] == b[c]
    ensures var before, after := SumOf(Products(weights, a), Criteria), SumOf(Products(weights, b), Criteria);
            before <= after && (weights.freshness > 0.0 && a[Freshness] < b[Freshness] ==> before < after)
  {
    hide Product;
    var x, y := Products(weights, a), Products(weights, b);
    assert x.Keys == y.Keys;
    assert Criteria[3] == Freshness && Criteria[4] == Keywords;
    assert Criteria[..4][..3] == Criteria[..3] && Criteria[..5] == Criteria;
    SameSum(x, y, Criteria[..3]);
    if weights.freshness > 0.0 {
      RaisedProduct(weights.freshness, a[Freshness], b[Freshness]);
    }
    SumLastTwo(x);
    SumLastTwo(y);
  }

  lemma SumLastTwo(m: Table)
    ensures SumOf(m, Criteria) == SumOf(m, Criteria[..3]) + (if Freshness in m then m[Freshness] else 0.0)
                                  + (if Keywords in m then m[Keywords] else 0.0)
  {
    assert Criteria[..4][..3] == Criteria[..3];
  }

  lemma {:induction false} SameSum(a: Table, b: Table, names: seq<Criterion>)
    requires a.Keys == b.Keys && forall c :: c in a && c in names ==> a[c] == b[c]
    ensures SumOf(a, names) == SumOf(b, names)
  {
    if names != [] {
      assert names[|names| - 1] in names && forall c :: c in names[..|names| - 1] ==> c in names;
      SameSum(a, b, names[..|names| - 1]);
    }
  }

  lemma MeansCompare(x: real, y: real, a: real, b: real, total: real)
    requires total > 0.0 && Product(x, total) == a && Product(y, total) == b
    ensures a <= b ==> x <= y
    ensures a < b ==> x < y
  {
  }

  // --------------------------------------------------------------------------- the order

  /** By score, then by recency, then by identifier. */
  predicate Ahead(a: Ranked, b: Ranked) {
    if a.score != b.score then a.score > b.score
    else if a.publication.date != b.publication.date then a.publication.date > b.publication.date
    else Sorting.StringLe(a.publication.id, b.publication.id)
  }

  lemma AheadIsTotalPreorder()
    ensures Sorting.IsTotalPreorder(Ahead)
  {
    forall a, b ensures Ahead(a, b) || Ahead(b, a) {
      Sorting.StringLeTotal(a.publication.id, b.publication.id);
    }
    forall a, b, c | Ahead(a, b) && Ahead(b, c) ensures Ahead(a, c) {
      if a.score == b.score == c.score && a.publication.date == b.publication.date == c.publication.date {
        Sorting.StringLeTransitive(a.publication.id, b.publication.id, c.publication.id);
      }
    }
  }

  ghost predicate UniqueIds(publications: seq<Publication>) {
    forall i, j :: 0 <= i < j < |publications| ==> publications[i].id != publications[j].id
  }

  function Scored(publications: seq<Publication>, call: Call, maxima: Table): seq<Ranked>
    requires call.halfLife > 0.0 && HasMetrics(maxima)
    ensures |Scored(publications, call, maxima)| == |publications|
  {
    if publications == [] then []
    else
      Scored(publications[..|publications| - 1], call, maxima)
      + [RankOf(publications[|publications| - 1], call, maxima)]
  }

  /** The unlimited ranking. */
  function Ranking(publications: seq<Publication>, call: Call): seq<Ranked>
    requires call.halfLife > 0.0
  {
    Sorting.Sort(Scored(publications, call, MaximaOf(publications)), Ahead)
  }

  lemma {:induction false} ScoredAt(publications: seq<Publication>, call: Call, maxima: Table, i: nat)
    requires call.halfLife > 0.0 && HasMetrics(maxima) && i < |publications|
    ensures Scored(publications, call, maxima)[i] == RankOf(publications[i], call, maxima)
  {
    if i < |publications| - 1 {
      ScoredAt(publications[..|publications| - 1], call, maxima, i);
    }
  }

  lemma TiesAreEqualWhenUnique(publications: seq<Publication>, call: Call, maxima: Table)
    requires call.halfLife > 0.0 && HasMetrics(maxima) && UniqueIds(publications)
    ensures Sorting.TiesAreEqual(Scored(publications, call, maxima), Ahead)
  {
    var scored := Scored(publications, call, maxima);
    forall x, y | x in scored && y in scored && Ahead(x, y) && Ahead(y, x) ensures x == y {
      var i :| 0 <= i < |scored| && scored[i] == x;
      var j :| 0 <= j < |scored| && scored[j] == y;
      ScoredAt(publications, call, maxima, i);
      ScoredAt(publications, call, maxima, j);
      Sorting.StringLeAntisymmetric(publications[i].id, publications[j].id);
    }
  }

  /** Scored entries, as a multiset, depend only on the publications as a multiset. */
  lemma {:induction false} ScoredIgnoresArrangement(a: seq<Publication>, b: seq<Publication>, call: Call, maxima: Table)
    requires call.halfLife > 0.0 && HasMetrics(maxima) && multiset(a) == multiset(b)
    ensures multiset(Scored(a, call, maxima)) == multiset(Scored(b, call, maxima))
    decreases |a|
  {
    assert |a| == |multiset(a)| == |multiset(b)| == |b|;
    if a != [] {
      var last := a[|a| - 1];
      assert last in multiset(b);
      var k :| 0 <= k < |b| && b[k] == last;
      Sorting.DroppedMultiset(a, |a| - 1);
      Sorting.DroppedMultiset(b, k);
      ScoredIgnoresArrangement(Sorting.Dropped(a, |a| - 1), Sorting.Dropped(b, k), call, maxima);
      ScoredDropped(a, call, maxima, |a| - 1);
      ScoredDropped(b, call, maxima, k);
    }
  }

  lemma ScoredDropped(b: seq<Publication>, call: Call, maxima: Table, k: nat)
    requires call.halfLife > 0.0 && HasMetrics(maxima) && k < |b|
    ensures multiset(Scored(b, call, maxima))
            == multiset(Scored(Sorting.Dropped(b, k), call, maxima)) + multiset{RankOf(b[k], call, maxima)}
  {
    hide Scored, RankOf;
    var scored, rest := Scored(b, call, maxima), Scored(Sorting.Dropped(b, k), call, maxima);
    ScoredAt(b, call, maxima, k);
    forall i | 0 <= i < |rest| ensures rest[i] == Sorting.Dropped(scored, k)[i] {
      ScoredAt(Sorting.Dropped(b, k), call, maxima, i);
      ScoredAt(b, call, maxima, if i < k then i else i + 1);
    }
    assert rest == Sorting.Dropped(scored, k);
    Sorting.DroppedMultiset(scored, k);
  }

  /** The ranking of publications that are supplied once each does not depend on the order
      they are supplied in. */
  lemma RankingIgnoresArrangement(a: seq<Publication>, b: seq<Publication>, call: Call)
    requires call.halfLife > 0.0 && UniqueIds(a) && multiset(a) == multiset(b)
    ensures Ranking(a, call) == Ranking(b, call)
  {
    MaximumIgnoresArrangement(a, b, Views);
    MaximumIgnoresArrangement(a, b, Reactions);
    MaximumIgnoresArrangement(a, b, Forwards);
    ScoredIgnoresArrangement(a, b, call, MaximaOf(a));
    TiesAreEqualWhenUnique(a, call, MaximaOf(a));
    AheadIsTotalPreorder();
    Sorting.SortIgnoresArrangement(Scored(a, call, MaximaOf(a)), Scored(b, call, MaximaOf(a)), Ahead);
  }

  /** What every entry of a ranking is: one of the publications, with a score in [0, 1] that is
      the sum of its contributions. */
  ghost predicate IsEntry(publications: seq<Publication>, call: Call, r: Ranked) {
    && r.publication in publications
    && 0.0 <= r.score <= 1.0
    && r.score == SumOf(r.contributions, Criteria)
    && forall c :: c in r.contributions ==>
         Applies(r.publication, call.settings, c) && call.settings.weights.Of(c) > 0.0
  }

  /** The entries are in order and no publication is missing. */
  lemma RankingIsComplete(publications: seq<Publication>, call: Call)
    requires call.halfLife > 0.0 && IsDecay(call.decay)
    ensures var ranking := Ranking(publications, call);
            && |ranking| == |publications|
            && Sorting.SortedBy(ranking, Ahead)
            && (forall r :: r in ranking ==> IsEntry(publications, call, r))
            && (forall p :: p in publications ==> exists r :: r in ranking && r.publication == p)
  {
    var maxima := MaximaOf(publications);
    var scored := Scored(publications, call, maxima);
    var ranking := Ranking(publications, call);
    AheadIsTotalPreorder();
    Sorting.SortIsSorted(scored, Ahead);
    forall r | r in ranking ensures IsEntry(publications, call, r) {
      Sorting.SortKeepsMembers(scored, Ahead, r);
      var i :| 0 <= i < |scored| && scored[i] == r;
      ScoredAt(publications, call, maxima, i);
      RankOfIsEntry(publications, call, i);
    }
    forall p | p in publications ensures exists r :: r in ranking && r.publication == p {
      var i :| 0 <= i < |publications| && publications[i] == p;
      ScoredAt(publications, call, maxima, i);
      Sorting.SortKeepsMembers(scored, Ahead, scored[i]);
    }
  }

  lemma RankOfIsEntry(publications: seq<Publication>, call: Call, i: nat)
    requires call.halfLife > 0.0 && IsDecay(call.decay) && i < |publications|
    ensures IsEntry(publications, call, RankOf(publications[i], call, MaximaOf(publications)))
  {
    var p := publications[i];
    var maxima := MaximaOf(publications);
    var scores := Scores(p, call, maxima);
    forall c | c in scores ensures 0.0 <= scores[c] <= 1.0 {
      MaximumIsMaximum(publications, c);
      CriterionIsAShare(p, call, maxima, c);
    }
    ScoreIsAMean(p, call.settings.weights, scores, 0.0, 1.0);
  }

  /** Of two publications alike but for their dates, the later one ranks ahead, whatever the
      weights. */
  lemma FresherRanksAhead(publications: seq<Publication>, call: Call, older: Publication, newer: Publication)
    requires call.halfLife > 0.0 && IsDecay(call.decay) && older in publications && newer in publications
    requires newer == older.(id := newer.id, date := newer.date) && older.date < newer.date
    ensures var maxima := MaximaOf(publications);
            Ahead(RankOf(newer, call, maxima), RankOf(older, call, maxima))
            && !Ahead(RankOf(older, call, maxima), RankOf(newer, call, maxima))
  {
    FresherScoresHigher(older, newer, call, MaximaOf(publications));
  }

  // ------------------------------------------------------------------------- the weights

  /** The same call with every weight multiplied by `k`. */
  function Rescaled(call: Call, k: real): Call {
    call.(settings := call.settings.(weights := call.settings.weights.Scaled(k)))
  }

  lemma ScaledWeight(w: Weights, k: real, c: Criterion)
    requires k > 0.0
    ensures w.Scaled(k).Of(c) == Product(w.Of(c), k)
    ensures w.Scaled(k).Of(c) > 0.0 <==> w.Of(c) > 0.0
  {
    var x := w.Of(c);
    assert x > 0.0 ==> k * x > 0.0;
    assert x <= 0.0 ==> k * x <= 0.0;
  }

  lemma CommonFactor(k: real, w: real, total: real, s: real)
    requires k > 0.0 && total > 0.0
    ensures Product(total, k) > 0.0
    ensures Part(Product(w, k), Product(total, k), s) == Part(w, total, s)
  {
    var share := w / total;
    assert share * total == w;
    assert share * (total * k) == w * k;
  }

  lemma ScalingKeepsContributions(w: Weights, scores: Table, k: real)
    requires k > 0.0
    ensures Contributions(w.Scaled(k), scores) == Contributions(w, scores)
  {
    hide Product, Part, Weights.Scaled, Weights.Of;
    var total := SumOf(Applicable(w, scores), Criteria);
    forall c ensures w.Scaled(k).Of(c) == Product(w.Of(c), k) && (w.Scaled(k).Of(c) > 0.0 <==> w.Of(c) > 0.0) {
      ScaledWeight(w, k, c);
    }
    assert Applicable(w.Scaled(k), scores) == Times(Applicable(w, scores), k);
    SumTimes(Applicable(w, scores), k, Criteria);
    TotalIsPositive(w, scores);
    if total > 0.0 {
      var scaled, plain := Contributions(w.Scaled(k), scores), Contributions(w, scores);
      CommonFactor(k, 0.0, total, 0.0);
      forall c ensures c in scaled <==> c in plain
               ensures c in plain ==> scaled[c] == plain[c]
      {
        if c in scores {
          CommonFactor(k, w.Of(c), total, scores[c]);
        }
      }
    } else {
      Distribute(0.0, 0.0, k);
    }
  }

  lemma {:induction false} ScalingKeepsScored(publications: seq<Publication>, call: Call, maxima: Table, k: real)
    requires call.halfLife > 0.0 && HasMetrics(maxima) && k > 0.0
    ensures Scored(publications, Rescaled(call, k), maxima) == Scored(publications, call, maxima)
  {
    if publications != [] {
      var last := publications[|publications| - 1];
      ScalingKeepsScored(publications[..|publications| - 1], call, maxima, k);
      ScalingKeepsScores(last, call, maxima, k);
      ScalingKeepsContributions(call.settings.weights, Scores(last, call, maxima), k);
    }
  }

  lemma ScalingKeepsScores(p: Publication, call: Call, maxima: Table, k: real)
    requires call.halfLife > 0.0 && HasMetrics(maxima) && k > 0.0
    ensures Scores(p, Rescaled(call, k), maxima) == Scores(p, call, maxima)
  {
    ScaledWeight(call.settings.weights, k, Keywords);
  }

  /** Only the proportions of the weights matter. */
  lemma WeightsAreProportions(publications: seq<Publication>, call: Call, k: real)
    requires call.halfLife > 0.0 && k > 0.0
    ensures Ranking(publications, Rescaled(call, k)) == Ranking(publications, call)
  {
    ScalingKeepsScored(publications, call, MaximaOf(publications), k);
  }

  /** A publication is not punished for data it does not carry: without a score for a
      criterion, the weight of that criterion has no say. */
  lemma MissingDataIsNotPunished(p: Publication, weights: Weights, other: Weights, scores: Table)
    requires forall c :: c in scores ==> other.Of(c) == weights.Of(c)
    ensures Combined(p, other, scores) == Combined(p, weights, scores)
  {
    hide Part;
    assert Applicable(other, scores) == Applicable(weights, scores);
    assert Contributions(other, scores) == Contributions(weights, scores);
  }

  // ---------------------------------------------------------------------------- the loops

  /** `_metric_maxima` */
  method MetricMaxima(publications: seq<Publication>) returns (maxima: Table)
    ensures maxima == MaximaOf(publications)
    ensures forall c :: c in maxima ==> IsMaximum(publications, c, maxima[c])
  {
    maxima := map[];
    for m := 0 to |Metrics|
      invariant forall c :: c in maxima <==> c in Metrics[..m]
      invariant forall c :: c in maxima ==> maxima[c] == Maximum(publications, c)
    {
      var metric := Metrics[m];
      var largest := 0.0;
      for i := 0 to |publications|
        invariant largest == Maximum(publications[..i], metric)
      {
        assert publications[..i + 1][..i] == publications[..i];
        var reported := publications[i].Reported(metric);
        if reported.Some? && largest < reported.value as real {
          largest := reported.value as real;
        }
      }
      assert publications[..|publications|] == publications;
      maxima := maxima[metric := largest];
    }
    assert Metrics[0] == Views && Metrics[1] == Reactions && Metrics[2] == Forwards;
    assert maxima == MaximaOf(publications);
    forall c | c in maxima ensures IsMaximum(publications, c, maxima[c]) {
      MaximumIsMaximum(publications, c);
    }
  }

  /** `_keyword_share`, before the division. */
  method CountMatched(text: string, keywords: seq<string>, mentions: (string, string) -> bool) returns (matched: nat)
    ensures matched == Matched(text, keywords, mentions)
  {
    matched := 0;
    for i := 0 to |keywords|
      invariant matched == Matched(text, keywords[..i], mentions)
    {
      assert keywords[..i + 1][..i] == keywords[..i];
      if mentions(text, keywords[i]) {
        matched := matched + 1;
      }
    }
    assert keywords[..|keywords|] == keywords;
  }

  /** `_criterion_scores` */
  method CriterionScores(p: Publication, call: Call, maxima: Table) returns (scores: Table)
    requires call.halfLife > 0.0 && HasMetrics(maxima)
    ensures scores == Scores(p, call, maxima)
  {
    scores := map[];
    for m := 0 to |Metrics|
      invariant forall c :: c in scores <==> c in Metrics[..m] && Applies(p, call.settings, c)
      invariant forall c :: c in scores ==> scores[c] == CriterionScore(p, call, maxima, c)
    {
      var metric := Metrics[m];
      var reported := p.Reported(metric);
      if reported.Some? {
        var maximum := maxima[metric];
        scores := scores[metric := if maximum > 0.0 then reported.value as real / maximum else 0.0];
      }
    }
    scores := scores[Freshness := call.decay(AgeHours(p, call.now) / call.halfLife)];
    if UsesKeywords(call.settings) && p.text.Some? {
      var matched := CountMatched(p.text.value, call.settings.keywords, call.mentions);
      scores := scores[Keywords := matched as real / |call.settings.keywords| as real];
    }
    forall c ensures c in scores <==> Applies(p, call.settings, c) {
      assert Metrics[0] == Views && Metrics[1] == Reactions && Metrics[2] == Forwards;
    }
  }

  /** The sum over the applicable weights. */
  method ApplicableTotal(weights: Weights, scores: Table) returns (total: real)
    ensures total == SumOf(Applicable(weights, scores), Criteria)
  {
    total := 0.0;
    for i := 0 to |Criteria|
      invariant total == SumOf(Applicable(weights, scores), Criteria[..i])
    {
      assert Criteria[..i + 1][..i] == Criteria[..i];
      if Criteria[i] in scores && weights.Of(Criteria[i]) > 0.0 {
        total := total + weights.Of(Criteria[i]);
      }
    }
    assert Criteria[..|Criteria|] == Criteria;
  }

  lemma ContributionsAt(weights: Weights, scores: Table, c: Criterion)
    requires SumOf(Applicable(weights, scores), Criteria) > 0.0
    ensures c in Contributions(weights, scores) <==> c in scores && weights.Of(c) > 0.0
    ensures c in Contributions(weights, scores) ==>
              Contributions(weights, scores)[c]
                == Part(weights.Of(c), SumOf(Applicable(weights, scores), Criteria), scores[c])
  {
  }

  /** `_rank_one`, once the criteria are scored. */
  method Combine(p: Publication, weights: Weights, scores: Table) returns (ranked: Ranked)
    ensures ranked == Combined(p, weights, scores)
  {
    hide Part;
    var total := ApplicableTotal(weights, scores);
    if total <= 0.0 {
      SumOfNothing(Criteria);
      return Ranked(p, 0.0, map[]);
    }
    ghost var expected := Contributions(weights, scores);
    var contributions: Table := map[];
    var score := 0.0;
    for i := 0 to |Criteria|
      invariant forall c :: c in contributions <==> c in Criteria[..i] && c in expected
      invariant forall c :: c in contributions ==> contributions[c] == expected[c]
      invariant score == SumOf(expected, Criteria[..i])
    {
      assert Criteria[..i + 1] == Criteria[..i] + [Criteria[i]];
      var name := Criteria[i];
      ContributionsAt(weights, scores, name);
      if name in scores && weights.Of(name) > 0.0 {
        contributions := contributions[name := Part(weights.Of(name), total, scores[name])];
        score := score + contributions[name];
      }
    }
    assert Criteria[..|Criteria|] == Criteria;
    forall c ensures c in contributions <==> c in expected {
      EveryCriterionIsListed(c);
    }
    assert contributions == expected;
    return Ranked(p, score, contributions);
  }

  /** `_rank_one` */
  method RankOne(p: Publication, call: Call, maxima: Table) returns (ranked: Ranked)
    requires call.halfLife > 0.0 && HasMetrics(maxima)
    ensures ranked == RankOf(p, call, maxima)
  {
    var scores := CriterionScores(p, call, maxima);
    ranked := Combine(p, call.settings.weights, scores);
  }

  /** `_require_unique` */
  method RequireUnique(publications: seq<Publication>) returns (ok: bool)
    ensures ok <==> UniqueIds(publications)
  {
    var seen: set<string> := {};
    for i := 0 to |publications|
      invariant seen == set j | 0 <= j < i :: publications[j].id
      invariant UniqueIds(publications[..i])
    {
      if publications[i].id in seen {
        var j :| 0 <= j < i && publications[j].id == publications[i].id;
        return false;
      }
      seen := seen + {publications[i].id};
    }
    return true;
  }

  /** `rank`: the refusals in their order, or the ranking cut at the limit. */
  method Rank(publications: seq<Publication>, call: Call, limit: Option<int>) returns (r: Result)
    ensures !UniqueIds(publications) ==> r == Error(DuplicatePublication)
    ensures var w := call.settings.weights;
            UniqueIds(publications) && w.views + w.reactions + w.forwards + w.freshness + w.keywords <= 0.0 ==>
              r == Error(WeightsAllZero)
    ensures var w := call.settings.weights;
            UniqueIds(publications) && w.views + w.reactions + w.forwards + w.freshness + w.keywords > 0.0 ==>
              if !(0.0 < call.halfLife <= 8760.0) then r == Error(InvalidHalfLife)
              else if limit.Some? && limit.value < 1 then r == Error(InvalidLimit)
              else r == Ok(Cut(Ranking(publications, call), limit))
  {
    var unique := RequireUnique(publications);
    if !unique {
      return Error(DuplicatePublication);
    }
    if call.settings.weights.Total() <= 0.0 {
      return Error(WeightsAllZero);
    }
    if !(0.0 < call.halfLife <= MaxHalfLifeHours) {
      return Error(InvalidHalfLife);
    }
    if limit.Some? && limit.value < 1 {
      return Error(InvalidLimit);
    }
    var maxima := MetricMaxima(publications);
    var ranked: seq<Ranked> := [];
    for i := 0 to |publications|
      invariant ranked == Scored(publications[..i], call, maxima)
    {
      assert publications[..i + 1][..i] == publications[..i];
      var one := RankOne(publications[i], call, maxima);
      ranked := ranked + [one];
    }
    assert publications[..|publications|] == publications;
    ranked := Sorting.Sort(ranked, Ahead);
    return Ok(Cut(ranked, limit));
  }

  /** A limit keeps the beginning of the unlimited ranking. */
  function Cut(ranking: seq<Ranked>, limit: Option<int>): (top: seq<Ranked>)
    requires limit.Some? ==> limit.value >= 1
    ensures top <= ranking
    ensures limit.None? || |ranking| <= limit.value ==> top == ranking
    ensures limit.Some? && limit.value <= |ranking| ==> |top| == limit.value
  {
    if limit.None? || |ranking| <= limit.value then ranking else ranking[..limit.value]
  }
}
