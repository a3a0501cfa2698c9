/** What a ranking measures, weight by weight and field by field, and which of two publications it
    puts ahead. */
module RankingLaws {
  import opened Options
  import opened Score = Ranking
  import Sorting

  // ------------------------------------------------------------------ what is measured

  /** The positions of the keywords the text mentions. */
  function Mentioned(text: string, keywords: seq<string>, mentions: (string, string) -> bool): set<nat> {
    set i: nat | i < |keywords| && mentions(text, keywords[i])
  }

  lemma {:induction false} MatchedExactly(text: string, keywords: seq<string>, mentions: (string, string) -> bool)
    ensures Matched(text, keywords, mentions) == |Mentioned(text, keywords, mentions)|
  {
    if keywords != [] {
      var front, n := keywords[..|keywords| - 1], |keywords| - 1;
      MatchedExactly(text, front, mentions);
      var before, after := Mentioned(text, front, mentions), Mentioned(text, keywords, mentions);
      forall i: nat ensures i in after <==> i in before || (i == n && mentions(text, keywords[n])) {
      }
      if mentions(text, keywords[n]) {
        assert after == before + {n};
      } else {
        assert after == before;
      }
    }
  }

  /** `share` of the largest value anybody reports is the value itself. */
  ghost predicate IsShareOf(share: real, value: nat, reports: seq<Option<nat>>) {
    exists largest: nat ::
      && Some(largest) in reports
      && (forall i :: 0 <= i < |reports| && reports[i].Some? ==> reports[i].value <= largest)
      && if largest == 0 then share == 0.0 else Product(share, largest as real) == value as real
  }

  function Reports(publications: seq<Publication>, c: Criterion): seq<Option<nat>> {
    seq(|publications|, i requires 0 <= i < |publications| => publications[i].Reported(c))
  }

  function Column(publications: seq<Publication>, field: Publication -> Option<nat>): seq<Option<nat>> {
    seq(|publications|, i requires 0 <= i < |publications| => field(publications[i]))
  }

  lemma QuotientTimes(a: real, b: real)
    requires b > 0.0
    ensures Product(a / b, b) == a
  {
  }

  lemma MetricIsShare(publications: seq<Publication>, call: Call, p: Publication, c: Criterion)
    requires call.halfLife > 0.0 && p in publications && c in {Views, Reactions, Forwards} && p.Reported(c).Some?
    ensures IsShareOf(CriterionScore(p, call, MaximaOf(publications), c), p.Reported(c).value, Reports(publications, c))
  {
    hide Product;
    var share, reports := CriterionScore(p, call, MaximaOf(publications), c), Reports(publications, c);
    MaximumIsMaximum(publications, c);
    var k :| 0 <= k < |publications| && publications[k] == p;
    var i :| 0 <= i < |publications| && publications[i].Reported(c).Some?
             && publications[i].Reported(c).value as real == Maximum(publications, c);
    var largest := publications[i].Reported(c).value;
    assert reports[i] == Some(largest) && reports[k] == p.Reported(c);
    forall j | 0 <= j < |reports| && reports[j].Some? ensures reports[j].value <= largest {
      assert publications[j].Reported(c).value as real <= largest as real;
    }
    if largest > 0 {
      QuotientTimes(p.Reported(c).value as real, largest as real);
    }
  }

  /** Each criterion of a publication in a collection: when it is measured, and what it measures. */
  ghost predicate Measures(publications: seq<Publication>, call: Call, p: Publication, scores: Table)
    requires call.halfLife > 0.0
  {
    && (Views in scores <==> p.views.Some?)
    && (p.views.Some? ==>
          IsShareOf(scores[Views], p.views.value, Column(publications, (q: Publication) => q.views)))
    && (Reactions in scores <==> p.reactions.Some?)
    && (p.reactions.Some? ==>
          IsShareOf(scores[Reactions], p.reactions.value, Column(publications, (q: Publication) => q.reactions)))
    && (Forwards in scores <==> p.forwards.Some?)
    && (p.forwards.Some? ==>
          IsShareOf(scores[Forwards], p.forwards.value, Column(publications, (q: Publication) => q.forwards)))
    && Freshness in scores
    && (var age := if p.date < call.now then call.now - p.date else 0;
        scores[Freshness] == call.decay(age as real / 3600.0 / call.halfLife))
    && (Keywords in scores <==>
          p.text.Some? && call.settings.weights.keywords > 0.0 && |call.settings.keywords| > 0)
    && (Keywords in scores ==>
          Product(scores[Keywords], |call.settings.keywords| as real)
          == |Mentioned(p.text.value, call.settings.keywords, call.mentions)| as real)
  }

  lemma ScoresMeasure(publications: seq<Publication>, call: Call, p: Publication)
    requires call.halfLife > 0.0 && p in publications
    ensures Measures(publications, call, p, Scores(p, call, MaximaOf(publications)))
  {
    hide Product, Maximum, Mentioned, Matched, IsShareOf;
    var maxima := MaximaOf(publications);
    var scores := Scores(p, call, maxima);
    forall c ensures c in scores <==> Applies(p, call.settings, c)
             ensures c in scores ==> scores[c] == CriterionScore(p, call, maxima, c)
    {
    }
    if p.views.Some? {
      MetricIsShare(publications, call, p, Views);
      assert Reports(publications, Views) == Column(publications, (q: Publication) => q.views);
    }
    if p.reactions.Some? {
      MetricIsShare(publications, call, p, Reactions);
      assert Reports(publications, Reactions) == Column(publications, (q: Publication) => q.reactions);
    }
    if p.forwards.Some? {
      MetricIsShare(publications, call, p, Forwards);
      assert Reports(publications, Forwards) == Column(publications, (q: Publication) => q.forwards);
    }
    if Keywords in scores {
      MatchedExactly(p.text.value, call.settings.keywords, call.mentions);
      QuotientTimes(Matched(p.text.value, call.settings.keywords, call.mentions) as real,
                    |call.settings.keywords| as real);
    }
  }

  // ------------------------------------------------------------------ how it is weighed

  /** The weight a criterion has in the score: none without a measure. */
  function Share(scores: Table, c: Criterion, weight: real): real {
    if c in scores && weight > 0.0 then weight else 0.0
  }

  function Weighed(scores: Table, c: Criterion, weight: real): real {
    if c in scores && weight > 0.0 then Product(weight, scores[c]) else 0.0
  }

  function ShareSum(scores: Table, w: Weights): real {
    Share(scores, Views, w.views) + Share(scores, Reactions, w.reactions) + Share(scores, Forwards, w.forwards)
    + Share(scores, Freshness, w.freshness) + Share(scores, Keywords, w.keywords)
  }

  function WeighedSum(scores: Table, w: Weights): real {
    Weighed(scores, Views, w.views) + Weighed(scores, Reactions, w.reactions) + Weighed(scores, Forwards, w.forwards)
    + Weighed(scores, Freshness, w.freshness) + Weighed(scores, Keywords, w.keywords)
  }

  function At(m: Table, c: Criterion): real {
    if c in m then m[c] else 0.0
  }

  lemma SumIsOfFive(m: Table)
    ensures SumOf(m, Criteria) == At(m, Views) + At(m, Reactions) + At(m, Forwards) + At(m, Freshness) + At(m, Keywords)
  {
    assert Criteria[0] == Views && Criteria[1] == Reactions && Criteria[2] == Forwards
           && Criteria[3] == Freshness && Criteria[4] == Keywords;
    assert Criteria[..5] == Criteria && Criteria[..5][..4] == Criteria[..4] && Criteria[..4][..3] == Criteria[..3];
    assert Criteria[..3][..2] == Criteria[..2] && Criteria[..2][..1] == Criteria[..1] && Criteria[..1][..0] == [];
    SumStep(m, 5);
    SumStep(m, 4);
    SumStep(m, 3);
    SumStep(m, 2);
    SumStep(m, 1);
  }

  lemma SumStep(m: Table, n: nat)
    requires 0 < n <= |Criteria|
    ensures SumOf(m, Criteria[..n]) == SumOf(m, Criteria[..n - 1]) + At(m, Criteria[n - 1])
  {
    assert Criteria[..n][..n - 1] == Criteria[..n - 1];
  }

  /** The score, times the weights of what is measured, is the sum of the measures, each by its
      own weight; nothing is measured that has weight exactly if the score is of nothing. */
  lemma ScoreIsWeighed(p: Publication, weights: Weights, scores: Table)
    ensures var r := Combined(p, weights, scores);
            && r.publication == p
            && Product(r.score, ShareSum(scores, weights)) == WeighedSum(scores, weights)
            && (ShareSum(scores, weights) == 0.0 ==> r.score == 0.0 && r.contributions == map[])
  {
    hide Product;
    var applicable, products := Applicable(weights, scores), Products(weights, scores);
    SumIsOfFive(applicable);
    SumIsOfFive(products);
    SharesAre(weights, scores);
    TotalIsPositive(weights, scores);
    if SumOf(applicable, Criteria) > 0.0 {
      ContributionsTimesTotal(weights, scores);
    } else {
      assert applicable == map[] && products == map[];
      SumOfNothing(Criteria);
      Distribute(0.0, 0.0, 0.0);
    }
  }

  lemma SharesAre(w: Weights, scores: Table)
    ensures var m := Applicable(w, scores);
            && At(m, Views) == Share(scores, Views, w.views)
            && At(m, Reactions) == Share(scores, Reactions, w.reactions)
            && At(m, Forwards) == Share(scores, Forwards, w.forwards)
            && At(m, Freshness) == Share(scores, Freshness, w.freshness)
            && At(m, Keywords) == Share(scores, Keywords, w.keywords)
    ensures var m := Products(w, scores);
            && At(m, Views) == Weighed(scores, Views, w.views)
            && At(m, Reactions) == Weighed(scores, Reactions, w.reactions)
            && At(m, Forwards) == Weighed(scores, Forwards, w.forwards)
            && At(m, Freshness) == Weighed(scores, Freshness, w.freshness)
            && At(m, Keywords) == Weighed(scores, Keywords, w.keywords)
  {
    hide Product;
  }

  /** One entry of a ranking. */
  ghost predicate IsScored(publications: seq<Publication>, call: Call, r: Ranked)
    requires call.halfLife > 0.0
  {
    exists scores ::
      && Measures(publications, call, r.publication, scores)
      && Product(r.score, ShareSum(scores, call.settings.weights)) == WeighedSum(scores, call.settings.weights)
      && (ShareSum(scores, call.settings.weights) == 0.0 ==> r.score == 0.0)
  }

  /** Highest score first; of equal scores the later date, and of equal dates the lower identifier. */
  predicate IsAheadOf(a: Ranked, b: Ranked) {
    || a.score > b.score
    || (a.score == b.score && a.publication.date > b.publication.date)
    || (a.score == b.score && a.publication.date == b.publication.date
        && Sorting.StringLe(a.publication.id, b.publication.id))
  }

  /** What a ranking is: every publication, scored by what it measures and the call weighs, in
      order. */
  lemma RankingIsScored(publications: seq<Publication>, call: Call)
    requires call.halfLife > 0.0 && IsDecay(call.decay)
    ensures var ranking := Ranking(publications, call);
            && |ranking| == |publications|
            && (forall i :: 0 <= i < |ranking| ==> IsScored(publications, call, ranking[i]))
            && (forall i, j :: 0 <= i < j < |ranking| ==> IsAheadOf(ranking[i], ranking[j]))
            && (forall k :: 0 <= k < |publications| ==>
                  exists i :: 0 <= i < |ranking| && ranking[i].publication == publications[k])
  {
    hide Measures, Product, Scores, Sorting.Sort, Ahead, IsScored;
    var ranking := Ranking(publications, call);
    RankingIsComplete(publications, call);
    forall i | 0 <= i < |ranking| ensures IsScored(publications, call, ranking[i]) {
      EntryIsScored(publications, call, ranking[i]);
    }
    forall i, j | 0 <= i < j < |ranking| ensures IsAheadOf(ranking[i], ranking[j]) {
      assert Ahead(ranking[i], ranking[j]);
      AheadIs(ranking[i], ranking[j]);
    }
    forall k | 0 <= k < |publications|
      ensures exists i :: 0 <= i < |ranking| && ranking[i].publication == publications[k]
    {
      assert publications[k] in publications;
      var r :| r in ranking && r.publication == publications[k];
    }
  }

  lemma AheadIs(a: Ranked, b: Ranked)
    ensures Ahead(a, b) <==> IsAheadOf(a, b)
  {
  }

  lemma EntryIsScored(publications: seq<Publication>, call: Call, r: Ranked)
    requires call.halfLife > 0.0 && r in Ranking(publications, call)
    ensures IsScored(publications, call, r)
  {
    hide Measures, Product, Scores, Sorting.Sort, Ahead;
    var scored := Scored(publications, call, MaximaOf(publications));
    Sorting.SortKeepsMembers(scored, Ahead, r);
    var i :| 0 <= i < |scored| && scored[i] == r;
    ScoredAt(publications, call, MaximaOf(publications), i);
    var scores := Scores(publications[i], call, MaximaOf(publications));
    ScoresMeasure(publications, call, publications[i]);
    ScoreIsWeighed(publications[i], call.settings.weights, scores);
  }

  // ------------------------------------------------------------------ who ranks ahead

  /** Wherever the two stand in the ranking, the one stands before the other. */
  ghost predicate StandsBefore(ranking: seq<Ranked>, first: Publication, second: Publication) {
    forall i, j ::
      (0 <= i < |ranking| && 0 <= j < |ranking|
       && ranking[i].publication == first && ranking[j].publication == second) ==> i < j
  }

  lemma HigherSum(weights: Weights, a: Table, b: Table, c: Criterion)
    requires a.Keys == b.Keys && c in a && a[c] < b[c] && weights.Of(c) > 0.0
    requires forall d :: d in a && d != c ==> a[d] == b[d]
    ensures ShareSum(a, weights) == ShareSum(b, weights) > 0.0
    ensures WeighedSum(a, weights) < WeighedSum(b, weights)
  {
    hide Product;
    RaisedProduct(weights.Of(c), a[c], b[c]);
  }

  /** All else equal, a higher measure with weight makes a higher score. */
  lemma HigherMeasureScoresHigher(p: Publication, q: Publication, weights: Weights, a: Table, b: Table, c: Criterion)
    requires a.Keys == b.Keys && c in a && a[c] < b[c] && weights.Of(c) > 0.0
    requires forall d :: d in a && d != c ==> a[d] == b[d]
    ensures Combined(p, weights, a).score < Combined(q, weights, b).score
  {
    hide Product, Combined, ShareSum, WeighedSum;
    HigherSum(weights, a, b, c);
    ScoreIsWeighed(p, weights, a);
    ScoreIsWeighed(q, weights, b);
    MeansCompare(Combined(p, weights, a).score, Combined(q, weights, b).score, WeighedSum(a, weights),
                 WeighedSum(b, weights), ShareSum(a, weights));
  }

  lemma HigherScoreStandsBefore(publications: seq<Publication>, call: Call, first: Publication, second: Publication)
    requires call.halfLife > 0.0 && IsDecay(call.decay)
    requires var maxima := MaximaOf(publications);
             RankOf(first, call, maxima).score > RankOf(second, call, maxima).score
    ensures StandsBefore(Ranking(publications, call), first, second)
  {
    hide RankOf, Sorting.Sort, Ahead, IsScored;
    var ranking := Ranking(publications, call);
    RankingIsScored(publications, call);
    forall i, j | 0 <= i < |ranking| && 0 <= j < |ranking|
                  && ranking[i].publication == first && ranking[j].publication == second
      ensures i < j
    {
      EntryIsRankOf(publications, call, ranking[i]);
      EntryIsRankOf(publications, call, ranking[j]);
    }
  }

  lemma EntryIsRankOf(publications: seq<Publication>, call: Call, r: Ranked)
    requires call.halfLife > 0.0 && r in Ranking(publications, call)
    ensures r == RankOf(r.publication, call, MaximaOf(publications))
  {
    hide Scores, Contributions, Sorting.Sort, Ahead;
    var scored := Scored(publications, call, MaximaOf(publications));
    Sorting.SortKeepsMembers(scored, Ahead, r);
    var i :| 0 <= i < |scored| && scored[i] == r;
    ScoredAt(publications, call, MaximaOf(publications), i);
  }

  lemma LargerShare(x: nat, y: nat, largest: real)
    requires x < y && largest > 0.0
    ensures x as real / largest < y as real / largest
  {
  }

  /** Of two publications alike but for one metric, the one with more stands before the other when
      that metric has weight. */
  lemma MoreStandsBefore(publications: seq<Publication>, call: Call, more: Publication, less: Publication, c: Criterion)
    requires call.halfLife > 0.0 && IsDecay(call.decay) && more in publications
    requires c in {Views, Reactions, Forwards} && call.settings.weights.Of(c) > 0.0
    requires more == less.(id := more.id, views := more.views, reactions := more.reactions, forwards := more.forwards)
    requires forall d :: d in {Views, Reactions, Forwards} && d != c ==> more.Reported(d) == less.Reported(d)
    requires less.Reported(c).Some? && more.Reported(c).Some? && less.Reported(c).value < more.Reported(c).value
    ensures StandsBefore(Ranking(publications, call), more, less)
  {
    hide RankOf, Maximum;
    var maxima := MaximaOf(publications);
    var a, b := Scores(less, call, maxima), Scores(more, call, maxima);
    MaximumIsMaximum(publications, c);
    var k :| 0 <= k < |publications| && publications[k] == more;
    assert maxima[c] >= more.Reported(c).value as real > 0.0;
    LargerShare(less.Reported(c).value, more.Reported(c).value, maxima[c]);
    forall d ensures d in a <==> d in b
             ensures d in a && d != c ==> a[d] == b[d]
    {
      assert Applies(less, call.settings, d) <==> Applies(more, call.settings, d);
    }
    HigherMeasureScoresHigher(less, more, call.settings.weights, a, b, c);
    ScoresOfAre(less, call, maxima);
    ScoresOfAre(more, call, maxima);
    HigherScoreStandsBefore(publications, call, more, less);
  }

  lemma ScoresOfAre(p: Publication, call: Call, maxima: Table)
    requires call.halfLife > 0.0 && HasMetrics(maxima)
    ensures RankOf(p, call, maxima) == Combined(p, call.settings.weights, Scores(p, call, maxima))
  {
  }

  lemma MoreViewsStandBefore(publications: seq<Publication>, call: Call, more: Publication, less: Publication)
    requires call.halfLife > 0.0 && IsDecay(call.decay) && more in publications && call.settings.weights.views > 0.0
    requires more == less.(id := more.id, views := more.views)
    requires less.views.Some? && more.views.Some? && less.views.value < more.views.value
    ensures StandsBefore(Ranking(publications, call), more, less)
  {
    MoreStandsBefore(publications, call, more, less, Views);
  }

  lemma MoreReactionsStandBefore(publications: seq<Publication>, call: Call, more: Publication, less: Publication)
    requires call.halfLife > 0.0 && IsDecay(call.decay) && more in publications && call.settings.weights.reactions > 0.0
    requires more == less.(id := more.id, reactions := more.reactions)
    requires less.reactions.Some? && more.reactions.Some? && less.reactions.value < more.reactions.value
    ensures StandsBefore(Ranking(publications, call), more, less)
  {
    MoreStandsBefore(publications, call, more, less, Reactions);
  }

  lemma MoreForwardsStandBefore(publications: seq<Publication>, call: Call, more: Publication, less: Publication)
    requires call.halfLife > 0.0 && IsDecay(call.decay) && more in publications && call.settings.weights.forwards > 0.0
    requires more == less.(id := more.id, forwards := more.forwards)
    requires less.forwards.Some? && more.forwards.Some? && less.forwards.value < more.forwards.value
    ensures StandsBefore(Ranking(publications, call), more, less)
  {
    MoreStandsBefore(publications, call, more, less, Forwards);
  }

  /** Of two publications alike but for their dates, the later one stands before the other. */
  lemma FresherStandsBefore(publications: seq<Publication>, call: Call, newer: Publication, older: Publication)
    requires call.halfLife > 0.0 && IsDecay(call.decay) && older in publications && newer in publications
    requires newer == older.(id := newer.id, date := newer.date) && older.date < newer.date
    ensures StandsBefore(Ranking(publications, call), newer, older)
  {
    hide RankOf, Sorting.Sort;
    var ranking := Ranking(publications, call);
    RankingIsComplete(publications, call);
    FresherRanksAhead(publications, call, older, newer);
    forall i, j | 0 <= i < |ranking| && 0 <= j < |ranking|
                  && ranking[i].publication == newer && ranking[j].publication == older
      ensures i < j
    {
      EntryIsRankOf(publications, call, ranking[i]);
      EntryIsRankOf(publications, call, ranking[j]);
    }
  }

  /** Of two publications alike but for their texts, the one that mentions more keywords stands
      before the other when keywords have weight. */
  lemma MoreKeywordsStandBefore(publications: seq<Publication>, call: Call, more: Publication, less: Publication)
    requires call.halfLife > 0.0 && IsDecay(call.decay)
    requires call.settings.weights.keywords > 0.0 && more == less.(id := more.id, text := more.text)
    requires less.text.Some? && more.text.Some?
    requires |Mentioned(less.text.value, call.settings.keywords, call.mentions)|
             < |Mentioned(more.text.value, call.settings.keywords, call.mentions)|
    ensures StandsBefore(Ranking(publications, call), more, less)
  {
    hide RankOf, Maximum, Mentioned, Matched;
    var maxima, keywords := MaximaOf(publications), call.settings.keywords;
    var a, b := Scores(less, call, maxima), Scores(more, call, maxima);
    MatchedExactly(less.text.value, keywords, call.mentions);
    MatchedExactly(more.text.value, keywords, call.mentions);
    MatchedIsBounded(more.text.value, keywords, call.mentions);
    LargerShare(Matched(less.text.value, keywords, call.mentions), Matched(more.text.value, keywords, call.mentions),
                |keywords| as real);
    forall d ensures d in a <==> d in b
             ensures d in a && d != Keywords ==> a[d] == b[d]
    {
      assert Applies(less, call.settings, d) <==> Applies(more, call.settings, d);
    }
    HigherMeasureScoresHigher(less, more, call.settings.weights, a, b, Keywords);
    ScoresOfAre(less, call, maxima);
    ScoresOfAre(more, call, maxima);
    HigherScoreStandsBefore(publications, call, more, less);
  }
}
