/**
 * Scoring a raw city name against one reference city, and picking the best
 * candidate of a list (`score`, `CityScore.max`, `bestScore`).
 */
module Scoring {
  import opened Wrappers
  import opened CityTables

  /**
   * The string similarity in use (Jaro-Winkler in the source). It is a
   * parameter: the model assumes nothing about it unless a lemma says so.
   */
  type Similarity = (string, string) -> real

  /** A candidate city with its score; the city is unset only in `NoMatch`. */
  datatype CityScore = CityScore(city: Option<CityRec>, score: real)

  /** What `bestScore` returns when there is nothing to compare against. */
  const NoMatch: CityScore := CityScore(None, -1.0)

  /** Subtracted from the score when a candidate is compared by region. */
  const RegionPenalty: real := 0.05

  /** `CityScore.max`: the higher-scoring of two, the first one on a tie. */
  function Max(a: CityScore, b: CityScore): (r: CityScore)
    ensures r == a || r == b
    ensures r.score >= a.score && r.score >= b.score
    ensures a.score >= b.score ==> r == a
  {
    if a.score >= b.score then a else b
  }

  /** The text a candidate is compared to: its city name, else its region. */
  function Target(c: CityRec): string
  {
    if c.city.Some? then c.city.value else c.region
  }

  /** `score(s, city)`. */
  function Score(sim: Similarity, s: string, c: CityRec): (r: CityScore)
    ensures r.city == Some(c)
  {
    var adjust := if c.city.None? then -RegionPenalty else 0.0;
    CityScore(Some(c), sim(s, Target(c)) + adjust)
  }

  /** The reduction `reduce(CityScore::max)` over the scores of `cs`, started from `acc`. */
  function FoldMax(sim: Similarity, s: string, acc: CityScore, cs: seq<CityRec>): CityScore
    decreases |cs|
  {
    if cs == [] then acc else FoldMax(sim, s, Max(acc, Score(sim, s, cs[0])), cs[1..])
  }

  /** `bestScore(rawString, cities)`; `cities == None` is the null list. */
  function BestScore(sim: Similarity, s: string, cities: Option<seq<CityRec>>): (r: CityScore)
    ensures r.city.None? <==> cities.None? || cities.value == []
    ensures r.city.None? ==> r == NoMatch
  {
    if cities.None? || cities.value == [] then NoMatch
    else
      FoldMaxSpec(sim, s, Score(sim, s, cities.value[0]), cities.value[1..]);
      FoldMax(sim, s, Score(sim, s, cities.value[0]), cities.value[1..])
  }

  /**
   * The reduction never loses ground: its result scores at least `acc` and
   * every element, and is either `acc` or the earliest element that beat
   * `acc` and everything before it.
   */
  lemma {:induction false} FoldMaxSpec(sim: Similarity, s: string, acc: CityScore, cs: seq<CityRec>)
    ensures var r := FoldMax(sim, s, acc, cs);
      && r.score >= acc.score
      && (forall j :: 0 <= j < |cs| ==> Score(sim, s, cs[j]).score <= r.score)
      && (r == acc || exists k :: 0 <= k < |cs| && r == Score(sim, s, cs[k]) && acc.score < r.score
                                 && forall j :: 0 <= j < k ==> Score(sim, s, cs[j]).score < r.score)
    decreases |cs|
  {
    if cs != [] {
      var head := Score(sim, s, cs[0]);
      var acc' := Max(acc, head);
      var r := FoldMax(sim, s, acc', cs[1..]);
      FoldMaxSpec(sim, s, acc', cs[1..]);
      assert r == FoldMax(sim, s, acc, cs);
      forall j | 0 <= j < |cs|
        ensures Score(sim, s, cs[j]).score <= r.score
      {
        if j > 0 { assert cs[j] == cs[1..][j - 1]; }
      }
      if r != acc {
        if r == acc' {
          assert acc' == head && acc.score < head.score;
          assert r == Score(sim, s, cs[0]);
        } else {
          var k :| 0 <= k < |cs[1..]| && r == Score(sim, s, cs[1..][k]) && acc'.score < r.score
                   && forall j :: 0 <= j < k ==> Score(sim, s, cs[1..][j]).score < r.score;
          assert r == Score(sim, s, cs[k + 1]);
          forall j | 0 <= j < k + 1
            ensures Score(sim, s, cs[j]).score < r.score
          {
            if j > 0 { assert cs[j] == cs[1..][j - 1]; }
          }
        }
      }
    }
  }

  /**
   * Over a non-empty list, `bestScore` returns the score of one of the
   * listed cities, that score is the highest, and no earlier city reaches
   * it (a tie goes to the first in list order).
   */
  lemma BestScoreIsEarliestMax(sim: Similarity, s: string, cs: seq<CityRec>)
    requires cs != []
    ensures exists k :: 0 <= k < |cs| && BestScore(sim, s, Some(cs)) == Score(sim, s, cs[k])
                        && (forall j :: 0 <= j < |cs| ==> Score(sim, s, cs[j]).score <= Score(sim, s, cs[k]).score)
                        && (forall j :: 0 <= j < k ==> Score(sim, s, cs[j]).score < Score(sim, s, cs[k]).score)
  {
    var acc := Score(sim, s, cs[0]);
    var r := BestScore(sim, s, Some(cs));
    FoldMaxSpec(sim, s, acc, cs[1..]);
    forall j | 0 < j < |cs|
      ensures Score(sim, s, cs[j]).score <= r.score
    {
      assert cs[j] == cs[1..][j - 1];
    }
    if r == acc {
      assert r == Score(sim, s, cs[0]);
    } else {
      var k :| 0 <= k < |cs[1..]| && r == Score(sim, s, cs[1..][k]) && acc.score < r.score
               && forall j :: 0 <= j < k ==> Score(sim, s, cs[1..][j]).score < r.score;
      assert r == Score(sim, s, cs[k + 1]);
      forall j | 0 <= j < k + 1
        ensures Score(sim, s, cs[j]).score < r.score
      {
        if j > 0 { assert cs[j] == cs[1..][j - 1]; }
      }
    }
  }

  /** A best score that beats `threshold` names a city of the list that scores that much. */
  lemma BestScoreMember(sim: Similarity, s: string, cities: Option<seq<CityRec>>, threshold: real)
    requires -1.0 <= threshold < BestScore(sim, s, cities).score
    ensures cities.Some? && BestScore(sim, s, cities).city.Some?
    ensures BestScore(sim, s, cities).city.value in cities.value
    ensures BestScore(sim, s, cities) == Score(sim, s, BestScore(sim, s, cities).city.value)
    ensures forall c :: c in cities.value ==> Score(sim, s, c).score <= BestScore(sim, s, cities).score
  {
    BestScoreIsEarliestMax(sim, s, cities.value);
  }

  /** Compared by city name, a candidate scores the plain similarity; by region, 0.05 less. */
  lemma ScoreOfCandidate(sim: Similarity, s: string, c: CityRec)
    ensures Score(sim, s, c).city == Some(c)
    ensures c.city.Some? ==> Score(sim, s, c).score == sim(s, c.city.value)
    ensures c.city.None? ==> Score(sim, s, c).score == sim(s, c.region) - 0.05
  {
  }

  /**
   * The region penalty in action: a city known only by its region
   * "Springfield" scores 0.95 against "Springfield" when the similarity
   * rates identical strings 1.0, while a city named "Springfield" with
   * the same region scores 1.0.
   */
  lemma RegionFallbackIsPenalised(sim: Similarity, byRegion: CityRec, byName: CityRec)
    requires sim("Springfield", "Springfield") == 1.0
    requires byRegion.city == None && byRegion.region == "Springfield"
    requires byName.city == Some("Springfield")
    ensures Score(sim, "Springfield", byRegion).score == 0.95
    ensures Score(sim, "Springfield", byName).score == 1.0
  {
  }

  /** With a similarity in [0, 1], every real candidate scores above the sentinel's -1. */
  lemma ScoreBounds(sim: Similarity, s: string, c: CityRec)
    requires 0.0 <= sim(s, Target(c)) <= 1.0
    ensures -RegionPenalty <= Score(sim, s, c).score <= 1.0
    ensures Score(sim, s, c).score > NoMatch.score
  {
  }
}
