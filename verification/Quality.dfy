/** Quality scores per dimension, their mean, and the thresholds they are held against. Scores are exact reals. */
module Quality {
  import opened Enums
  import opened Rearrangements
  import opened Sums

  // ----- Scoring -----

  /** One expectation's result; both entries may be absent. */
  datatype ExpectationResult = ExpectationResult(expectationType: Option<string>, success: Option<bool>)

  type DimensionMap = map<string, DAMADimension>

  const ALL_DIMENSIONS: set<DAMADimension> :=
    {Completeness, Accuracy, Consistency, Timeliness, Uniqueness, Validity}

  const EXPECTATION_DIMENSION_MAP: DimensionMap := map[
    "expect_column_values_to_not_be_null" := Completeness,
    "expect_table_row_count_to_be_between" := Completeness,
    "expect_column_values_to_be_between" := Accuracy,
    "expect_column_mean_to_be_between" := Accuracy,
    "expect_column_values_to_match_regex" := Validity,
    "expect_column_values_to_be_in_set" := Validity,
    "expect_column_values_to_be_of_type" := Validity,
    "expect_column_values_to_be_unique" := Uniqueness,
    "expect_compound_columns_to_be_unique" := Uniqueness,
    "expect_column_pair_values_to_be_equal" := Consistency,
    "expect_column_values_to_match_strftime_format" := Timeliness]

  function DimensionOf(m: DimensionMap, r: ExpectationResult): Option<DAMADimension> {
    var t := if r.expectationType.Some? then r.expectationType.value else "";
    if t in m then Some(m[t]) else None
  }

  predicate Succeeded(r: ExpectationResult) {
    r.success == Some(true)
  }

  function Total(m: DimensionMap, results: seq<ExpectationResult>, dim: DAMADimension): nat {
    if results == [] then 0
    else
      Total(m, results[..|results| - 1], dim)
      + if DimensionOf(m, results[|results| - 1]) == Some(dim) then 1 else 0
  }

  function Passed(m: DimensionMap, results: seq<ExpectationResult>, dim: DAMADimension): (n: nat)
    ensures n <= Total(m, results, dim)
  {
    if results == [] then 0
    else
      var last := results[|results| - 1];
      Passed(m, results[..|results| - 1], dim) + if DimensionOf(m, last) == Some(dim) && Succeeded(last) then 1 else 0
  }

  /** The share of a dimension's expectations that passed; a dimension without expectations passes. */
  function ScoreOf(m: DimensionMap, results: seq<ExpectationResult>, dim: DAMADimension): real {
    Share(Passed(m, results, dim), Total(m, results, dim))
  }

  function Share(passed: nat, total: nat): real {
    if total == 0 then 1.0 else passed as real / total as real
  }

  type Scores = map<DAMADimension, real>

  function Get(counts: map<DAMADimension, nat>, dim: DAMADimension): nat {
    if dim in counts then counts[dim] else 0
  }

  ghost function AllScores(m: DimensionMap, results: seq<ExpectationResult>): Scores {
    map dim | dim in ALL_DIMENSIONS :: ScoreOf(m, results, dim)
  }

  class DAMAScorer {
    const dimensionMap: DimensionMap

    /** An absent or empty map means the default one. */
    constructor (custom: Option<DimensionMap>)
      ensures dimensionMap == if custom.Some? && custom.value != map[] then custom.value else EXPECTATION_DIMENSION_MAP
    {
      dimensionMap := if custom.Some? && custom.value != map[] then custom.value else EXPECTATION_DIMENSION_MAP;
    }

    method Score(results: seq<ExpectationResult>) returns (scores: Scores)
      ensures scores == AllScores(dimensionMap, results)
    {
      var dimensionPass: map<DAMADimension, nat>, dimensionTotal: map<DAMADimension, nat> := map[], map[];
      for i := 0 to |results|
        invariant forall dim :: Get(dimensionTotal, dim) == Total(dimensionMap, results[..i], dim)
        invariant forall dim :: Get(dimensionPass, dim) == Passed(dimensionMap, results[..i], dim)
      {
        assert results[..i + 1][..i] == results[..i];
        var dimension := DimensionOf(dimensionMap, results[i]);
        if dimension.None? {
          continue;
        }
        var key := dimension.value;
        dimensionTotal := dimensionTotal[key := Get(dimensionTotal, key) + 1];
        if Succeeded(results[i]) {
          dimensionPass := dimensionPass[key := Get(dimensionPass, key) + 1];
        }
      }
      assert results[..|results|] == results;
      scores := map[];
      var dims := [Completeness, Accuracy, Consistency, Timeliness, Uniqueness, Validity];
      for i := 0 to |dims|
        invariant forall dim :: dim in scores <==> dim in dims[..i]
        invariant forall dim :: dim in scores ==> scores[dim] == ScoreOf(dimensionMap, results, dim)
      {
        var total := Get(dimensionTotal, dims[i]);
        if total == 0 {
          scores := scores[dims[i] := 1.0];
        } else {
          scores := scores[dims[i] := Get(dimensionPass, dims[i]) as real / total as real];
        }
      }
      assert forall dim :: dim in dims <==> dim in ALL_DIMENSIONS;
    }
  }

  // ----- The overall score -----

  /** The mean of the scores; 0 when there are none. */
  ghost function OverallScore(scores: Scores): real {
    if scores == map[] then 0.0 else SumValues(scores) / |scores| as real
  }

  /** The overall score reaches any bound that every dimension reaches. */
  lemma OverallAtLeast(scores: Scores, bound: real)
    requires scores != map[] && forall dim :: dim in scores ==> scores[dim] >= bound
    ensures OverallScore(scores) >= bound
  {
    SumAtLeast(scores, bound);
    TimesIsProduct(|scores|, bound);
    assert |scores| > 0;
    QuotientAtLeast(SumValues(scores), |scores| as real, bound);
  }

  lemma MeanOfSix(scores: Scores)
    requires scores.Keys == ALL_DIMENSIONS
    ensures |scores| == 6 && OverallScore(scores) == SumValues(scores) / 6.0
  {
    assert |scores| == |scores.Keys| == 6;
  }

  /** The overall score is the mean of the six dimensions' scores. */
  lemma OverallIsMean(m: DimensionMap, results: seq<ExpectationResult>)
    ensures OverallScore(AllScores(m, results)) ==
            (ScoreOf(m, results, Completeness) + ScoreOf(m, results, Accuracy) + ScoreOf(m, results, Consistency)
             + ScoreOf(m, results, Timeliness) + ScoreOf(m, results, Uniqueness) + ScoreOf(m, results, Validity)) / 6.0
    ensures OverallScore(map[]) == 0.0
  {
    hide ScoreOf;
    var scores := AllScores(m, results);
    MeanOfSix(scores);
    SumTakesOut(scores, Completeness);
    SumTakesOut(scores - {Completeness}, Accuracy);
    SumTakesOut(scores - {Completeness} - {Accuracy}, Consistency);
    SumTakesOut(scores - {Completeness} - {Accuracy} - {Consistency}, Timeliness);
    SumTakesOut(scores - {Completeness} - {Accuracy} - {Consistency} - {Timeliness}, Uniqueness);
    SumTakesOut(scores - {Completeness} - {Accuracy} - {Consistency} - {Timeliness} - {Uniqueness}, Validity);
    assert scores - {Completeness} - {Accuracy} - {Consistency} - {Timeliness} - {Uniqueness} - {Validity} == map[];
  }

  lemma QuotientAtLeast(sum: real, n: real, bound: real)
    requires n > 0.0 && sum >= bound * n
    ensures sum / n >= bound
  {
  }

  lemma SelfQuotient(n: real)
    requires n > 0.0
    ensures n / n == 1.0
  {
  }

  lemma QuotientMonotone(x: real, y: real, n: real)
    requires n > 0.0 && x <= y
    ensures x / n <= y / n
  {
  }

  // ----- What a score counts -----

  /** The results that count for a dimension; one without a type is looked up under the empty text. */
  ghost function ResultsOf(m: DimensionMap, results: seq<ExpectationResult>, dim: DAMADimension): set<nat> {
    set i: nat | i < |results| && CountsFor(m, results[i], dim)
  }

  ghost predicate CountsFor(m: DimensionMap, r: ExpectationResult, dim: DAMADimension) {
    match r.expectationType
    case Some(t) => t in m && m[t] == dim
    case None => "" in m && m[""] == dim
  }

  /** Those of them that succeeded; an absent entry is no success. */
  ghost function SuccessesOf(m: DimensionMap, results: seq<ExpectationResult>, dim: DAMADimension): set<nat> {
    set i: nat | i < |results| && CountsFor(m, results[i], dim) && results[i].success == Some(true)
  }

  lemma {:induction false} CountsAreSizes(m: DimensionMap, results: seq<ExpectationResult>, dim: DAMADimension)
    ensures Total(m, results, dim) == |ResultsOf(m, results, dim)|
    ensures Passed(m, results, dim) == |SuccessesOf(m, results, dim)|
  {
    if results != [] {
      var n, front := |results| - 1, results[..|results| - 1];
      CountsAreSizes(m, front, dim);
      assert DimensionOf(m, results[n]) == Some(dim) <==> CountsFor(m, results[n], dim);
      OneMoreResult(m, results, dim);
      hide ResultsOf, SuccessesOf, CountsFor, DimensionOf;
    }
  }

  lemma OneMoreResult(m: DimensionMap, results: seq<ExpectationResult>, dim: DAMADimension)
    requires results != []
    ensures var n, front := |results| - 1, results[..|results| - 1];
            var counts := CountsFor(m, results[n], dim);
            && |ResultsOf(m, results, dim)| == |ResultsOf(m, front, dim)| + (if counts then 1 else 0)
            && |SuccessesOf(m, results, dim)| ==
               |SuccessesOf(m, front, dim)| + (if counts && results[n].success == Some(true) then 1 else 0)
  {
    hide CountsFor;
    var n, front := |results| - 1, results[..|results| - 1];
    var counts := CountsFor(m, results[n], dim);
    forall i: nat
      ensures i in ResultsOf(m, results, dim) <==> i in ResultsOf(m, front, dim) || (counts && i == n)
      ensures i in SuccessesOf(m, results, dim) <==>
              i in SuccessesOf(m, front, dim) || (counts && results[n].success == Some(true) && i == n)
    {
      assert i < n ==> front[i] == results[i];
    }
    SetGrows(ResultsOf(m, front, dim), ResultsOf(m, results, dim), n, counts);
    SetGrows(SuccessesOf(m, front, dim), SuccessesOf(m, results, dim), n, counts && results[n].success == Some(true));
  }

  lemma SetGrows(before: set<nat>, after: set<nat>, n: nat, grows: bool)
    requires n !in before && forall i: nat :: i in after <==> i in before || (grows && i == n)
    ensures |after| == |before| + if grows then 1 else 0
  {
    if grows {
      assert after == before + {n};
    } else {
      assert after == before;
    }
  }

  /** A dimension's score is the share of its results that succeeded, and 1 if it has none. */
  lemma ScoreIsShareOfSuccesses(m: DimensionMap, results: seq<ExpectationResult>, dim: DAMADimension)
    ensures var all := |ResultsOf(m, results, dim)|;
            ScoreOf(m, results, dim) ==
            if all == 0 then 1.0 else |SuccessesOf(m, results, dim)| as real / all as real
  {
    CountsAreSizes(m, results, dim);
  }

  /** Which expectations each dimension has by default. */
  lemma DefaultExpectations(t: string)
    ensures var m := EXPECTATION_DIMENSION_MAP;
            && (t in m && m[t] == Completeness <==>
                t in {"expect_column_values_to_not_be_null", "expect_table_row_count_to_be_between"})
            && (t in m && m[t] == Accuracy <==>
                t in {"expect_column_values_to_be_between", "expect_column_mean_to_be_between"})
            && (t in m && m[t] == Validity <==>
                t in {"expect_column_values_to_match_regex", "expect_column_values_to_be_in_set",
                      "expect_column_values_to_be_of_type"})
            && (t in m && m[t] == Uniqueness <==>
                t in {"expect_column_values_to_be_unique", "expect_compound_columns_to_be_unique"})
            && (t in m && m[t] == Consistency <==> t == "expect_column_pair_values_to_be_equal")
            && (t in m && m[t] == Timeliness <==> t == "expect_column_values_to_match_strftime_format")
  {
  }

  // ----- How scores behave -----

  lemma CountsOfNext(m: DimensionMap, a: seq<ExpectationResult>, next: seq<ExpectationResult>, dim: DAMADimension)
    requires |next| <= 1
    ensures var counts := |next| == 1 && DimensionOf(m, next[0]) == Some(dim);
            && Total(m, a + next, dim) == Total(m, a, dim) + (if counts then 1 else 0)
            && Passed(m, a + next, dim) == Passed(m, a, dim) + (if counts && Succeeded(next[0]) then 1 else 0)
    ensures Total(m, [], dim) == 0 && Passed(m, [], dim) == 0
  {
    if |next| == 1 {
      assert (a + next)[..|a|] == a;
    } else {
      assert a + next == a;
    }
  }

  lemma {:induction false} CountsAdd(
    m: DimensionMap, a: seq<ExpectationResult>, b: seq<ExpectationResult>, dim: DAMADimension)
    ensures Total(m, a + b, dim) == Total(m, a, dim) + Total(m, b, dim)
    ensures Passed(m, a + b, dim) == Passed(m, a, dim) + Passed(m, b, dim)
    decreases |b|
  {
    CountsOfNext(m, a, [], dim);
    hide Total, Passed;
    if b == [] {
      assert a + b == a;
    } else {
      var front, last := b[..|b| - 1], b[|b| - 1];
      CountsAdd(m, a, front, dim);
      CountsOfNext(m, a + front, [last], dim);
      CountsOfNext(m, front, [last], dim);
      assert a + b == a + front + [last] && b == front + [last];
    }
  }

  /** The mediant of two fractions lies between them. */
  lemma Mediant(p: real, t: real, q: real, u: real)
    requires t > 0.0 && u > 0.0 && p / t <= q / u
    ensures p / t <= (p + q) / (t + u) <= q / u
  {
    var x, y := p / t, q / u;
    assert p == x * t && q == y * u;
    Scaled(x, y, u);
    Scaled(x, y, t);
    assert x * (t + u) == x * t + x * u;
    assert y * (t + u) == y * t + y * u;
    QuotientAtLeast(p + q, t + u, x);
    QuotientMonotone(p + q, y * (t + u), t + u);
  }

  lemma Scaled(x: real, y: real, n: real)
    requires x <= y && n >= 0.0
    ensures x * n <= y * n
  {
  }

  ghost predicate Between(x: real, a: real, b: real) {
    a <= x <= b || b <= x <= a
  }

  /** A dimension's score on two result lists together lies between its scores on each of them. */
  lemma ScoreOfBothLiesBetween(
    m: DimensionMap, a: seq<ExpectationResult>, b: seq<ExpectationResult>, dim: DAMADimension)
    ensures Between(ScoreOf(m, a + b, dim), ScoreOf(m, a, dim), ScoreOf(m, b, dim))
  {
    CountsAdd(m, a, b, dim);
    var p, t := Passed(m, a, dim) as real, Total(m, a, dim) as real;
    var q, u := Passed(m, b, dim) as real, Total(m, b, dim) as real;
    if t > 0.0 && u > 0.0 {
      if p / t <= q / u {
        Mediant(p, t, q, u);
      } else {
        Mediant(q, u, p, t);
      }
    } else {
      ScoreAtMostOne(m, a, dim);
      ScoreAtMostOne(m, b, dim);
    }
  }

  lemma ScoreAtMostOne(m: DimensionMap, results: seq<ExpectationResult>, dim: DAMADimension)
    ensures 0.0 <= ScoreOf(m, results, dim) <= 1.0
  {
    var p, t := Passed(m, results, dim) as real, Total(m, results, dim) as real;
    if t > 0.0 {
      QuotientMonotone(p, t, t);
      SelfQuotient(t);
      QuotientAtLeast(p, t, 0.0);
    }
  }

  lemma CountsWithout(m: DimensionMap, results: seq<ExpectationResult>, i: nat, dim: DAMADimension)
    requires i < |results|
    ensures var rest, counts := results[..i] + results[i + 1..], DimensionOf(m, results[i]) == Some(dim);
            && Total(m, results, dim) == Total(m, rest, dim) + (if counts then 1 else 0)
            && Passed(m, results, dim) == Passed(m, rest, dim) + (if counts && Succeeded(results[i]) then 1 else 0)
  {
    var front, back := results[..i], results[i + 1..];
    assert results == front + [results[i]] + back;
    CountsAdd(m, front + [results[i]], back, dim);
    CountsAdd(m, front, [results[i]], dim);
    CountsAdd(m, front, back, dim);
  }

  lemma {:induction false} CountsIgnoreOrder(
    m: DimensionMap, a: seq<ExpectationResult>, b: seq<ExpectationResult>, dim: DAMADimension)
    requires multiset(a) == multiset(b)
    ensures Total(m, a, dim) == Total(m, b, dim) && Passed(m, a, dim) == Passed(m, b, dim)
    decreases |a|
  {
    SameElements(a, b);
    if a != [] {
      var n := |a| - 1;
      assert a[n] in b;
      var j :| 0 <= j < |b| && b[j] == a[n];
      SameWithout(a, b, n, j);
      CountsWithout(m, a, n, dim);
      CountsWithout(m, b, j, dim);
      hide Total, Passed;
      CountsIgnoreOrder(m, a[..n] + a[n + 1..], b[..j] + b[j + 1..], dim);
    }
  }

  /** The order of the results does not matter. */
  lemma ScoreIgnoresOrder(m: DimensionMap, a: seq<ExpectationResult>, b: seq<ExpectationResult>)
    requires multiset(a) == multiset(b)
    ensures AllScores(m, a) == AllScores(m, b)
  {
    forall dim | dim in ALL_DIMENSIONS ensures ScoreOf(m, a, dim) == ScoreOf(m, b, dim) {
      CountsIgnoreOrder(m, a, b, dim);
    }
  }

  /** The results with the one at `i` a success. */
  function Fixed(results: seq<ExpectationResult>, i: nat): seq<ExpectationResult>
    requires i < |results|
  {
    results[i := results[i].(success := Some(true))]
  }

  lemma FixingCounts(m: DimensionMap, results: seq<ExpectationResult>, i: nat, dim: DAMADimension)
    requires i < |results|
    ensures Total(m, Fixed(results, i), dim) == Total(m, results, dim)
    ensures Passed(m, Fixed(results, i), dim) ==
            Passed(m, results, dim)
            + if DimensionOf(m, results[i]) == Some(dim) && !Succeeded(results[i]) then 1 else 0
  {
    var front, back, x := results[..i], results[i + 1..], results[i].(success := Some(true));
    assert results == front + [results[i]] + back && Fixed(results, i) == front + [x] + back;
    CountsAdd(m, front + [results[i]], back, dim);
    CountsAdd(m, front, [results[i]], dim);
    CountsAdd(m, front + [x], back, dim);
    CountsAdd(m, front, [x], dim);
  }

  ghost predicate Raises(m: DimensionMap, results: seq<ExpectationResult>, i: nat, dim: DAMADimension)
    requires i < |results|
  {
    DimensionOf(m, results[i]) == Some(dim) && !Succeeded(results[i])
  }

  lemma FixingMovesScore(m: DimensionMap, results: seq<ExpectationResult>, i: nat, dim: DAMADimension)
    requires i < |results|
    ensures if Raises(m, results, i, dim) then ScoreOf(m, Fixed(results, i), dim) > ScoreOf(m, results, dim)
            else ScoreOf(m, Fixed(results, i), dim) == ScoreOf(m, results, dim)
  {
    FixingCounts(m, results, i, dim);
    hide Total, Passed, Fixed, DimensionOf, Succeeded, Share;
    OneMorePass(Passed(m, results, dim), Total(m, results, dim));
  }

  /** Turning a failure into a success raises its dimension, leaves the others, and never lowers the overall score. */
  lemma FixingNeverLowers(m: DimensionMap, results: seq<ExpectationResult>, i: nat)
    requires i < |results|
    ensures forall dim ::
              if Raises(m, results, i, dim) then ScoreOf(m, Fixed(results, i), dim) > ScoreOf(m, results, dim)
              else ScoreOf(m, Fixed(results, i), dim) == ScoreOf(m, results, dim)
    ensures OverallScore(AllScores(m, Fixed(results, i))) >= OverallScore(AllScores(m, results))
  {
    hide ScoreOf, Raises, Fixed;
    forall dim
      ensures if Raises(m, results, i, dim) then ScoreOf(m, Fixed(results, i), dim) > ScoreOf(m, results, dim)
              else ScoreOf(m, Fixed(results, i), dim) == ScoreOf(m, results, dim)
    {
      FixingMovesScore(m, results, i, dim);
    }
    OverallMonotone(AllScores(m, results), AllScores(m, Fixed(results, i)));
  }

  lemma OverallMonotone(a: Scores, b: Scores)
    requires a.Keys == b.Keys && forall dim :: dim in a ==> a[dim] <= b[dim]
    ensures OverallScore(a) <= OverallScore(b)
  {
    if a != map[] {
      SumMonotone(a, b);
      assert |a| == |a.Keys| == |b.Keys| == |b|;
      assert |a| > 0;
      QuotientMonotone(SumValues(a), SumValues(b), |a| as real);
    }
  }

  lemma OneMorePass(passed: nat, total: nat)
    ensures total > 0 ==> Share(passed + 1, total) > Share(passed, total)
  {
    if total > 0 {
      var p, t := passed as real, total as real;
      assert (p + 1.0) / t == p / t + 1.0 / t;
    }
  }

  // ----- Service-level thresholds -----

  function Uniform(threshold: real): Scores {
    map dim | dim in ALL_DIMENSIONS :: threshold
  }

  const DEFAULT_THRESHOLDS: map<string, Scores> := map[
    LayerText(Bronze) := Uniform(0.70),
    LayerText(Silver) := Uniform(0.85),
    LayerText(Gold) := Uniform(0.95),
    LayerText(Platinum) := Uniform(0.98)]

  /** An unknown layer is held to the thresholds of bronze. */
  function GetLayerThresholds(layer: string): Scores {
    if layer in DEFAULT_THRESHOLDS then DEFAULT_THRESHOLDS[layer] else Uniform(0.70)
  }

  /** A dimension without a score counts as 0. */
  function CheckSla(scores: Scores, thresholds: Scores): map<DAMADimension, bool> {
    map dim | dim in thresholds :: (if dim in scores then scores[dim] else 0.0) >= thresholds[dim]
  }

  predicate AllPass(checks: map<DAMADimension, bool>) {
    forall dim :: dim in checks ==> checks[dim]
  }

  /** The thresholds of each layer by its text; any other text gets those of bronze. */
  lemma ThresholdsOfLayer(layer: string, dim: DAMADimension)
    ensures var thresholds := GetLayerThresholds(layer);
            && dim in thresholds
            && thresholds[dim] ==
               if layer == "silver" then 0.85 else if layer == "gold" then 0.95 else if layer == "platinum" then 0.98
               else 0.7
  {
    assert LayerText(Bronze)[0] == 'b' && LayerText(Silver)[0] == 's';
    assert LayerText(Gold)[0] == 'g' && LayerText(Platinum)[0] == 'p';
  }

  /** Every threshold must be reached by a score, or be no more than 0 where there is none. */
  lemma SlaPassesIff(scores: Scores, thresholds: Scores)
    ensures AllPass(CheckSla(scores, thresholds)) <==>
            forall dim :: dim in thresholds ==>
              (dim in scores && scores[dim] >= thresholds[dim]) || (dim !in scores && thresholds[dim] <= 0.0)
    ensures CheckSla(scores, thresholds).Keys == thresholds.Keys
  {
    var checks := CheckSla(scores, thresholds);
    assert forall dim :: dim in thresholds <==> dim in checks;
  }
}
