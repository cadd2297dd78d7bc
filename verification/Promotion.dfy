/** Promotion of a dataset from one layer to the next. */
module Promotion {
  import opened Enums
  import opened Quality
  import opened Sums

  type Bytes = seq<bv8>

  function Rank(layer: MedallionLayer): nat {
    match layer
    case Bronze => 0
    case Silver => 1
    case Gold => 2
    case Platinum => 3
  }

  /** A promotion advances exactly one layer. */
  predicate ValidTransition(source: MedallionLayer, target: MedallionLayer) {
    Rank(target) == Rank(source) + 1
  }

  function PromotionThreshold(source: MedallionLayer): real
    requires source != Platinum
  {
    match source
    case Bronze => 0.7
    case Silver => 0.85
    case Gold => 0.95
  }

  function BucketName(layer: MedallionLayer, domainId: string): string {
    "odg-" + LayerText(layer) + "-" + domainId
  }

  datatype Outcome =
    | InvalidTransition                     // raised
    | NoSuchObject                          // raised by the object store
    | BelowThreshold                        // refused, nothing copied
    | Promoted                              // copied
    | AwaitingDecision(decisionId: string)  // a governance decision is required

  /** The object store: objects by bucket and key. */
  class BucketManager {
    var objects: map<(string, string), Bytes>

    constructor ()
      ensures objects == map[]
    {
      objects := map[];
    }
  }

  ghost function PromotionEffect(
    objects: map<(string, string), Bytes>, domainId: string, source: MedallionLayer, target: MedallionLayer,
    datasetId: string, dqScore: real, freshId: string): (Outcome, map<(string, string), Bytes>)
  {
    if !ValidTransition(source, target) then (InvalidTransition, objects)
    else if dqScore < PromotionThreshold(source) then (BelowThreshold, objects)
    else if source != Bronze then (AwaitingDecision(freshId), objects)
    else if (BucketName(source, domainId), datasetId) !in objects then (NoSuchObject, objects)
    else
      (Promoted,
       objects[(BucketName(target, domainId), datasetId) := objects[(BucketName(source, domainId), datasetId)]])
  }

  class PromotionService {
    const bucketManager: BucketManager

    constructor (bucketManager: BucketManager)
      ensures this.bucketManager == bucketManager
    {
      this.bucketManager := bucketManager;
    }

    method Promote(domainId: string, source: MedallionLayer, target: MedallionLayer, datasetId: string, dqScore: real,
                   freshId: string)
      returns (outcome: Outcome)
      modifies bucketManager
      ensures (outcome, bucketManager.objects) ==
              PromotionEffect(old(bucketManager.objects), domainId, source, target, datasetId, dqScore, freshId)
    {
      if Rank(target) != Rank(source) + 1 {
        return InvalidTransition;
      }
      if dqScore < PromotionThreshold(source) {
        return BelowThreshold;
      }
      if source == Bronze && target == Silver {
        var from, to := (BucketName(source, domainId), datasetId), (BucketName(target, domainId), datasetId);
        if from !in bucketManager.objects {
          return NoSuchObject;
        }
        bucketManager.objects := bucketManager.objects[to := bucketManager.objects[from]];
        return Promoted;
      }
      return AwaitingDecision(freshId);
    }
  }

  /** Different layers or domains never share a bucket. */
  lemma BucketNamesAreDistinct(layer: MedallionLayer, domainId: string, layer': MedallionLayer, domainId': string)
    ensures BucketName(layer, domainId) == BucketName(layer', domainId') <==> layer == layer' && domainId == domainId'
  {
    var a, b := BucketName(layer, domainId), BucketName(layer', domainId');
    assert a[4] == LayerText(layer)[0] && b[4] == LayerText(layer')[0];
    if a == b {
      assert layer == layer';
      var n := 5 + |LayerText(layer)|;
      assert domainId == a[n..] == b[n..] == domainId';
    }
  }

  /**
    A promotion copies an object only from bronze to silver of the same domain: then the copy equals
    the original, which is still there, and nothing else changes.
   */
  lemma PromotionCopiesAtMostOneObject(
    objects: map<(string, string), Bytes>, domainId: string, source: MedallionLayer, target: MedallionLayer,
    datasetId: string, dqScore: real, freshId: string)
    ensures var (outcome, objects') := PromotionEffect(objects, domainId, source, target, datasetId, dqScore, freshId);
            var from, to := ("odg-bronze-" + domainId, datasetId), ("odg-silver-" + domainId, datasetId);
            && (outcome == Promoted <==> source == Bronze && target == Silver && dqScore >= 0.7 && from in objects)
            && (outcome == Promoted ==>
                  from in objects' && to in objects' && objects'[to] == objects'[from] == objects[from])
            && (forall k :: !(outcome == Promoted && k == to) ==>
                  (k in objects' <==> k in objects) && (k in objects ==> objects'[k] == objects[k]))
  {
    assert BucketName(Bronze, domainId) == "odg-bronze-" + domainId;
    assert BucketName(Silver, domainId) == "odg-silver-" + domainId;
    BucketNamesAreDistinct(Bronze, domainId, Silver, domainId);
  }

  /** Which transitions exist, what score each needs, and what then happens. */
  lemma PromotionAnswers(
    objects: map<(string, string), Bytes>, domainId: string, source: MedallionLayer, target: MedallionLayer,
    datasetId: string, dqScore: real, freshId: string)
    ensures var outcome := PromotionEffect(objects, domainId, source, target, datasetId, dqScore, freshId).0;
            var step := (source, target);
            && (outcome == InvalidTransition <==> step !in {(Bronze, Silver), (Silver, Gold), (Gold, Platinum)})
            && (outcome == BelowThreshold <==>
                || (step == (Bronze, Silver) && dqScore < 0.7)
                || (step == (Silver, Gold) && dqScore < 0.85)
                || (step == (Gold, Platinum) && dqScore < 0.95))
            && (outcome == AwaitingDecision(freshId) <==>
                || (step == (Silver, Gold) && dqScore >= 0.85)
                || (step == (Gold, Platinum) && dqScore >= 0.95))
            && (outcome == NoSuchObject <==>
                && step == (Bronze, Silver) && dqScore >= 0.7 && ("odg-bronze-" + domainId, datasetId) !in objects)
            && (outcome == Promoted <==>
                && step == (Bronze, Silver) && dqScore >= 0.7 && ("odg-bronze-" + domainId, datasetId) in objects)
  {
    assert BucketName(Bronze, domainId) == "odg-bronze-" + domainId;
  }

  // ----- The gates fit together -----

  lemma LayerThresholds(layer: MedallionLayer)
    requires layer != Platinum
    ensures GetLayerThresholds(LayerText(layer)) == Uniform(PromotionThreshold(layer))
  {
    assert LayerText(Bronze)[0] == 'b' && LayerText(Silver)[0] == 's';
    assert LayerText(Gold)[0] == 'g' && LayerText(Platinum)[0] == 'p';
  }

  /**
    Whatever the results: when every dimension passes its layer's default thresholds, promotion from
    that layer to the next is not refused on the overall score.
   */
  lemma PassingSlaIsNotRefused(
    m: DimensionMap, results: seq<ExpectationResult>, source: MedallionLayer, target: MedallionLayer,
    objects: map<(string, string), Bytes>, domainId: string, datasetId: string, freshId: string)
    requires ValidTransition(source, target)
    requires AllPass(CheckSla(AllScores(m, results), GetLayerThresholds(LayerText(source))))
    ensures var score := OverallScore(AllScores(m, results));
            && score >= PromotionThreshold(source)
            && PromotionEffect(objects, domainId, source, target, datasetId, score, freshId).0 != BelowThreshold
  {
    LayerThresholds(source);
    var scores, checks := AllScores(m, results), CheckSla(AllScores(m, results), Uniform(PromotionThreshold(source)));
    forall dim | dim in scores ensures scores[dim] >= PromotionThreshold(source) {
      assert dim in checks && checks[dim];
    }
    assert Completeness in scores;
    OverallAtLeast(scores, PromotionThreshold(source));
  }

  // ----- What passes the promotion gate without passing the service level -----

  /** The overall score is high enough for promotion from the layer. */
  ghost predicate ScoreAccepted(m: DimensionMap, results: seq<ExpectationResult>, source: MedallionLayer)
    requires source != Platinum
  {
    OverallScore(AllScores(m, results)) >= PromotionThreshold(source)
  }

  /** Every dimension passes the layer's default thresholds. */
  ghost predicate SlaPassed(m: DimensionMap, results: seq<ExpectationResult>, source: MedallionLayer) {
    AllPass(CheckSla(AllScores(m, results), GetLayerThresholds(LayerText(source))))
  }

  /** How far the scores lie above the bound, in the dimensions that reach it. */
  ghost function Surplus(scores: Scores, bound: real): real {
    SumValues(Above(scores, bound))
  }

  /** How far the scores lie below the bound, in the dimensions that miss it. */
  ghost function Shortfall(scores: Scores, bound: real): real {
    SumValues(Below(scores, bound))
  }

  ghost function Above(scores: Scores, bound: real): Scores {
    map dim | dim in scores :: if scores[dim] > bound then scores[dim] - bound else 0.0
  }

  ghost function Below(scores: Scores, bound: real): Scores {
    map dim | dim in scores :: if scores[dim] < bound then bound - scores[dim] else 0.0
  }

  lemma SumOfUniform(bound: real)
    ensures SumValues(Uniform(bound)) == 6.0 * bound
  {
    MeanOfSix(Uniform(bound));
    SumConstant(Uniform(bound), bound);
    TimesIsProduct(6, bound);
  }

  /** The sum of the scores exceeds that of the bounds by the surplus less the shortfall. */
  lemma SurplusLessShortfall(scores: Scores, bound: real)
    requires scores.Keys == ALL_DIMENSIONS
    ensures SumValues(scores) - 6.0 * bound == Surplus(scores, bound) - Shortfall(scores, bound)
  {
    var deviations := map dim | dim in scores :: scores[dim] - bound;
    SumSubtracts(deviations, Above(scores, bound), Below(scores, bound));
    SumSubtracts(deviations, scores, Uniform(bound));
    SumOfUniform(bound);
  }

  lemma MeanReachesIff(scores: Scores, bound: real)
    requires scores.Keys == ALL_DIMENSIONS
    ensures OverallScore(scores) >= bound <==> Shortfall(scores, bound) <= Surplus(scores, bound)
  {
    SurplusLessShortfall(scores, bound);
    MeanOfSix(scores);
    hide *;
    QuotientReachesIff(SumValues(scores), 6.0, bound);
  }

  lemma QuotientReachesIff(sum: real, n: real, bound: real)
    requires n > 0.0
    ensures sum / n >= bound <==> sum >= n * bound
  {
    if sum >= n * bound {
      QuotientAtLeast(sum, n, bound);
    } else {
      var quotient := sum / n;
      assert quotient * n == sum;
      if quotient >= bound {
        Scaled(bound, quotient, n);
        assert false;
      }
    }
  }

  /**
    Whatever the results: promotion is not refused on score exactly when what the dimensions lack is
    made up for by what the others have beyond the threshold.
   */
  lemma NotRefusedIffSurplusCovers(
    m: DimensionMap, results: seq<ExpectationResult>, source: MedallionLayer, target: MedallionLayer,
    objects: map<(string, string), Bytes>, domainId: string, datasetId: string, freshId: string)
    requires ValidTransition(source, target)
    ensures var scores, bound := AllScores(m, results), PromotionThreshold(source);
            var outcome :=
              PromotionEffect(objects, domainId, source, target, datasetId, OverallScore(scores), freshId).0;
            && (outcome != BelowThreshold <==> ScoreAccepted(m, results, source))
            && (outcome != BelowThreshold <==> Shortfall(scores, bound) <= Surplus(scores, bound))
  {
    hide ScoreOf, OverallScore, Surplus, Shortfall;
    MeanReachesIff(AllScores(m, results), PromotionThreshold(source));
  }

  /** The service level fails exactly when some dimension lacks something. */
  lemma SlaFailsIffShortfall(m: DimensionMap, results: seq<ExpectationResult>, source: MedallionLayer)
    requires source != Platinum
    ensures !SlaPassed(m, results, source) <==> Shortfall(AllScores(m, results), PromotionThreshold(source)) > 0.0
  {
    hide ScoreOf;
    var scores, bound := AllScores(m, results), PromotionThreshold(source);
    LayerThresholds(source);
    SumPositiveIff(Below(scores, bound));
    var checks := CheckSla(scores, Uniform(bound));
    assert forall dim :: dim in checks ==> (checks[dim] <==> Below(scores, bound)[dim] == 0.0);
    assert checks.Keys == Below(scores, bound).Keys;
  }

  /**
    A dataset that misses its layer's service level is refused, except in exactly this case: its
    shortfall, then positive, is no greater than its surplus.
   */
  lemma FailedSlaNotRefusedIff(
    m: DimensionMap, results: seq<ExpectationResult>, source: MedallionLayer, target: MedallionLayer,
    objects: map<(string, string), Bytes>, domainId: string, datasetId: string, freshId: string)
    requires ValidTransition(source, target)
    ensures var scores, bound := AllScores(m, results), PromotionThreshold(source);
            var outcome :=
              PromotionEffect(objects, domainId, source, target, datasetId, OverallScore(scores), freshId).0;
            !SlaPassed(m, results, source) && outcome != BelowThreshold
            <==> 0.0 < Shortfall(scores, bound) <= Surplus(scores, bound)
  {
    hide PromotionEffect, ScoreOf, OverallScore, Surplus, Shortfall, SlaPassed;
    NotRefusedIffSurplusCovers(m, results, source, target, objects, domainId, datasetId, freshId);
    SlaFailsIffShortfall(m, results, source);
  }

  // ----- What acceptance guarantees of each dimension -----

  /** The least score a dimension can have when promotion from the layer is not refused on score. */
  function Floor(source: MedallionLayer): real
    requires source != Platinum
  {
    match source
    case Bronze => 0.0
    case Silver => 0.1
    case Gold => 0.7
  }

  lemma AcceptedScoresReachFloor(
    m: DimensionMap, results: seq<ExpectationResult>, source: MedallionLayer, dim: DAMADimension)
    requires source != Platinum && ScoreAccepted(m, results, source)
    ensures ScoreOf(m, results, dim) >= 6.0 * PromotionThreshold(source) - 5.0
    ensures ScoreOf(m, results, dim) >= Floor(source)
  {
    var scores := AllScores(m, results);
    forall d: DAMADimension ensures 0.0 <= ScoreOf(m, results, d) <= 1.0 {
      ScoreAtMostOne(m, results, d);
    }
    hide ScoreOf;
    OthersAtMostOne(scores, dim);
    MeanOfSix(scores);
    QuotientReachesIff(SumValues(scores), 6.0, PromotionThreshold(source));
  }

  lemma OthersAtMostOne(scores: Scores, dim: DAMADimension)
    requires scores.Keys == ALL_DIMENSIONS && forall d :: d in scores ==> scores[d] <= 1.0
    requires dim in scores
    ensures SumValues(scores) <= scores[dim] + 5.0
  {
    SumTakesOut(scores, dim);
    SumTakesOut(Uniform(1.0), dim);
    SumOfUniform(1.0);
    SumMonotone(scores - {dim}, Uniform(1.0) - {dim});
  }

  /** An expectation of the dimension. */
  function ExpectationFor(dim: DAMADimension): (t: string)
    ensures t in EXPECTATION_DIMENSION_MAP && EXPECTATION_DIMENSION_MAP[t] == dim
  {
    match dim
    case Completeness => "expect_column_values_to_not_be_null"
    case Accuracy => "expect_column_values_to_be_between"
    case Consistency => "expect_column_pair_values_to_be_equal"
    case Timeliness => "expect_column_values_to_match_strftime_format"
    case Uniqueness => "expect_column_values_to_be_unique"
    case Validity => "expect_column_values_to_be_of_type"
  }

  /** Ten results of one dimension, the first `passed` of them successes. */
  function TenResults(dim: DAMADimension, passed: nat): seq<ExpectationResult> {
    seq(10, i => ExpectationResult(Some(ExpectationFor(dim)), Some(i < passed)))
  }

  lemma {:induction false} CountsOfUniform(
    m: DimensionMap, results: seq<ExpectationResult>, passed: nat, dim: DAMADimension, d: DAMADimension)
    requires forall r :: r in results ==> DimensionOf(m, r) == Some(dim)
    requires forall i :: 0 <= i < |results| ==> (Succeeded(results[i]) <==> i < passed)
    ensures Total(m, results, d) == if d == dim then |results| else 0
    ensures Passed(m, results, d) == if d != dim then 0 else if passed < |results| then passed else |results|
  {
    if results != [] {
      CountsOfUniform(m, results[..|results| - 1], passed, dim, d);
    }
  }

  /** The results that reach the floor: the dimension itself is at the floor and the others are at 1. */
  function Worst(source: MedallionLayer, dim: DAMADimension): seq<ExpectationResult>
    requires source != Platinum
  {
    TenResults(dim, match source case Bronze => 0 case Silver => 1 case Gold => 7)
  }

  lemma ScoresOfWorst(source: MedallionLayer, dim: DAMADimension, d: DAMADimension)
    requires source != Platinum
    ensures ScoreOf(EXPECTATION_DIMENSION_MAP, Worst(source, dim), d) == if d == dim then Floor(source) else 1.0
  {
    hide EXPECTATION_DIMENSION_MAP, ExpectationFor;
    CountsOfUniform(EXPECTATION_DIMENSION_MAP, Worst(source, dim),
                    match source case Bronze => 0 case Silver => 1 case Gold => 7, dim, d);
  }

  /** At every layer and in every dimension the floor is reached, by results that miss the service level. */
  lemma FloorIsReached(source: MedallionLayer, dim: DAMADimension)
    requires source != Platinum
    ensures var m, results := EXPECTATION_DIMENSION_MAP, Worst(source, dim);
            && ScoreAccepted(m, results, source) && !SlaPassed(m, results, source)
            && ScoreOf(m, results, dim) == Floor(source)
  {
    hide ScoreOf, Worst, EXPECTATION_DIMENSION_MAP, GetLayerThresholds;
    var results, bound := Worst(source, dim), PromotionThreshold(source);
    var scores := AllScores(EXPECTATION_DIMENSION_MAP, results);
    forall d: DAMADimension ensures d in scores && scores[d] == if d == dim then Floor(source) else 1.0 {
      ScoresOfWorst(source, dim, d);
    }
    SumOfWorst(scores, source, dim);
    MeanOfSix(scores);
    QuotientAtLeast(SumValues(scores), 6.0, bound);
    LayerThresholds(source);
    assert !CheckSla(scores, Uniform(bound))[dim];
  }

  lemma SumOfWorst(scores: Scores, source: MedallionLayer, dim: DAMADimension)
    requires source != Platinum && scores.Keys == ALL_DIMENSIONS
    requires forall d :: d in scores ==> scores[d] == if d == dim then Floor(source) else 1.0
    ensures SumValues(scores) == 5.0 + Floor(source)
  {
    MeanOfSix(scores);
    SumTakesOut(scores, dim);
    SizeWithout(scores, dim);
    SumConstant(scores - {dim}, 1.0);
    TimesIsProduct(5, 1.0);
  }

  /** What acceptance on score guarantees of one dimension, whatever the results: the floor and no more. */
  lemma AcceptanceGuaranteesIff(source: MedallionLayer, dim: DAMADimension, bound: real)
    requires source != Platinum
    ensures (forall results :: ScoreAccepted(EXPECTATION_DIMENSION_MAP, results, source)
               ==> ScoreOf(EXPECTATION_DIMENSION_MAP, results, dim) >= bound)
            <==> bound <= Floor(source)
  {
    hide *;
    if bound <= Floor(source) {
      forall results | ScoreAccepted(EXPECTATION_DIMENSION_MAP, results, source)
        ensures ScoreOf(EXPECTATION_DIMENSION_MAP, results, dim) >= bound
      {
        AcceptedScoresReachFloor(EXPECTATION_DIMENSION_MAP, results, source, dim);
      }
    } else {
      FloorIsReached(source, dim);
      assert ScoreAccepted(EXPECTATION_DIMENSION_MAP, Worst(source, dim), source);
    }
  }
}
