/**
 * The aggregation of metrics/evaluation.py: the structural scores, the final score and
 * its result dict, the advice rules, and evaluate_course, which runs the reference
 * metrics only when a reference is present.
 */
module Evaluation {
  import opened Common
  import opened Parsing
  import opened Thresholds
  import TopicFlow
  import TopicGraph
  import Coverage
  import Redundancy
  import MetricsIndependent
  import opened Advice

  // ---------------------------------------------------------------------------
  // round(x, 3)
  // ---------------------------------------------------------------------------

  /** The integer nearest to y, ties going to the even neighbour (Python's round). */
  function RoundHalfEven(y: real): (k: int)
    ensures -0.5 <= k as real - y <= 0.5
  {
    var f := y.Floor;
    var frac := y - f as real;
    if frac < 0.5 then f
    else if frac > 0.5 then f + 1
    else if f % 2 == 0 then f else f + 1
  }

  /** `round(x, 3)` on the exact value x. */
  function Round3(x: real): (r: real)
    ensures -0.0005 <= r - x <= 0.0005
    ensures (r * 1000.0).Floor as real == r * 1000.0
  {
    RoundHalfEven(x * 1000.0) as real / 1000.0
  }

  /** Rounding to three places keeps [0, 1]. */
  lemma Round3Bounds(x: real)
    ensures 0.0 <= x <= 1.0 ==> 0.0 <= Round3(x) <= 1.0
  {
    var k := RoundHalfEven(x * 1000.0);
    if 0.0 <= x <= 1.0 {
      assert -0.5 < k as real && k as real < 1000.5;
      assert 0 <= k <= 1000;
    }
  }

  // ---------------------------------------------------------------------------
  // compute_final_score
  // ---------------------------------------------------------------------------

  /** `(semantic_score, topic_flow, balance)` of compute_structural_scores. */
  datatype Structural = Structural(semantic: real, flow: real, balance: real)

  /** The dict built by compute_final_score; None stands for a null value. */
  datatype Report = Report(
    finalScore: real,
    structuralScore: real,
    semanticCoherence: real,
    topicFlow: real,
    structuralBalance: real,
    sequenceCoverage: Option<real>,
    graphCoverage: Option<real>,
    redundancy: real,
    relevance: Option<real>,
    extraTopicsPenalty: real,
    coverageScore: Option<real>,
    relevanceScore: Option<real>)

  /** The mean of the normalised semantic score, the topic flow and the normalised balance. */
  function StructuralScore(s: Structural): (r: real)
    ensures 0.0 <= s.semantic && 0.0 <= s.flow <= 1.0 && 0.0 <= s.balance ==> 0.0 <= r <= 1.0
    ensures s.flow <= 1.0 ==> (r == 1.0 <==> 0.65 <= s.semantic && s.flow == 1.0 && 0.8 <= s.balance)
  {
    (Min(s.semantic / 0.65, 1.0) + s.flow + Min(s.balance / 0.8, 1.0)) / 3.0
  }

  /**
   * compute_final_score. The reference part is used when both a coverage pair and a
   * relevance are given (a pair is always truthy); redundancy and extra topics default to 0.
   */
  function ComputeFinalScore(structural: Structural, coverage: Option<(real, real)>, relevance: Option<real>,
                             redundancy: real, extra: real): (r: Report)
    ensures r.structuralScore == StructuralScore(structural)
    ensures r.semanticCoherence == structural.semantic && r.topicFlow == structural.flow
      && r.structuralBalance == structural.balance
    ensures r.redundancy == redundancy && r.relevance == relevance && r.extraTopicsPenalty == extra
    ensures (r.sequenceCoverage.Some? <==> coverage.Some?) && (r.graphCoverage.Some? <==> coverage.Some?)
    ensures (r.coverageScore.Some? <==> coverage.Some? && relevance.Some?)
      && (r.relevanceScore.Some? <==> coverage.Some? && relevance.Some?)
    ensures r.coverageScore.None? ==> r.finalScore == Round3(r.structuralScore)
    ensures r.coverageScore.Some? ==> r.finalScore <= 1.0 && 0.0 <= r.relevanceScore.value
  {
    var structuralScore := StructuralScore(structural);
    var withReference := coverage.Some? && relevance.Some?;
    var coverageScore :=
      if withReference then Some((coverage.value.0 + coverage.value.1 - Min(redundancy, 1.0)) / 2.0) else None;
    var relevanceScore :=
      if withReference then Some(Max(0.0, relevance.value - Min(extra, 0.5))) else None;
    var finalScore :=
      if withReference then Min(1.0, (structuralScore + coverageScore.value + relevanceScore.value) / 3.0)
      else Round3(structuralScore);
    Report(
      finalScore, structuralScore, structural.semantic, structural.flow, structural.balance,
      if coverage.Some? then Some(coverage.value.0) else None,
      if coverage.Some? then Some(coverage.value.1) else None,
      redundancy, relevance, extra, coverageScore, relevanceScore)
  }

  /**
   * Without a coverage pair or a relevance, every reference-derived score is null and
   * the final score is the structural score rounded to three places.
   */
  lemma NoReferenceReport(s: Structural, redundancy: real, extra: real)
    requires 0.0 <= s.semantic && 0.0 <= s.flow <= 1.0 && 0.0 <= s.balance
    ensures var r := ComputeFinalScore(s, None, None, redundancy, extra);
      && r.coverageScore.None? && r.relevanceScore.None?
      && r.sequenceCoverage.None? && r.graphCoverage.None? && r.relevance.None?
      && r.finalScore == Round3(r.structuralScore)
      && 0.0 <= r.finalScore <= 1.0
  {
    Round3Bounds(StructuralScore(s));
  }

  /**
   * With a reference the relevance score is never negative and the final score is at
   * most 1; with coverage and redundancy in [0, 1] the coverage score is at least -0.5
   * and the final score at least -1/6.
   */
  lemma ReferenceReportBounds(s: Structural, seqCov: real, graphCov: real, relevance: real, redundancy: real, extra: real)
    requires 0.0 <= s.semantic && 0.0 <= s.flow <= 1.0 && 0.0 <= s.balance
    ensures var r := ComputeFinalScore(s, Some((seqCov, graphCov)), Some(relevance), redundancy, extra);
      && r.coverageScore.Some? && r.relevanceScore.Some?
      && r.relevanceScore.value >= 0.0
      && r.finalScore <= 1.0
      && (0.0 <= seqCov && 0.0 <= graphCov && redundancy <= 1.0 ==>
          r.coverageScore.value >= -0.5 && r.finalScore >= -1.0 / 6.0)
  {
  }

  /** The coverage score is not clamped at 0: no coverage and full redundancy give -0.5. */
  lemma CoverageScoreUnclamped(s: Structural)
    ensures ComputeFinalScore(s, Some((0.0, 0.0)), Some(0.0), 1.0, 0.0).coverageScore == Some(-0.5)
  {
  }

  /**
   * Every score of a report is in range: the structural scores in [0, 1], the final
   * score at most 1 (and at least -1/6), the coverage, relevance, redundancy and
   * extra-topics scores in [0, 1], the coverage score in [-0.5, 1] and the relevance
   * score in [0, 1].
   */
  ghost predicate Bounded(r: Report)
  {
    && 0.0 <= r.semanticCoherence <= 1.0 && 0.0 <= r.topicFlow <= 1.0 && 0.0 <= r.structuralBalance <= 1.0
    && 0.0 <= r.structuralScore <= 1.0
    && -1.0 / 6.0 <= r.finalScore <= 1.0
    && 0.0 <= r.redundancy <= 1.0
    && (r.sequenceCoverage.Some? ==> 0.0 <= r.sequenceCoverage.value <= 1.0)
    && (r.graphCoverage.Some? ==> 0.0 <= r.graphCoverage.value <= 1.0)
    && (r.relevance.Some? ==> 0.0 <= r.relevance.value <= 1.0)
    && 0.0 <= r.extraTopicsPenalty <= 1.0
    && (r.coverageScore.Some? ==> -0.5 <= r.coverageScore.value <= 1.0)
    && (r.relevanceScore.Some? ==> 0.0 <= r.relevanceScore.value <= 1.0)
  }

  /** Component scores in range give a report whose every score is in range. */
  lemma ScoresBounded(s: Structural, coverage: Option<(real, real)>, relevance: Option<real>, redundancy: real, extra: real)
    requires 0.0 <= s.semantic <= 1.0 && 0.0 <= s.flow <= 1.0 && 0.0 <= s.balance <= 1.0
    requires coverage.Some? ==> 0.0 <= coverage.value.0 <= 1.0 && 0.0 <= coverage.value.1 <= 1.0
    requires relevance.Some? ==> 0.0 <= relevance.value <= 1.0
    requires 0.0 <= redundancy <= 1.0 && 0.0 <= extra <= 1.0
    ensures Bounded(ComputeFinalScore(s, coverage, relevance, redundancy, extra))
  {
    if coverage.Some? && relevance.Some? {
      ReferenceReportBounds(s, coverage.value.0, coverage.value.1, relevance.value, redundancy, extra);
    } else {
      Round3Bounds(StructuralScore(s));
    }
  }

  /** The result dict, keyed as compute_final_score keys it. */
  function AsFields(r: Report): Fields
  {
    map[
      "final_score" := Some(r.finalScore),
      "structural_score" := Some(r.structuralScore),
      "semantic_coherence" := Some(r.semanticCoherence),
      "topic_flow" := Some(r.topicFlow),
      "structural_balance" := Some(r.structuralBalance),
      "sequence_coverage" := r.sequenceCoverage,
      "graph_coverage" := r.graphCoverage,
      "redundancy" := Some(r.redundancy),
      "relevance" := r.relevance,
      "extra_topics_penalty" := Some(r.extraTopicsPenalty),
      "coverage_score" := r.coverageScore,
      "relevance_score" := r.relevanceScore
    ]
  }

  // ---------------------------------------------------------------------------
  // compute_structural_scores and evaluate_course
  // ---------------------------------------------------------------------------

  /** `if reference_text:` : a reference string that is not empty. */
  predicate Given(reference: Option<string>)
  {
    reference.Some? && |reference.value| > 0
  }

  /** `reference_text and reference_text.strip()`: a reference with a non-whitespace character. */
  predicate Present(reference: Option<string>)
  {
    reference.Some? && |Strip(reference.value)| > 0
  }

  /** The flattened topics of a parsed reference text. */
  function ReferenceTopics(text: string): seq<string>
  {
    Flatten(Parse(text).Values())
  }

  /** compute_structural_scores as a function. */
  function StructuralScores(courseText: string, reference: Option<string>, oracle: Oracle): Structural
  {
    var course := Parse(courseText);
    Structural(
      MetricsIndependent.Coherence(course, oracle),
      if Given(reference) then TopicFlow.TopicFlow(course, ReferenceTopics(reference.value)) else 0.0,
      MetricsIndependent.Balance(course, oracle.sqrt))
  }

  /** compute_structural_scores: topic flow only against a non-empty reference string. */
  method ComputeStructuralScores(courseText: string, reference: Option<string>, oracle: Oracle)
    returns (s: Structural)
    ensures s == StructuralScores(courseText, reference, oracle)
  {
    var course := ParseCourseStructure(courseText);
    var semantic := MetricsIndependent.RevisedSemanticCoherence(course, oracle);
    var balance := MetricsIndependent.Balance(course, oracle.sqrt);
    var flow := 0.0;
    if reference.Some? && |reference.value| > 0 {
      var referenceStructure := ParseCourseStructure(reference.value);
      var referenceTopics := Flatten(referenceStructure.Values());
      flow := TopicFlow.TopicFlowScore(course, referenceTopics);
    }
    s := Structural(semantic, flow, balance);
  }

  /** Text that strips to nothing parses to the empty mapping. */
  lemma ParseStrippedEmpty(text: string)
    requires |Strip(text)| == 0
    ensures Parse(text) == EmptyOutline
  {
    ParseBlank(text);
  }

  /**
   * The three structural scores lie in [0, 1], and the topic flow is exactly 0 unless a
   * reference is present (a whitespace-only reference parses to no topics).
   */
  lemma StructuralScoresBounds(courseText: string, reference: Option<string>, oracle: Oracle)
    requires oracle.Sound() && MetricsIndependent.UnitInner(oracle.inner)
    ensures var s := StructuralScores(courseText, reference, oracle);
      0.0 <= s.semantic <= 1.0 && 0.0 <= s.flow <= 1.0 && 0.0 <= s.balance <= 1.0
  {
    var course := Parse(courseText);
    MetricsIndependent.CoherenceBounds(course, oracle);
    MetricsIndependent.BalanceBounds(MetricsIndependent.Counts(course.Values()), oracle.sqrt);
    if Given(reference) {
      TopicFlow.FlowBounds(Flatten(course.Values()), ReferenceTopics(reference.value));
    }
  }

  lemma NoFlowWithoutReference(courseText: string, reference: Option<string>, oracle: Oracle)
    requires !Present(reference)
    ensures StructuralScores(courseText, reference, oracle).flow == 0.0
  {
    if Given(reference) {
      ParseStrippedEmpty(reference.value);
      assert ReferenceTopics(reference.value) == [];
      TopicFlow.FlowDisjoint(Flatten(Parse(courseText).Values()), []);
    }
  }

  /** The outcome of evaluate_course: the result dict and its advice. */
  datatype Evaluation = Evaluation(report: Report, advice: seq<Message>)

  /** compute_coverage_scores as a function: the coverage pair and the redundancy. */
  function CoverageScores(courseText: string, referenceText: string, oracle: Oracle): ((real, real), real)
  {
    var course := Parse(courseText);
    var reference := Parse(referenceText);
    var refs := Flatten(reference.Values());
    ((Coverage.SequenceCoverage(course, refs, oracle.cosine), TopicGraph.GraphCoverage(course, reference, oracle.cosine)),
     Redundancy.Redundancy(Flatten(course.Values()), oracle.cosine, oracle.pow08))
  }

  /**
   * compute_relevance_scores as a function: the relevance and the extra-topics penalty,
   * or the failure of the penalty on an empty reference.
   */
  function RelevanceScores(courseText: string, referenceText: string, oracle: Oracle): Result<(real, real), Fault>
  {
    var course := Parse(courseText);
    var refs := ReferenceTopics(referenceText);
    var extra :- Coverage.ExtraTopics(course, refs, oracle.cosine);
    Success((Coverage.Relevance(course, refs, oracle.cosine), extra))
  }

  /** compute_coverage_scores: parses both texts and runs the three coverage metrics. */
  method ComputeCoverageScores(courseText: string, referenceText: string, oracle: Oracle)
    returns (coverage: (real, real), redundancy: real)
    ensures (coverage, redundancy) == CoverageScores(courseText, referenceText, oracle)
  {
    var course := ParseCourseStructure(courseText);
    var referenceStructure := ParseCourseStructure(referenceText);
    var referenceTopics := Flatten(referenceStructure.Values());
    var seqCov := Coverage.SequenceCoverage(course, referenceTopics, oracle.cosine);
    var graphCov := TopicGraph.GraphBasedCoverage(course, referenceStructure, oracle.cosine);
    redundancy := Redundancy.RedundancyScore(course, oracle.cosine, oracle.pow08);
    coverage := (seqCov, graphCov);
  }

  /** compute_relevance_scores: parses both texts and runs the two relevance metrics. */
  method ComputeRelevanceScores(courseText: string, referenceText: string, oracle: Oracle)
    returns (r: Result<(real, real), Fault>)
    ensures r == RelevanceScores(courseText, referenceText, oracle)
  {
    var course := ParseCourseStructure(courseText);
    var referenceStructure := ParseCourseStructure(referenceText);
    var referenceTopics := Flatten(referenceStructure.Values());
    var relevance := Coverage.Relevance(course, referenceTopics, oracle.cosine);
    var extra :- Coverage.ExtraTopics(course, referenceTopics, oracle.cosine);
    r := Success((relevance, extra));
  }

  /** Both coverage scores and the redundancy lie in [0, 1]. */
  lemma CoverageScoresBounds(courseText: string, referenceText: string, oracle: Oracle)
    requires oracle.Sound()
    ensures var (coverage, redundancy) := CoverageScores(courseText, referenceText, oracle);
      0.0 <= coverage.0 <= 1.0 && 0.0 <= coverage.1 <= 1.0 && 0.0 <= redundancy <= 1.0
  {
    var course := Parse(courseText);
    var refs := ReferenceTopics(referenceText);
    Redundancy.RedundancyPositiveIff(Flatten(course.Values()), oracle.cosine, oracle.pow08);
  }

  /**
   * The relevance scores fail exactly for a course with topics against a reference
   * without any, and otherwise both lie in [0, 1].
   */
  lemma RelevanceScoresShape(courseText: string, referenceText: string, oracle: Oracle)
    ensures var r := RelevanceScores(courseText, referenceText, oracle);
      && (r.Failure? <==> |Coverage.CourseTopics(Parse(courseText))| > 0 && |ReferenceTopics(referenceText)| == 0)
      && (r.Failure? ==> r.error == EmptyReferenceTopics)
      && (r.Success? ==> 0.0 <= r.value.0 <= 1.0 && 0.0 <= r.value.1 <= 1.0)
  {
    var course := Parse(courseText);
    var refs := ReferenceTopics(referenceText);
    Coverage.RelevanceShare(course, refs, oracle.cosine);
    Coverage.ExtraTopicsShare(course, refs, oracle.cosine);
  }

  /** The result dict of evaluate_course before the advice is added. */
  function ReportOf(courseText: string, reference: Option<string>, oracle: Oracle): Result<Report, Fault>
  {
    var structural := StructuralScores(courseText, reference, oracle);
    if Present(reference) then
      var (coverage, redundancy) := CoverageScores(courseText, reference.value, oracle);
      var relevance :- RelevanceScores(courseText, reference.value, oracle);
      Success(ComputeFinalScore(structural, Some(coverage), Some(relevance.0), redundancy, relevance.1))
    else Success(ComputeFinalScore(structural, None, None, 0.0, 0.0))
  }

  /** evaluate_course as a function. */
  function Evaluate(courseText: string, reference: Option<string>, overrides: Option<Table>, oracle: Oracle)
    : Result<Evaluation, Fault>
  {
    var report :- ReportOf(courseText, reference, oracle);
    var advice :- AdviceFor(AsFields(report), ResolveThresholds(overrides), Present(reference));
    Success(Evaluation(report, advice))
  }

  /**
   * The scoring part of evaluate_course: the reference metrics (compute_coverage_scores
   * and compute_relevance_scores) run only for a present reference.
   */
  method ComputeReport(courseText: string, reference: Option<string>, oracle: Oracle)
    returns (r: Result<Report, Fault>)
    ensures r == ReportOf(courseText, reference, oracle)
  {
    var structural := ComputeStructuralScores(courseText, reference, oracle);
    if reference.Some? && |Strip(reference.value)| > 0 {
      var coverage, redundancy := ComputeCoverageScores(courseText, reference.value, oracle);
      var relevance :- ComputeRelevanceScores(courseText, reference.value, oracle);
      r := Success(ComputeFinalScore(structural, Some(coverage), Some(relevance.0), redundancy, relevance.1));
    } else {
      r := Success(ComputeFinalScore(structural, None, None, 0.0, 0.0));
    }
  }

  /** evaluate_course: resolves the thresholds, scores the course and adds the advice. */
  method EvaluateCourse(courseText: string, reference: Option<string>, overrides: Option<Table>, oracle: Oracle)
    returns (r: Result<Evaluation, Fault>)
    ensures r == Evaluate(courseText, reference, overrides, oracle)
  {
    var thresholds := ResolveThresholds(overrides);
    var report :- ComputeReport(courseText, reference, oracle);
    var hasReference := reference.Some? && |Strip(reference.value)| > 0;
    var advice :- GenerateAdvice(AsFields(report), thresholds, hasReference);
    r := Success(Evaluation(report, advice));
  }

  /** The values the rules compare are never null in a result dict. */
  lemma FieldsComparable(r: Report)
    ensures forall k :: k in RuleKeys && k != "sequence_coverage" && k in AsFields(r) ==> AsFields(r)[k].Some?
  {
  }

  /**
   * Scoring fails exactly when a present reference has no topics while the course has
   * some, and the failure is the empty reference topic list.
   */
  lemma ReportFailure(courseText: string, reference: Option<string>, oracle: Oracle)
    ensures ReportOf(courseText, reference, oracle).Failure? <==>
      Present(reference) && |Coverage.CourseTopics(Parse(courseText))| > 0 && |ReferenceTopics(reference.value)| == 0
    ensures ReportOf(courseText, reference, oracle).Failure? ==>
      ReportOf(courseText, reference, oracle).error == EmptyReferenceTopics
  {
    if Present(reference) {
      RelevanceScoresShape(courseText, reference.value, oracle);
    }
  }

  /**
   * Evaluation fails exactly when a present reference has no topics while the course
   * has some (the extra-topics penalty cannot embed an empty list), given thresholds
   * that are all present and non-null.
   */
  lemma EvaluateFailure(courseText: string, reference: Option<string>, overrides: Option<Table>, oracle: Oracle)
    requires Usable(ResolveThresholds(overrides))
    ensures Evaluate(courseText, reference, overrides, oracle).Failure? <==>
      Present(reference) && |Coverage.CourseTopics(Parse(courseText))| > 0 && |ReferenceTopics(reference.value)| == 0
    ensures Evaluate(courseText, reference, overrides, oracle).Failure? ==>
      Evaluate(courseText, reference, overrides, oracle).error == EmptyReferenceTopics
  {
    var report := ReportOf(courseText, reference, oracle);
    ReportFailure(courseText, reference, oracle);
    if report.Success? {
      FieldsComparable(report.value);
      AdviceTotal(AsFields(report.value), ResolveThresholds(overrides), Present(reference));
    }
  }

  /**
   * Without a present reference the evaluation succeeds with a topic flow of 0, null
   * reference-derived scores, the rounded structural score as final score, and no
   * topic-flow or coverage advice.
   */
  lemma EvaluateWithoutReference(courseText: string, reference: Option<string>, overrides: Option<Table>, oracle: Oracle)
    requires !Present(reference) && Usable(ResolveThresholds(overrides))
    ensures Evaluate(courseText, reference, overrides, oracle).Success?
    ensures var e := Evaluate(courseText, reference, overrides, oracle).value;
      && e.report.topicFlow == 0.0
      && e.report.sequenceCoverage.None? && e.report.graphCoverage.None? && e.report.relevance.None?
      && e.report.coverageScore.None? && e.report.relevanceScore.None?
      && e.report.finalScore == Round3(e.report.structuralScore)
      && FlowDiffers !in e.advice && AddReference !in e.advice && LowCoverage !in e.advice
  {
    EvaluateFailure(courseText, reference, overrides, oracle);
    NoFlowWithoutReference(courseText, reference, oracle);
    var fields := AsFields(ReportOf(courseText, reference, oracle).value);
    var thresholds := ResolveThresholds(overrides);
    FiredMembers(fields, thresholds, false, FlowDiffers);
    FiredMembers(fields, thresholds, false, AddReference);
    FiredMembers(fields, thresholds, false, LowCoverage);
    AdviceRules(fields, thresholds, false, FlowDiffers);
    AdviceRules(fields, thresholds, false, AddReference);
    AdviceRules(fields, thresholds, false, LowCoverage);
  }

  /** Every score of a successful report is in range. */
  lemma ReportBounds(courseText: string, reference: Option<string>, oracle: Oracle)
    requires oracle.Sound() && MetricsIndependent.UnitInner(oracle.inner)
    requires ReportOf(courseText, reference, oracle).Success?
    ensures Bounded(ReportOf(courseText, reference, oracle).value)
  {
    var structural := StructuralScores(courseText, reference, oracle);
    StructuralScoresBounds(courseText, reference, oracle);
    if Present(reference) {
      var (coverage, redundancy) := CoverageScores(courseText, reference.value, oracle);
      var relevance := RelevanceScores(courseText, reference.value, oracle).value;
      CoverageScoresBounds(courseText, reference.value, oracle);
      RelevanceScoresShape(courseText, reference.value, oracle);
      ScoresBounded(structural, Some(coverage), Some(relevance.0), redundancy, relevance.1);
    } else {
      ScoresBounded(structural, None, None, 0.0, 0.0);
    }
  }
}
