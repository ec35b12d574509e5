/**
 * The threshold-count ratios of metrics/metrics_reference.py: sequence_based_coverage,
 * relevance_score and extra_topics_penalty. Each ranges over the DISTINCT course topics
 * and looks at each topic's best similarity to the reference topic list.
 */
module Coverage {
  import opened Common
  import opened Parsing

  /** `set(topic for topics in course_structure.values() for topic in topics)`. */
  function CourseTopics(o: Outline): set<string>
    requires o.Valid()
  {
    Elements(Flatten(o.Values()))
  }

  /** One row of `np.max(similarity_matrix, axis=1)`: the best similarity of u to a reference topic. */
  function MaxSimilarity(u: string, refs: seq<string>, sim: (string, string) -> real): (r: real)
    requires |refs| > 0
    ensures forall j :: 0 <= j < |refs| ==> sim(u, refs[j]) <= r
    ensures exists j :: 0 <= j < |refs| && sim(u, refs[j]) == r
  {
    if |refs| == 1 then sim(u, refs[0])
    else
      var n := |refs|;
      var m := MaxSimilarity(u, refs[..n - 1], sim);
      assert forall j :: 0 <= j < n - 1 ==> refs[..n - 1][j] == refs[j];
      Max(m, sim(u, refs[n - 1]))
  }

  /** The topics of U whose best similarity is strictly above the threshold. */
  function Above(topics: set<string>, refs: seq<string>, sim: (string, string) -> real, threshold: real): set<string>
    requires |refs| > 0
  {
    set u | u in topics && MaxSimilarity(u, refs, sim) > threshold
  }

  /** The topics of U whose best similarity is strictly below the threshold. */
  function Below(topics: set<string>, refs: seq<string>, sim: (string, string) -> real, threshold: real): set<string>
    requires |refs| > 0
  {
    set u | u in topics && MaxSimilarity(u, refs, sim) < threshold
  }

  /** `min(1.0, count / denominator)` for a positive denominator. */
  function Share(count: nat, denominator: nat): (r: real)
    requires denominator > 0
    ensures 0.0 <= r <= 1.0
    ensures count <= denominator ==> r == count as real / denominator as real
  {
    Min(1.0, count as real / denominator as real)
  }

  /** sequence_based_coverage with its default threshold 0.8: matched topics over the reference length. */
  function SequenceCoverage(o: Outline, refs: seq<string>, sim: (string, string) -> real): (r: real)
    requires o.Valid()
    ensures 0.0 <= r <= 1.0
    ensures |CourseTopics(o)| == 0 || |refs| == 0 ==> r == 0.0
  {
    var topics := CourseTopics(o);
    if |topics| == 0 || |refs| == 0 then 0.0
    else Share(|Above(topics, refs, sim, 0.8)|, |refs|)
  }

  /** relevance_score with its default threshold 0.7: relevant topics over the distinct course topics. */
  function Relevance(o: Outline, refs: seq<string>, sim: (string, string) -> real): (r: real)
    requires o.Valid()
    ensures 0.0 <= r <= 1.0
    ensures |CourseTopics(o)| == 0 || |refs| == 0 ==> r == 0.0
  {
    var topics := CourseTopics(o);
    if |topics| == 0 || |refs| == 0 then 0.0
    else Share(|Above(topics, refs, sim, 0.7)|, |topics|)
  }

  /**
   * extra_topics_penalty with its default threshold 0.85: topics without a close
   * reference topic over the distinct course topics. Unlike the other two it does not
   * guard an empty reference, whose embedding and similarity matrix cannot be formed.
   */
  function ExtraTopics(o: Outline, refs: seq<string>, sim: (string, string) -> real): (r: Result<real, Fault>)
    requires o.Valid()
    ensures r.Failure? <==> |CourseTopics(o)| > 0 && |refs| == 0
    ensures r.Failure? ==> r.error == EmptyReferenceTopics
    ensures r.Success? ==> 0.0 <= r.value <= 1.0
    ensures |CourseTopics(o)| == 0 ==> r == Success(0.0)
  {
    var topics := CourseTopics(o);
    if |topics| == 0 then Success(0.0)
    else if |refs| == 0 then Failure(EmptyReferenceTopics)
    else Success(Share(|Below(topics, refs, sim, 0.85)|, |topics|))
  }

  /**
   * Relevance is the exact share of relevant distinct topics: the clamp never binds.
   */
  lemma RelevanceShare(o: Outline, refs: seq<string>, sim: (string, string) -> real)
    requires o.Valid()
    ensures |CourseTopics(o)| > 0 && |refs| > 0 ==>
      Relevance(o, refs, sim) == |Above(CourseTopics(o), refs, sim, 0.7)| as real / |CourseTopics(o)| as real
  {
    var topics := CourseTopics(o);
    if |topics| > 0 && |refs| > 0 {
      SubsetCard(Above(topics, refs, sim, 0.7), topics);
    }
  }

  /**
   * Against a non-empty reference, the extra-topics penalty is the exact share of
   * distant topics: the clamp never binds.
   */
  lemma ExtraTopicsShare(o: Outline, refs: seq<string>, sim: (string, string) -> real)
    requires o.Valid()
    ensures |CourseTopics(o)| > 0 && |refs| > 0 ==>
      ExtraTopics(o, refs, sim).value == |Below(CourseTopics(o), refs, sim, 0.85)| as real / |CourseTopics(o)| as real
  {
    var topics := CourseTopics(o);
    if |topics| > 0 && |refs| > 0 {
      SubsetCard(Below(topics, refs, sim, 0.85), topics);
    }
  }

  /**
   * Every distinct topic is relevant (best similarity above 0.7) or extra (below 0.85),
   * those in between being both, so the two ratios add up to at least 1.
   */
  lemma RelevantOrExtra(o: Outline, refs: seq<string>, sim: (string, string) -> real)
    requires o.Valid() && |CourseTopics(o)| > 0 && |refs| > 0
    ensures Relevance(o, refs, sim) + ExtraTopics(o, refs, sim).value >= 1.0
  {
    var topics := CourseTopics(o);
    var above := Above(topics, refs, sim, 0.7);
    var below := Below(topics, refs, sim, 0.85);
    assert topics == above + below;
    assert |topics| <= |above| + |below| by {
      assert |above + below| == |above| + |below| - |above * below|;
    }
    RelevanceShare(o, refs, sim);
    ExtraTopicsShare(o, refs, sim);
    var n := |topics| as real;
    assert |above| as real / n + |below| as real / n == (|above| + |below|) as real / n;
    DivAtLeastOne((|above| + |below|) as real, n);
  }

  /** A stricter threshold never counts more topics. */
  lemma AboveMonotone(topics: set<string>, refs: seq<string>, sim: (string, string) -> real, low: real, high: real)
    requires |refs| > 0 && low <= high
    ensures Above(topics, refs, sim, high) <= Above(topics, refs, sim, low)
    ensures |Above(topics, refs, sim, high)| <= |Above(topics, refs, sim, low)|
  {
    SubsetCard(Above(topics, refs, sim, high), Above(topics, refs, sim, low));
  }
}
