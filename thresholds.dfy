/**
 * The advice thresholds of metrics/thresholds.py. A threshold table is a Python dict
 * from metric name to value; a value may be JSON null (None) when a caller passes one,
 * so values are `Option<real>`.
 */
module Thresholds {
  import opened Common

  type Table = map<string, Option<real>>

  /** The metric names that have a default threshold. */
  const DefaultKeys: set<string> := {
    "semantic_coherence", "structural_balance", "topic_flow", "sequence_coverage",
    "graph_coverage", "redundancy", "relevance", "extra_topics_penalty", "final_score"
  }

  /** DEFAULT_THRESHOLDS. */
  const Defaults: Table := map[
    "semantic_coherence" := Some(0.5),
    "structural_balance" := Some(0.6),
    "topic_flow" := Some(0.3),
    "sequence_coverage" := Some(0.6),
    "graph_coverage" := Some(0.6),
    "redundancy" := Some(0.4),
    "relevance" := Some(0.5),
    "extra_topics_penalty" := Some(0.4),
    "final_score" := Some(0.6)
  ]

  /** Every default threshold is a number strictly between 0 and 1. */
  lemma DefaultsShape()
    ensures Defaults.Keys == DefaultKeys
    ensures forall k :: k in Defaults ==> Defaults[k].Some? && 0.0 < Defaults[k].value < 1.0
  {
  }

  /**
   * resolve_thresholds: a copy of the defaults when no overrides are given, otherwise
   * the merge `{**DEFAULT_THRESHOLDS, **overrides}` in which the overrides win.
   */
  function ResolveThresholds(overrides: Option<Table>): (r: Table)
    ensures overrides.None? ==> r == Defaults
    ensures DefaultKeys <= r.Keys
    ensures overrides.Some? ==> r.Keys == DefaultKeys + overrides.value.Keys
    ensures overrides.Some? ==> forall k :: k in overrides.value ==> r[k] == overrides.value[k]
    ensures forall k :: k in Defaults && (overrides.None? || k !in overrides.value) ==> r[k] == Defaults[k]
  {
    match overrides
    case None => Defaults
    case Some(o) => Defaults + o
  }

  /** Resolving with an empty override dict gives the defaults, as resolving with none does. */
  lemma ResolveEmpty()
    ensures ResolveThresholds(Some(map[])) == ResolveThresholds(None)
  {
    assert Defaults + map[] == Defaults;
  }

  /** Resolving is idempotent: re-resolving a resolved table as overrides changes nothing. */
  lemma ResolveIdempotent(overrides: Option<Table>)
    ensures ResolveThresholds(Some(ResolveThresholds(overrides))) == ResolveThresholds(overrides)
  {
    var r := ResolveThresholds(overrides);
    assert Defaults + r == r;
  }
}
