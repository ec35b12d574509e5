/**
 * topic_flow_score of metrics/metrics_reference.py: how closely the course visits the
 * reference topics in reference order. Course topics are looked up in the reference
 * order, their reference positions are collected, the inversions among those positions
 * are counted, and the score is scaled down by how late the first reference topic
 * appears in the course.
 */
module TopicFlow {
  import opened Common
  import opened Parsing

  // ---------------------------------------------------------------------------
  // The positions of course topics in the reference order
  // ---------------------------------------------------------------------------

  /** `[x for x in all if x in ref]`. */
  function Filter(all: seq<string>, ref: seq<string>): (r: seq<string>)
    ensures |r| <= |all|
    ensures forall x :: x in r <==> x in all && x in ref
  {
    if |all| == 0 then []
    else
      var init := Filter(all[..|all| - 1], ref);
      var x := all[|all| - 1];
      assert forall y :: y in all <==> y in all[..|all| - 1] || y == x;
      if x in ref then init + [x] else init
  }

  /**
   * `{t: i for i, t in enumerate(ref)}`: every reference topic is mapped to the LAST
   * index at which it occurs, since later entries overwrite earlier ones.
   */
  function PositionMap(ref: seq<string>): (m: map<string, nat>)
    ensures m.Keys == Elements(ref)
    ensures forall t :: t in m ==> m[t] < |ref| && ref[m[t]] == t
    ensures forall t :: t in m ==> forall j :: m[t] < j < |ref| ==> ref[j] != t
  {
    if |ref| == 0 then map[]
    else
      var n := |ref|;
      var m := PositionMap(ref[..n - 1]);
      assert Elements(ref) == Elements(ref[..n - 1]) + {ref[n - 1]};
      m[ref[n - 1] := n - 1]
  }

  /** `[ref_positions[t] for t in filtered]`. */
  function Positions(filtered: seq<string>, pos: map<string, nat>): (r: seq<int>)
    requires forall t :: t in filtered ==> t in pos
    ensures |r| == |filtered| && forall k :: 0 <= k < |r| ==> r[k] == pos[filtered[k]]
  {
    seq(|filtered|, k requires 0 <= k < |filtered| => pos[filtered[k]] as int)
  }

  /** Python's `list.index(x)`: the first index holding x. */
  function IndexOf(s: seq<string>, x: string): (k: nat)
    requires x in s
    ensures k < |s| && s[k] == x && forall j :: 0 <= j < k ==> s[j] != x
  {
    if s[0] == x then 0 else 1 + IndexOf(s[1..], x)
  }

  // ---------------------------------------------------------------------------
  // Inversions: the specification of kendall_tau_distance
  // ---------------------------------------------------------------------------

  /** The number of k with i < k < j and s[i] > s[k]: row i of the double loop, up to j. */
  function RowCount(s: seq<int>, i: nat, j: nat): nat
    requires i < |s| && j <= |s|
  {
    if j <= i + 1 then 0 else RowCount(s, i, j - 1) + (if s[i] > s[j - 1] then 1 else 0)
  }

  /** The inversions counted by the rows before row r. */
  function RowsBefore(s: seq<int>, r: nat): nat
    requires r <= |s|
  {
    if r == 0 then 0 else RowsBefore(s, r - 1) + RowCount(s, r - 1, |s|)
  }

  /** The number of pairs i < j with s[i] > s[j]. */
  function Inversions(s: seq<int>): nat
  {
    RowsBefore(s, |s|)
  }

  /** kendall_tau_distance: counts inversions of seq1 with a double loop; seq2 is unused. */
  method KendallTauDistance(seq1: seq<int>, seq2: seq<int>) returns (invCount: nat)
    ensures invCount == Inversions(seq1)
  {
    invCount := 0;
    for i := 0 to |seq1|
      invariant invCount == RowsBefore(seq1, i)
    {
      for j := i + 1 to |seq1|
        invariant invCount == RowsBefore(seq1, i) + RowCount(seq1, i, j)
      {
        if seq1[i] > seq1[j] {
          invCount := invCount + 1;
        }
      }
    }
  }

  lemma {:induction false} RowCountBound(s: seq<int>, i: nat, j: nat)
    requires i < |s| && j <= |s|
    ensures RowCount(s, i, j) <= if j <= i + 1 then 0 else j - i - 1
  {
    if j > i + 1 {
      RowCountBound(s, i, j - 1);
    }
  }

  lemma {:induction false} RowsBeforeBound(s: seq<int>, r: nat)
    requires r <= |s|
    ensures 2 * RowsBefore(s, r) <= r * (2 * |s| - r - 1)
  {
    if r > 0 {
      var n := |s|;
      RowsBeforeBound(s, r - 1);
      RowCountBound(s, r - 1, n);
      assert r * (2 * n - r - 1) == (r - 1) * (2 * n - (r - 1) - 1) + 2 * (n - r);
    }
  }

  /** There are at most n(n-1)/2 inversions. */
  lemma InversionsBound(s: seq<int>)
    ensures 2 * Inversions(s) <= |s| * (|s| - 1)
  {
    RowsBeforeBound(s, |s|);
  }

  predicate NonDecreasing(s: seq<int>)
  {
    forall i, j :: 0 <= i < j < |s| ==> s[i] <= s[j]
  }

  lemma {:induction false} RowCountZero(s: seq<int>, i: nat, j: nat)
    requires i < |s| && j <= |s|
    ensures RowCount(s, i, j) == 0 <==> forall k :: i < k < j ==> s[i] <= s[k]
  {
    if j > i + 1 {
      RowCountZero(s, i, j - 1);
    }
  }

  lemma {:induction false} RowsBeforeZero(s: seq<int>, r: nat)
    requires r <= |s|
    ensures RowsBefore(s, r) == 0 <==> forall i, k :: 0 <= i < r && i < k < |s| ==> s[i] <= s[k]
  {
    if r > 0 {
      RowsBeforeZero(s, r - 1);
      RowCountZero(s, r - 1, |s|);
    }
  }

  /** The count is zero exactly for a non-decreasing sequence. */
  lemma InversionsZeroIffSorted(s: seq<int>)
    ensures Inversions(s) == 0 <==> NonDecreasing(s)
  {
    RowsBeforeZero(s, |s|);
  }

  // ---------------------------------------------------------------------------
  // The score
  // ---------------------------------------------------------------------------

  /** topic_flow_score(course_structure, reference_order) as a function. */
  function TopicFlow(o: Outline, ref: seq<string>): real
    requires o.Valid()
  {
    Flow(Flatten(o.Values()), ref)
  }

  /** The score computed from the flattened course topics `all`. */
  function Flow(all: seq<string>, ref: seq<string>): real
  {
    var filtered := Filter(all, ref);
    if |filtered| == 0 then 0.0
    else
      var indices := Positions(filtered, PositionMap(ref));
      if |indices| == 0 then 0.0
      else Ratio(Inversions(indices), |indices|, IndexOf(all, filtered[0]), |all|)
  }

  /**
   * `max(0, (1 - dist / max_inv) * (1 - penalty))` for n positions, where max_inv is
   * n(n-1)/2 (or 1 when n < 2) and the penalty is first / total.
   */
  function Ratio(dist: nat, n: nat, first: nat, total: nat): real
    requires first < total
  {
    var penalty := first as real / total as real;
    var maxInv := if n > 1 then (n * (n - 1)) as real / 2.0 else 1.0;
    Max(0.0, (1.0 - dist as real / maxInv) * (1.0 - penalty))
  }

  /** topic_flow_score: the comprehensions, then the inversion count, then the ratio. */
  method TopicFlowScore(o: Outline, ref: seq<string>) returns (score: real)
    requires o.Valid()
    ensures score == TopicFlow(o, ref)
    ensures 0.0 <= score <= 1.0
  {
    var all := Flatten(o.Values());
    FlowBounds(all, ref);
    var filtered := Filter(all, ref);
    if |filtered| == 0 {
      return 0.0;
    }
    var indices := Positions(filtered, PositionMap(ref));
    if |indices| == 0 {
      return 0.0;
    }
    var dist := KendallTauDistance(indices, seq(|indices|, k => k));
    score := Ratio(dist, |indices|, IndexOf(all, filtered[0]), |all|);
  }

  /** The course index of the first filtered topic is the first index holding a reference topic. */
  lemma {:induction false} FirstReferenceTopic(all: seq<string>, ref: seq<string>, j: nat)
    requires j < |all| && all[j] in ref
    ensures |Filter(all, ref)| > 0
    ensures IndexOf(all, Filter(all, ref)[0]) <= j
  {
    var n := |all|;
    var init := all[..n - 1];
    var f := Filter(init, ref);
    assert Filter(all, ref) == if all[n - 1] in ref then f + [all[n - 1]] else f;
    if j < n - 1 {
      assert init[j] == all[j];
      FirstReferenceTopic(init, ref, j);
      assert Filter(all, ref)[0] == f[0];
      IndexOfPrefix(all, init, f[0]);
    }
  }

  lemma IndexOfPrefix(all: seq<string>, init: seq<string>, x: string)
    requires |init| <= |all| && init == all[..|init|] && x in init
    ensures IndexOf(all, x) == IndexOf(init, x)
  {
    assert all[IndexOf(init, x)] == x;
  }

  /** Every course topic before index IndexOf(all, filtered[0]) is outside the reference. */
  lemma FirstReferenceTopicIsFirst(all: seq<string>, ref: seq<string>)
    requires |Filter(all, ref)| > 0
    ensures var k := IndexOf(all, Filter(all, ref)[0]);
      all[k] in ref && forall j :: 0 <= j < k ==> all[j] !in ref
  {
    var f := Filter(all, ref);
    assert f[0] in f;
    var k := IndexOf(all, f[0]);
    forall j | 0 <= j < k
      ensures all[j] !in ref
    {
      if all[j] in ref {
        FirstReferenceTopic(all, ref, j);
      }
    }
  }

  lemma RatioBounds(dist: nat, n: nat, first: nat, total: nat)
    requires first < total && 2 * dist <= n * (n - 1)
    ensures 0.0 <= Ratio(dist, n, first, total) <= 1.0
  {
    var m: nat := n * (n - 1);
    var maxInv := if n > 1 then m as real / 2.0 else 1.0;
    if n > 1 {
      assert dist as real <= maxInv;
      assert maxInv > 0.0;
    } else {
      assert m == 0;
    }
    assert 0.0 <= dist as real / maxInv <= 1.0;
    assert 0.0 <= first as real / total as real <= 1.0;
    ProductBounds(1.0 - dist as real / maxInv, 1.0 - first as real / total as real);
  }

  /** No inversions and a reference topic first: the score is 1. */
  lemma RatioPerfect(n: nat, total: nat)
    requires 0 < total
    ensures Ratio(0, n, 0, total) == 1.0
  {
    var maxInv := if n > 1 then (n * (n - 1)) as real / 2.0 else 1.0;
    assert 0.0 / maxInv == 0.0;
    assert 0.0 / total as real == 0.0;
  }

  /** Topic flow is a number in [0, 1]. */
  lemma FlowBounds(all: seq<string>, ref: seq<string>)
    ensures 0.0 <= Flow(all, ref) <= 1.0
  {
    var filtered := Filter(all, ref);
    if |filtered| > 0 {
      var indices := Positions(filtered, PositionMap(ref));
      InversionsBound(indices);
      assert filtered[0] in all;
      RatioBounds(Inversions(indices), |indices|, IndexOf(all, filtered[0]), |all|);
    }
  }

  /** No course topic occurs in the reference (in particular, an empty reference): the score is 0. */
  lemma FlowDisjoint(all: seq<string>, ref: seq<string>)
    requires forall t :: t in all ==> t !in ref
    ensures Flow(all, ref) == 0.0
  {
  }

  /**
   * A course whose first topic is a reference topic and whose reference positions
   * never go backwards scores exactly 1.
   */
  lemma FlowInOrder(all: seq<string>, ref: seq<string>)
    requires |all| > 0 && all[0] in ref
    requires NonDecreasing(Positions(Filter(all, ref), PositionMap(ref)))
    ensures Flow(all, ref) == 1.0
  {
    FirstReferenceTopic(all, ref, 0);
    var filtered := Filter(all, ref);
    var indices := Positions(filtered, PositionMap(ref));
    InversionsZeroIffSorted(indices);
    assert IndexOf(all, filtered[0]) == 0;
    RatioPerfect(|indices|, |all|);
  }
}
