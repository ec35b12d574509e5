/**
 * The reference-free metrics of metrics/metrics_independent.py: the semantic coherence
 * of the topics inside each section, and the balance of the section sizes.
 */
module MetricsIndependent {
  import opened Common
  import opened Parsing

  // ---------------------------------------------------------------------------
  // revised_semantic_coherence
  // ---------------------------------------------------------------------------

  /** Row i of `np.inner(embeddings, embeddings)`: the inner products of topic i with every topic. */
  function GramRows(topics: seq<string>, inner: (string, string) -> real): (rows: seq<seq<real>>)
    ensures |rows| == |topics|
    ensures forall i :: 0 <= i < |rows| ==> |rows[i]| == |topics|
  {
    seq(|topics|, i requires 0 <= i < |topics| =>
      seq(|topics|, j requires 0 <= j < |topics| => inner(topics[i], topics[j])))
  }

  /** The n * n entries of the inner-product matrix of a section, row after row. */
  function Gram(topics: seq<string>, inner: (string, string) -> real): seq<real>
  {
    Flatten(GramRows(topics, inner))
  }

  /** Every entry of the matrix is the inner product of two topics of the section, and there is one. */
  lemma GramEntries(topics: seq<string>, inner: (string, string) -> real)
    requires |topics| > 0
    ensures |Gram(topics, inner)| > 0
    ensures forall x :: x in Gram(topics, inner) ==>
      exists i, j :: 0 <= i < |topics| && 0 <= j < |topics| && x == inner(topics[i], topics[j])
  {
    var rows := GramRows(topics, inner);
    FlattenMembership(rows, rows[0][0]);
    forall x | x in Gram(topics, inner)
      ensures exists i, j :: 0 <= i < |topics| && 0 <= j < |topics| && x == inner(topics[i], topics[j])
    {
      FlattenMembership(rows, x);
      var i :| 0 <= i < |rows| && x in rows[i];
      var j :| 0 <= j < |topics| && rows[i][j] == x;
    }
  }

  /** `mean_sim * (1 - min(std_sim, 0.5))` for a section of at least two topics. */
  function SectionCoherence(topics: seq<string>, oracle: Oracle): real
    requires |topics| >= 2
  {
    var matrix := Gram(topics, oracle.inner);
    GramEntries(topics, oracle.inner);
    var meanSim := Mean(matrix);
    var stdSim := oracle.sqrt(Variance(matrix));
    meanSim * (1.0 - Min(stdSim, 0.5))
  }

  /** The scores of the sections with at least two topics, in section order. */
  function SectionScores(sections: seq<seq<string>>, oracle: Oracle): seq<real>
  {
    if |sections| == 0 then []
    else
      var init := SectionScores(sections[..|sections| - 1], oracle);
      var topics := sections[|sections| - 1];
      if |topics| < 2 then init else init + [SectionCoherence(topics, oracle)]
  }

  /** revised_semantic_coherence(course_structure) as a function. */
  function Coherence(o: Outline, oracle: Oracle): real
    requires o.Valid()
  {
    var scores := SectionScores(o.Values(), oracle);
    if |scores| == 0 then 0.0 else Max(0.0, Mean(scores))
  }

  /** revised_semantic_coherence: one score per section of two or more topics, then their mean. */
  method RevisedSemanticCoherence(o: Outline, oracle: Oracle) returns (score: real)
    requires o.Valid()
    ensures score == Coherence(o, oracle)
  {
    var sections := o.Values();
    var scores: seq<real> := [];
    for i := 0 to |sections|
      invariant scores == SectionScores(sections[..i], oracle)
    {
      assert sections[..i + 1][..i] == sections[..i];
      var topics := sections[i];
      if |topics| < 2 {
        continue;
      }
      scores := scores + [SectionCoherence(topics, oracle)];
    }
    assert sections[..|sections|] == sections;
    score := if |scores| == 0 then 0.0 else Max(0.0, Mean(scores));
  }

  /** Embeddings of unit length: every inner product lies in [-1, 1]. */
  ghost predicate UnitInner(inner: (string, string) -> real)
  {
    forall a, b :: -1.0 <= inner(a, b) <= 1.0
  }

  /** With inner products of at most 1, a section scores at most 1. */
  lemma SectionCoherenceAtMostOne(topics: seq<string>, oracle: Oracle)
    requires |topics| >= 2 && oracle.Sound() && UnitInner(oracle.inner)
    ensures SectionCoherence(topics, oracle) <= 1.0
  {
    var matrix := Gram(topics, oracle.inner);
    GramEntries(topics, oracle.inner);
    forall k | 0 <= k < |matrix|
      ensures matrix[k] <= 1.0
    {
      assert matrix[k] in matrix;
    }
    MeanAtMost(matrix, 1.0);
    VarianceNonneg(matrix);
    var meanSim := Mean(matrix);
    var factor := 1.0 - Min(oracle.sqrt(Variance(matrix)), 0.5);
    assert 0.5 <= factor <= 1.0;
    if meanSim >= 0.0 {
      assert 0.0 <= meanSim * (1.0 - factor);
      assert meanSim * factor <= meanSim;
    } else {
      assert 0.0 <= -meanSim * factor;
    }
  }

  /**
   * A section whose topics all have the same inner product c with each other (such as a
   * section repeating one topic, with c = 1) has standard deviation 0 and scores c.
   */
  lemma UniformSection(topics: seq<string>, oracle: Oracle, c: real)
    requires |topics| >= 2 && oracle.Sound()
    requires forall i, j :: 0 <= i < |topics| && 0 <= j < |topics| ==> oracle.inner(topics[i], topics[j]) == c
    ensures SectionCoherence(topics, oracle) == c
  {
    var matrix := Gram(topics, oracle.inner);
    GramEntries(topics, oracle.inner);
    forall k | 0 <= k < |matrix|
      ensures matrix[k] == c
    {
      assert matrix[k] in matrix;
    }
    ConstantMoments(matrix, c);
  }

  /** The indices below m of the sections with two or more topics. */
  ghost function Qualifying(sections: seq<seq<string>>, m: nat): set<nat>
    requires m <= |sections|
  {
    set k: nat | k < m && |sections[k]| >= 2
  }

  lemma {:induction false} PrefixScoresCount(sections: seq<seq<string>>, m: nat, oracle: Oracle)
    requires m <= |sections|
    ensures |SectionScores(sections[..m], oracle)| == |Qualifying(sections, m)|
  {
    if m > 0 {
      PrefixScoresCount(sections, m - 1, oracle);
      assert sections[..m][..m - 1] == sections[..m - 1];
      if |sections[m - 1]| >= 2 {
        assert Qualifying(sections, m) == Qualifying(sections, m - 1) + {m - 1};
      } else {
        assert Qualifying(sections, m) == Qualifying(sections, m - 1);
      }
    }
  }

  /** Each section of two or more topics contributes one score, and no other section does. */
  lemma SectionScoresCount(sections: seq<seq<string>>, oracle: Oracle)
    ensures |SectionScores(sections, oracle)| == |Qualifying(sections, |sections|)|
  {
    PrefixScoresCount(sections, |sections|, oracle);
    assert sections[..|sections|] == sections;
  }

  /** Under unit inner products every section score is at most 1. */
  lemma {:induction false} SectionScoresAtMostOne(sections: seq<seq<string>>, oracle: Oracle)
    requires oracle.Sound() && UnitInner(oracle.inner)
    ensures forall k :: 0 <= k < |SectionScores(sections, oracle)| ==> SectionScores(sections, oracle)[k] <= 1.0
  {
    if |sections| > 0 {
      var init := sections[..|sections| - 1];
      SectionScoresAtMostOne(init, oracle);
      var topics := sections[|sections| - 1];
      if |topics| >= 2 {
        SectionCoherenceAtMostOne(topics, oracle);
      }
    }
  }

  /**
   * The coherence is in [0, 1] under unit inner products, and it is 0 when no section
   * has two or more topics.
   */
  lemma CoherenceBounds(o: Outline, oracle: Oracle)
    requires o.Valid() && oracle.Sound() && UnitInner(oracle.inner)
    ensures 0.0 <= Coherence(o, oracle) <= 1.0
    ensures (forall k :: 0 <= k < |o.Values()| ==> |o.Values()[k]| < 2) ==> Coherence(o, oracle) == 0.0
  {
    var scores := SectionScores(o.Values(), oracle);
    SectionScoresAtMostOne(o.Values(), oracle);
    SectionScoresCount(o.Values(), oracle);
    if |scores| > 0 {
      MeanAtMost(scores, 1.0);
    }
    if forall k :: 0 <= k < |o.Values()| ==> |o.Values()[k]| < 2 {
      assert Qualifying(o.Values(), |o.Values()|) == {};
    }
  }

  // ---------------------------------------------------------------------------
  // structural_balance
  // ---------------------------------------------------------------------------

  /** `np.array([len(topics) for topics in course_structure.values()])`. */
  function Counts(sections: seq<seq<string>>): (counts: seq<real>)
    ensures |counts| == |sections|
    ensures forall k :: 0 <= k < |counts| ==> counts[k] == |sections[k]| as real
  {
    seq(|sections|, k requires 0 <= k < |sections| => |sections[k]| as real)
  }

  /** `np.max(counts)` of a non-empty sequence. */
  function Largest(xs: seq<real>): (m: real)
    requires |xs| > 0
    ensures m in xs && forall k :: 0 <= k < |xs| ==> xs[k] <= m
  {
    if |xs| == 1 then xs[0]
    else Max(Largest(xs[..|xs| - 1]), xs[|xs| - 1])
  }

  function Abs(x: real): real { if x < 0.0 then -x else x }

  /** `np.abs(np.diff(xs))`: the size changes between neighbouring sections. */
  function Jumps(xs: seq<real>): (d: seq<real>)
    ensures |d| == |xs| - 1 || (|xs| == 0 && |d| == 0)
    ensures forall k :: 0 <= k < |d| ==> d[k] == Abs(xs[k + 1] - xs[k])
  {
    if |xs| == 0 then [] else seq(|xs| - 1, k requires 0 <= k < |xs| - 1 => Abs(xs[k + 1] - xs[k]))
  }

  /** `np.max(np.abs(np.diff(counts)))`: the largest change between neighbouring sections. */
  function MaxJump(xs: seq<real>): real
    requires |xs| >= 2
  {
    Largest(Jumps(xs))
  }

  /** structural_balance(course_structure) as a function. */
  function Balance(o: Outline, sqrt: real -> real): (r: real)
    requires o.Valid()
    ensures 0.0 <= r
    ensures |o.Values()| < 2 ==> r == 1.0
  {
    BalanceOf(Counts(o.Values()), sqrt)
  }

  /**
   * The balance of the section sizes: 1 for fewer than two sections, otherwise the score
   * of their standard deviation, mean, largest jump and largest size. When every section
   * is empty the mean and the largest size are both 0, numpy's 0 / 0 is nan and
   * `max(0, nan)` is 0.
   */
  function BalanceOf(counts: seq<real>, sqrt: real -> real): (r: real)
    ensures 0.0 <= r
    ensures |counts| < 2 ==> r == 1.0
    ensures |counts| >= 2 && Mean(counts) == 0.0 ==> r == 0.0
  {
    if |counts| < 2 then 1.0
    else
      var mean := Mean(counts);
      var largest := Largest(counts);
      if mean == 0.0 || largest == 0.0 then 0.0
      else BalanceScore(sqrt(Variance(counts)), mean, MaxJump(counts), largest)
  }

  /**
   * `max(0, 1 - (std / mean + jump / largest) / 2 - 0.1 * (jump > mean * 0.5))`.
   */
  function BalanceScore(std: real, mean: real, jump: real, largest: real): real
    requires mean != 0.0 && largest != 0.0
  {
    var raw := 1.0 - (std / mean + jump / largest) / 2.0;
    Max(0.0, raw - (if jump > mean * 0.5 then 0.1 else 0.0))
  }

  /** The score is in [0, 1], and at most 0.9 when the jump exceeds half the mean. */
  lemma BalanceScoreBounds(std: real, mean: real, jump: real, largest: real)
    requires 0.0 <= std && 0.0 < mean && 0.0 <= jump && 0.0 < largest
    ensures 0.0 <= BalanceScore(std, mean, jump, largest) <= 1.0
    ensures jump > mean * 0.5 ==> BalanceScore(std, mean, jump, largest) <= 0.9
  {
    assert 0.0 <= std / mean;
    assert 0.0 <= jump / largest;
  }

  /** Section sizes are non-negative, so the mean is 0 exactly when every section is empty. */
  lemma MeanOfSizes(counts: seq<real>)
    requires |counts| > 0 && forall k :: 0 <= k < |counts| ==> 0.0 <= counts[k]
    ensures 0.0 <= Mean(counts)
    ensures Mean(counts) == 0.0 <==> forall k :: 0 <= k < |counts| ==> counts[k] == 0.0
  {
    MeanAtLeast(counts, 0.0);
    if exists k :: 0 <= k < |counts| && counts[k] != 0.0 {
      var k :| 0 <= k < |counts| && counts[k] != 0.0;
      SumSplit(counts, k);
      assert 0.0 < Sum(counts) / |counts| as real;
    } else {
      MeanAtMost(counts, 0.0);
    }
  }

  /** A sum of non-negative numbers is at least any one of them. */
  lemma {:induction false} SumSplit(xs: seq<real>, k: nat)
    requires k < |xs| && forall i :: 0 <= i < |xs| ==> 0.0 <= xs[i]
    ensures xs[k] <= Sum(xs)
  {
    var n := |xs|;
    SumAtLeast(xs[..n - 1], 0.0);
    if k < n - 1 {
      SumSplit(xs[..n - 1], k);
    }
  }

  /** The balance is a number in [0, 1], and at most 0.9 after a jump of more than half the mean. */
  lemma BalanceBounds(counts: seq<real>, sqrt: real -> real)
    requires IsSqrt(sqrt) && forall k :: 0 <= k < |counts| ==> 0.0 <= counts[k]
    ensures 0.0 <= BalanceOf(counts, sqrt) <= 1.0
    ensures |counts| >= 2 && MaxJump(counts) > Mean(counts) * 0.5 ==> BalanceOf(counts, sqrt) <= 0.9
  {
    if |counts| >= 2 {
      var mean := Mean(counts);
      var largest := Largest(counts);
      MeanOfSizes(counts);
      if mean != 0.0 && largest != 0.0 {
        VarianceNonneg(counts);
        var jump := MaxJump(counts);
        assert 0.0 <= Jumps(counts)[0] <= jump;
        assert 0.0 <= counts[0] <= largest;
        BalanceScoreBounds(sqrt(Variance(counts)), mean, jump, largest);
        assert BalanceOf(counts, sqrt) == BalanceScore(sqrt(Variance(counts)), mean, jump, largest);
      }
    }
  }

  /** Equal positive sizes have no spread and no jump, so they score 1. */
  lemma ConstantBalance(counts: seq<real>, c: real, sqrt: real -> real)
    requires IsSqrt(sqrt) && |counts| >= 2 && 0.0 < c
    requires forall k :: 0 <= k < |counts| ==> counts[k] == c
    ensures BalanceOf(counts, sqrt) == 1.0
  {
    ConstantMoments(counts, c);
    var jumps := Jumps(counts);
    assert forall k :: 0 <= k < |jumps| ==> jumps[k] == 0.0;
    assert MaxJump(counts) == 0.0;
    assert Largest(counts) == c;
    assert sqrt(Variance(counts)) == 0.0;
    assert 0.0 / c == 0.0;
  }

  /** Fewer than two sections are perfectly balanced, as are equal non-empty sections. */
  lemma BalancePerfect(sections: seq<seq<string>>, sqrt: real -> real)
    requires IsSqrt(sqrt)
    requires |sections| < 2 || (|sections[0]| > 0 && forall k :: 0 <= k < |sections| ==> |sections[k]| == |sections[0]|)
    ensures BalanceOf(Counts(sections), sqrt) == 1.0
  {
    if |sections| >= 2 {
      ConstantBalance(Counts(sections), |sections[0]| as real, sqrt);
    }
  }

  /** Sections that are all empty score 0. */
  lemma AllEmptyUnbalanced(sections: seq<seq<string>>, sqrt: real -> real)
    requires |sections| >= 2 && forall k :: 0 <= k < |sections| ==> |sections[k]| == 0
    ensures BalanceOf(Counts(sections), sqrt) == 0.0
  {
    MeanOfSizes(Counts(sections));
  }
}
