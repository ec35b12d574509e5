/**
 * redundancy_score of metrics/metrics_reference.py: every unordered pair of topics of
 * the flattened outline is examined once; a case-insensitively equal pair is a lexical
 * duplicate and scores 0.9, otherwise a pair more similar than 0.8 scores a penalty
 * growing with its similarity. The mean score is scaled by a correction factor.
 */
module Redundancy {
  import opened Common
  import opened Parsing

  // ---------------------------------------------------------------------------
  // Lower-casing
  // ---------------------------------------------------------------------------

  /**
   * The lower-case form of a character as str.lower() gives it for ASCII, Latin-1 and
   * the basic Cyrillic alphabet; other characters are kept as they are.
   */
  function LowerChar(c: char): char
  {
    if 'A' <= c <= 'Z' then (c as int + 32) as char
    else if '\U{C0}' <= c <= '\U{DE}' && c != '\U{D7}' then (c as int + 32) as char
    else if '\U{410}' <= c <= '\U{42F}' then (c as int + 32) as char
    else if '\U{400}' <= c <= '\U{40F}' then (c as int + 80) as char
    else c
  }

  /** str.lower() on the characters LowerChar covers. */
  function Lower(s: string): (r: string)
    ensures |r| == |s| && forall k :: 0 <= k < |s| ==> r[k] == LowerChar(s[k])
  {
    seq(|s|, k requires 0 <= k < |s| => LowerChar(s[k]))
  }

  /** `a.lower() == b.lower()`. */
  predicate LexicalDuplicate(a: string, b: string)
  {
    Lower(a) == Lower(b)
  }

  // ---------------------------------------------------------------------------
  // The pair loop, as a function
  // ---------------------------------------------------------------------------

  /** `(sim - 0.8) ** 2`, plus `(sim - 0.8) ** 3` above 0.95. */
  function Penalty(s: real): (p: real)
  {
    var d := s - 0.8;
    d * d + (if s > 0.95 then d * d * d else 0.0)
  }

  /** The recorded scores and the number of lexical duplicates after some pairs. */
  datatype Tally = Tally(scores: seq<real>, lex: nat)

  /** One pair (a, b) with similarity s. */
  function Visit(t: Tally, a: string, b: string, s: real): Tally
  {
    if LexicalDuplicate(a, b) then Tally(t.scores + [0.9], t.lex + 1)
    else if s > 0.8 then Tally(t.scores + [Penalty(s)], t.lex)
    else t
  }

  /** The tally after all pairs (i, k) with i < |topics| and every pair (row, k) with k < col. */
  function Pairs(topics: seq<string>, sim: (string, string) -> real, row: nat, col: nat): Tally
    requires row <= |topics| && col <= |topics|
    decreases row, col
  {
    if col <= row + 1 then
      if row == 0 then Tally([], 0) else Pairs(topics, sim, row - 1, |topics|)
    else
      Visit(Pairs(topics, sim, row, col - 1), topics[row], topics[col - 1], sim(topics[row], topics[col - 1]))
  }

  /** The tally after every pair, in the order of combinations(range(n), 2). */
  function AllPairs(topics: seq<string>, sim: (string, string) -> real): Tally
  {
    if |topics| == 0 then Tally([], 0) else Pairs(topics, sim, |topics| - 1, |topics|)
  }

  /** redundancy_score(course_structure) as a function of the flattened topics. */
  function Redundancy(topics: seq<string>, sim: (string, string) -> real, pow: real -> real): real
  {
    var n := |topics|;
    if n < 2 then 0.0
    else
      var t := AllPairs(topics, sim);
      var base := if |t.scores| == 0 then 0.0 else Mean(t.scores);
      var correction := Min(1.0, pow(|t.scores| as real / n as real) + t.lex as real * 0.05);
      Min(1.0, base * correction)
  }

  /** redundancy_score: the pair loop (as nested loops over i < j), then the scaled mean. */
  method RedundancyScore(o: Outline, sim: (string, string) -> real, pow: real -> real) returns (score: real)
    requires o.Valid()
    ensures score == Redundancy(Flatten(o.Values()), sim, pow)
  {
    var topics := Flatten(o.Values());
    var n := |topics|;
    if n < 2 {
      return 0.0;
    }
    var scores: seq<real> := [];
    var lexDuplicates: nat := 0;
    for i := 0 to n
      invariant Tally(scores, lexDuplicates) == Pairs(topics, sim, i, i)
    {
      for j := i + 1 to n
        invariant Tally(scores, lexDuplicates) == Pairs(topics, sim, i, j)
      {
        var s := sim(topics[i], topics[j]);
        assert Pairs(topics, sim, i, j + 1) == Visit(Pairs(topics, sim, i, j), topics[i], topics[j], s);
        if Lower(topics[i]) == Lower(topics[j]) {
          lexDuplicates := lexDuplicates + 1;
          scores := scores + [0.9];
        } else if s > 0.8 {
          var penalty := (s - 0.8) * (s - 0.8);
          if s > 0.95 {
            penalty := penalty + (s - 0.8) * (s - 0.8) * (s - 0.8);
          }
          assert penalty == Penalty(s);
          scores := scores + [penalty];
        }
      }
      if i + 1 < n {
        assert Pairs(topics, sim, i + 1, i + 1) == Pairs(topics, sim, i, n);
      }
    }
    assert Tally(scores, lexDuplicates) == AllPairs(topics, sim);
    var base := if |scores| == 0 then 0.0 else Mean(scores);
    var correction := Min(1.0, pow(|scores| as real / n as real) + lexDuplicates as real * 0.05);
    score := Min(1.0, base * correction);
  }

  // ---------------------------------------------------------------------------
  // Properties
  // ---------------------------------------------------------------------------

  /** A pair that the loop records: a lexical duplicate, or more similar than 0.8. */
  ghost predicate Flagged(topics: seq<string>, sim: (string, string) -> real, i: nat, j: nat)
    requires i < |topics| && j < |topics|
  {
    LexicalDuplicate(topics[i], topics[j]) || sim(topics[i], topics[j]) > 0.8
  }

  /** The pair (i, j) is visited before the loop reaches the pair (row, col). */
  ghost predicate Covered(n: nat, row: nat, col: nat, i: nat, j: nat)
  {
    i < j < n && (i < row || (i == row && j < col))
  }

  /** Positive powers of a positive difference, isolated so that the solver meets them on their own. */
  lemma SquarePositive(d: real)
    requires 0.0 < d
    ensures 0.0 < d * d
  {
  }

  lemma CubePositive(d: real)
    requires 0.0 < d
    ensures 0.0 < d * d * d
  {
  }

  /** A pair more similar than 0.8 is penalised by a positive amount. */
  lemma PenaltyPositive(s: real)
    requires s > 0.8
    ensures Penalty(s) > 0.0
  {
    SquarePositive(s - 0.8);
    CubePositive(s - 0.8);
  }

  /**
   * Every recorded score is positive, there are no more lexical duplicates than scores,
   * nothing is recorded exactly when no visited pair is flagged, and no lexical duplicate
   * is counted exactly when no visited pair is one.
   */
  lemma {:induction false} PairsFacts(topics: seq<string>, sim: (string, string) -> real, row: nat, col: nat)
    requires row <= |topics| && col <= |topics|
    ensures var t := Pairs(topics, sim, row, col);
      && (forall k :: 0 <= k < |t.scores| ==> 0.0 < t.scores[k])
      && t.lex <= |t.scores|
      && (|t.scores| == 0 <==>
          forall i: nat, j: nat :: Covered(|topics|, row, col, i, j) ==> !Flagged(topics, sim, i, j))
      && (t.lex == 0 <==>
          forall i: nat, j: nat :: Covered(|topics|, row, col, i, j) ==> !LexicalDuplicate(topics[i], topics[j]))
    decreases row, col
  {
    var n := |topics|;
    if col <= row + 1 {
      if row > 0 {
        PairsFacts(topics, sim, row - 1, n);
        assert forall i: nat, j: nat :: Covered(n, row, col, i, j) <==> Covered(n, row - 1, n, i, j);
      }
    } else {
      PairsFacts(topics, sim, row, col - 1);
      var before := Pairs(topics, sim, row, col - 1);
      var s := sim(topics[row], topics[col - 1]);
      assert forall i: nat, j: nat :: Covered(n, row, col, i, j) <==>
        Covered(n, row, col - 1, i, j) || (i == row && j == col - 1);
      if LexicalDuplicate(topics[row], topics[col - 1]) {
        assert Flagged(topics, sim, row, col - 1);
        assert Pairs(topics, sim, row, col) == Tally(before.scores + [0.9], before.lex + 1);
      } else if s > 0.8 {
        PenaltyPositive(s);
        assert Flagged(topics, sim, row, col - 1);
        assert Pairs(topics, sim, row, col) == Tally(before.scores + [Penalty(s)], before.lex);
      } else {
        assert !Flagged(topics, sim, row, col - 1);
        assert Pairs(topics, sim, row, col) == before;
      }
    }
  }

  /** The loop visits the n(n-1)/2 pairs once, so it records at most that many scores. */
  lemma {:induction false} PairsCount(topics: seq<string>, sim: (string, string) -> real, row: nat, col: nat)
    requires row <= |topics| && col <= |topics|
    ensures 2 * |Pairs(topics, sim, row, col).scores|
      <= row * (2 * |topics| - row - 1) + 2 * (if col > row + 1 then col - row - 1 else 0)
    decreases row, col
  {
    var n := |topics|;
    if col <= row + 1 {
      if row > 0 {
        PairsCount(topics, sim, row - 1, n);
        assert (row - 1) * (2 * n - row) + 2 * (n - row) == row * (2 * n - row - 1);
      }
    } else {
      PairsCount(topics, sim, row, col - 1);
    }
  }

  /** All pairs of topics: at most n(n-1)/2 scores, and lexical duplicates among them. */
  lemma AllPairsFacts(topics: seq<string>, sim: (string, string) -> real)
    requires |topics| > 0
    ensures var t := AllPairs(topics, sim);
      && 2 * |t.scores| <= |topics| * (|topics| - 1)
      && (forall k :: 0 <= k < |t.scores| ==> 0.0 < t.scores[k])
      && t.lex <= |t.scores|
      && (|t.scores| == 0 <==> forall i: nat, j: nat :: i < j < |topics| ==> !Flagged(topics, sim, i, j))
      && (t.lex == 0 <==>
          forall i: nat, j: nat :: i < j < |topics| ==> !LexicalDuplicate(topics[i], topics[j]))
  {
    var n := |topics|;
    PairsFacts(topics, sim, n - 1, n);
    PairsCount(topics, sim, n - 1, n);
    assert forall i: nat, j: nat {:trigger Covered(n, n - 1, n, i, j)} :: Covered(n, n - 1, n, i, j) <==> i < j < n;
  }

  /**
   * The redundancy is a number in [0, 1], and it is positive exactly when some pair of
   * topics is a case-insensitive duplicate or more similar than 0.8.
   */
  lemma RedundancyPositiveIff(topics: seq<string>, sim: (string, string) -> real, pow: real -> real)
    requires IsFractionalPower(pow)
    ensures 0.0 <= Redundancy(topics, sim, pow) <= 1.0
    ensures Redundancy(topics, sim, pow) > 0.0 <==>
      exists i: nat, j: nat :: i < j < |topics| && Flagged(topics, sim, i, j)
  {
    var n := |topics|;
    if n >= 2 {
      var t := AllPairs(topics, sim);
      AllPairsFacts(topics, sim);
      SumPositive(t.scores);
      var base := if |t.scores| == 0 then 0.0 else Mean(t.scores);
      var ratio := |t.scores| as real / n as real;
      var correction := Min(1.0, pow(ratio) + t.lex as real * 0.05);
      assert 0.0 <= base;
      assert 0.0 <= pow(ratio);
      assert 0.0 <= base * correction;
      if |t.scores| > 0 {
        assert 0.0 < base;
        assert 0.0 < ratio;
        assert 0.0 < base * correction;
      } else {
        assert base * correction == 0.0;
      }
    }
  }

  /** A case-insensitive repetition of a topic always makes the redundancy positive. */
  lemma RepeatedTopicRedundant(topics: seq<string>, sim: (string, string) -> real, pow: real -> real, i: nat, j: nat)
    requires IsFractionalPower(pow)
    requires i < j < |topics| && Lower(topics[i]) == Lower(topics[j])
    ensures Redundancy(topics, sim, pow) > 0.0
  {
    RedundancyPositiveIff(topics, sim, pow);
    assert Flagged(topics, sim, i, j);
  }
}
