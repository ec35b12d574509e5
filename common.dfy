/**
 * Shared vocabulary of the evaluator: optional values and results, sequence helpers
 * (flattening the sections of an outline, duplicate-free sequences, sums and means of
 * reals) and the numeric oracles that stand in for the embedding model and numpy.
 */
module Common {

  datatype Option<T> = None | Some(value: T)

  /** A result that can fail; usable with `:-`. */
  datatype Result<T, E> = Success(value: T) | Failure(error: E) {
    predicate IsFailure() { Failure? }
    function PropagateFailure<U>(): Result<U, E> requires Failure? { Failure(error) }
    function Extract(): T requires Success? { value }
  }

  /**
   * Why an evaluation step raises: embedding an empty reference topic list, a threshold
   * key that is absent (KeyError), or a comparison with a null value (TypeError).
   */
  datatype Fault = EmptyReferenceTopics | MissingThreshold(key: string) | Incomparable(key: string)

  function Min(a: real, b: real): real { if a <= b then a else b }

  function Max(a: real, b: real): real { if a >= b then a else b }

  /** The elements of every inner sequence, in order: `[t for ts in xss for t in ts]`. */
  function Flatten<T>(xss: seq<seq<T>>): seq<T>
  {
    if |xss| == 0 then [] else Flatten(xss[..|xss| - 1]) + xss[|xss| - 1]
  }

  lemma {:induction false} FlattenMembership<T>(xss: seq<seq<T>>, x: T)
    ensures x in Flatten(xss) <==> exists k :: 0 <= k < |xss| && x in xss[k]
  {
    if |xss| > 0 {
      var init := xss[..|xss| - 1];
      FlattenMembership(init, x);
      if x in Flatten(init) {
        var k :| 0 <= k < |init| && x in init[k];
        assert xss[k] == init[k];
      }
      if exists k :: 0 <= k < |xss| && x in xss[k] {
        var k :| 0 <= k < |xss| && x in xss[k];
        if k < |xss| - 1 {
          assert init[k] == xss[k];
        }
      }
    }
  }

  /** A suffix of s is the same suffix of s without its last element, plus that element. */
  lemma SuffixSnoc<T>(s: seq<T>, k: nat)
    requires k < |s|
    ensures s[k..] == s[..|s| - 1][k..] + [s[|s| - 1]]
  {
  }

  predicate NoDuplicates<T(==)>(s: seq<T>)
  {
    forall i, j :: 0 <= i < j < |s| ==> s[i] != s[j]
  }

  /** The set of elements of a sequence; as many as its length when it has no duplicates. */
  function Elements<T>(s: seq<T>): set<T>
  {
    set x | x in s
  }

  lemma {:induction false} ElementsOfDistinct<T>(s: seq<T>)
    requires NoDuplicates(s)
    ensures |Elements(s)| == |s|
  {
    if |s| > 0 {
      var init := s[..|s| - 1];
      ElementsOfDistinct(init);
      assert Elements(s) == Elements(init) + {s[|s| - 1]};
      assert s[|s| - 1] !in Elements(init);
    }
  }

  lemma {:induction false} ElementsBound<T>(s: seq<T>)
    ensures |Elements(s)| <= |s|
  {
    if |s| > 0 {
      var init := s[..|s| - 1];
      ElementsBound(init);
      assert Elements(s) == Elements(init) + {s[|s| - 1]};
    }
  }

  /** A subset is no larger than its superset. */
  lemma SubsetCard<T>(a: set<T>, b: set<T>)
    requires a <= b
    ensures |a| <= |b|
  {
    assert b == a + (b - a);
  }

  function Sum(xs: seq<real>): real
  {
    if |xs| == 0 then 0.0 else Sum(xs[..|xs| - 1]) + xs[|xs| - 1]
  }

  /** numpy's mean of a non-empty sequence. */
  function Mean(xs: seq<real>): real
    requires |xs| > 0
  {
    Sum(xs) / |xs| as real
  }

  lemma {:induction false} SumBounds(xs: seq<real>, lo: real, hi: real)
    requires forall i :: 0 <= i < |xs| ==> lo <= xs[i] <= hi
    ensures lo * |xs| as real <= Sum(xs) <= hi * |xs| as real
  {
    if |xs| > 0 {
      SumBounds(xs[..|xs| - 1], lo, hi);
    }
  }

  lemma MeanBounds(xs: seq<real>, lo: real, hi: real)
    requires |xs| > 0
    requires forall i :: 0 <= i < |xs| ==> lo <= xs[i] <= hi
    ensures lo <= Mean(xs) <= hi
  {
    SumBounds(xs, lo, hi);
    var n := |xs| as real;
    assert lo * n <= Sum(xs) <= hi * n;
    assert Sum(xs) / n <= hi by {
      assert Sum(xs) <= hi * n;
    }
  }

  /** A sum of positive numbers is positive unless it is empty. */
  lemma {:induction false} SumPositive(xs: seq<real>)
    requires forall i :: 0 <= i < |xs| ==> 0.0 < xs[i]
    ensures 0.0 <= Sum(xs) && (|xs| > 0 ==> 0.0 < Sum(xs))
  {
    if |xs| > 0 {
      SumPositive(xs[..|xs| - 1]);
    }
  }

  lemma {:induction false} SumAtLeast(xs: seq<real>, lo: real)
    requires forall i :: 0 <= i < |xs| ==> lo <= xs[i]
    ensures lo * |xs| as real <= Sum(xs)
  {
    if |xs| > 0 {
      SumAtLeast(xs[..|xs| - 1], lo);
    }
  }

  lemma MeanAtLeast(xs: seq<real>, lo: real)
    requires |xs| > 0
    requires forall i :: 0 <= i < |xs| ==> lo <= xs[i]
    ensures lo <= Mean(xs)
  {
    SumAtLeast(xs, lo);
  }

  lemma {:induction false} SumAtMost(xs: seq<real>, hi: real)
    requires forall i :: 0 <= i < |xs| ==> xs[i] <= hi
    ensures Sum(xs) <= hi * |xs| as real
  {
    if |xs| > 0 {
      SumAtMost(xs[..|xs| - 1], hi);
    }
  }

  lemma MeanAtMost(xs: seq<real>, hi: real)
    requires |xs| > 0
    requires forall i :: 0 <= i < |xs| ==> xs[i] <= hi
    ensures Mean(xs) <= hi
  {
    SumAtMost(xs, hi);
  }

  /** The squared deviations of xs from m. */
  function SquaredDeviations(xs: seq<real>, m: real): (r: seq<real>)
    ensures |r| == |xs|
  {
    seq(|xs|, k requires 0 <= k < |xs| => (xs[k] - m) * (xs[k] - m))
  }

  /** numpy's var: the mean squared deviation from the mean (population variance). */
  function Variance(xs: seq<real>): real
    requires |xs| > 0
  {
    Mean(SquaredDeviations(xs, Mean(xs)))
  }


  /** The variance is never negative. */
  lemma VarianceNonneg(xs: seq<real>)
    requires |xs| > 0
    ensures 0.0 <= Variance(xs)
  {
    var d := SquaredDeviations(xs, Mean(xs));
    forall k | 0 <= k < |d|
      ensures 0.0 <= d[k]
    {
      assert 0.0 <= (xs[k] - Mean(xs)) * (xs[k] - Mean(xs));
    }
    MeanAtLeast(d, 0.0);
  }

  /** A constant sequence has mean c and variance 0. */
  lemma ConstantMoments(xs: seq<real>, c: real)
    requires |xs| > 0 && forall k :: 0 <= k < |xs| ==> xs[k] == c
    ensures Mean(xs) == c && Variance(xs) == 0.0
  {
    MeanBounds(xs, c, c);
    var d := SquaredDeviations(xs, c);
    assert forall k :: 0 <= k < |d| ==> d[k] == 0.0;
    MeanBounds(d, 0.0, 0.0);
  }







  /** Isolated so that the solver meets the product on its own. */
  lemma MulNonneg(a: real, b: real)
    requires 0.0 <= a && 0.0 <= b
    ensures 0.0 <= a * b
  {
  }

  /** Isolated so that the solver meets the division on its own. */
  lemma DivAtLeastOne(x: real, y: real)
    requires 0.0 < y <= x
    ensures x / y >= 1.0
  {
  }

  /** The product of two numbers in [0, 1] is in [0, 1]. */
  lemma ProductBounds(a: real, b: real)
    requires 0.0 <= a <= 1.0 && 0.0 <= b <= 1.0
    ensures 0.0 <= a * b <= 1.0
  {
    MulNonneg(a, b);
    MulNonneg(1.0 - a, b);
  }

  /**
   * sqrt is a square root function on the non-negative reals (numpy's sqrt inside
   * np.std); the root of zero is stated on its own because the solver does not
   * derive it from the product.
   */
  ghost predicate IsSqrt(sqrt: real -> real)
  {
    && sqrt(0.0) == 0.0
    && forall x :: 0.0 <= x ==> 0.0 <= sqrt(x) && sqrt(x) * sqrt(x) == x
  }

  /** What the model uses of `x ** 0.8`: it is zero at zero and positive for positive x. */
  ghost predicate IsFractionalPower(pow: real -> real)
  {
    && pow(0.0) == 0.0
    && forall x :: 0.0 < x ==> 0.0 < pow(x)
  }

  /**
   * The external numeric collaborators: `cosine` is the cosine similarity of the
   * sentence embeddings of two strings, `inner` the inner product of their embeddings
   * (np.inner), `sqrt` a square root and `pow08` the power x ** 0.8.
   */
  datatype Oracle = Oracle(
    cosine: (string, string) -> real,
    inner: (string, string) -> real,
    sqrt: real -> real,
    pow08: real -> real)
  {
    ghost predicate Sound() { IsSqrt(sqrt) && IsFractionalPower(pow08) }
  }
}
