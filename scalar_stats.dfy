/**
 * The scalar statistics of cov.cc: `mean`, `var` and `cov` over vectors of
 * doubles, where a NULL mean pointer means "compute the mean yourself".
 */
module ScalarStats {
  import opened RealSeq
  import opened Wrappers

  /** The arithmetic mean. */
  function Average(x: seq<real>): real
    requires |x| > 0
  {
    Sum(x) / (|x| as real)
  }

  /** The mean a caller supplied through the pointer, or the computed one for NULL. */
  function MeanOr(given: Option<real>, x: seq<real>): real
    requires |x| > 0
  {
    if given.Some? then given.value else Average(x)
  }

  /** `mean`: accumulates `s` over the vector, then divides by its size. */
  method Mean(x: seq<real>) returns (r: real)
    requires |x| > 0
    ensures r == Sum(x) / (|x| as real)
  {
    var s := 0.0;
    var size := |x|;
    var i := 0;
    while i < size
      invariant 0 <= i <= size
      invariant s == Sum(x[..i])
    {
      assert x[..i + 1][..i] == x[..i];
      s := s + x[i];
      i := i + 1;
    }
    assert x[..size] == x;
    r := s / (size as real);
  }

  /**
   * What `var` computes: the deviations from `m` summed and divided by twice
   * the length, because `resize` leaves `size` zeros in front of the
   * `size` deviations that `push_back` appends.
   */
  function VarAsWritten(x: seq<real>, m: real): real
    requires |x| > 0
  {
    Sum(Shifted(x, m)) / ((2 * |x|) as real)
  }

  /** `var` as written (cov.cc:16-35). */
  method Var(x: seq<real>, mx1: Option<real>) returns (r: real)
    requires |x| > 0
    ensures r == VarAsWritten(x, MeanOr(mx1, x))
  {
    var m: real;
    if mx1.None? {
      m := Mean(x);
    } else {
      m := mx1.value;
    }
    var size := |x|;
    var v := Zeros(size);
    var i := 0;
    while i < size
      invariant 0 <= i <= size
      invariant v == Zeros(size) + Shifted(x[..i], m)
    {
      assert Shifted(x[..i + 1], m) == Shifted(x[..i], m) + [x[i] - m];
      v := v + [x[i] - m];
      i := i + 1;
    }
    assert x[..size] == x;
    assert |v| == 2 * size && Sum(v) == Sum(Shifted(x, m)) by {
      SumAppend(Zeros(size), Shifted(x, m));
      SumZeros(size);
    }
    r := Mean(v);
  }

  /**
   * Given the true mean, `var` always returns zero: the deviations from the
   * mean sum to zero, whatever the data.
   */
  lemma VarAsWrittenAtMeanIsZero(x: seq<real>)
    requires |x| > 0
    ensures VarAsWritten(x, Average(x)) == 0.0
  {
    SumShifted(x, Average(x));
  }

  /** A concrete input on which `var` differs from the variance: [0, 2] has variance 1, `var` gives 0. */
  lemma VarAsWrittenCounterexample()
    ensures VarAsWritten([0.0, 2.0], Average([0.0, 2.0])) == 0.0
    ensures PopulationVariance([0.0, 2.0], Average([0.0, 2.0])) == 1.0
  {
    var x := [0.0, 2.0];
    assert x[..1] == [0.0] && x[..1][..0] == [];
    assert Sum(x) == 2.0;
    assert Average(x) == 1.0;
    assert Shifted(x, 1.0)[..1] == [-1.0];
    assert Squares(x, 1.0)[..1] == [1.0];
  }

  /** The product of two deviations, `(a - ma)(b - mb)`. */
  function DevProduct(a: real, ma: real, b: real, mb: real): real
  {
    (a - ma) * (b - mb)
  }

  /** Squared deviations from `m`. */
  function Squares(x: seq<real>, m: real): seq<real>
  {
    seq(|x|, i requires 0 <= i < |x| => DevProduct(x[i], m, x[i], m))
  }

  /** The population variance about `m`: the mean of the squared deviations. */
  function PopulationVariance(x: seq<real>, m: real): real
    requires |x| > 0
  {
    Sum(Squares(x, m)) / (|x| as real)
  }

  /**
   * `var` as evidently intended: push the squared deviations onto an empty
   * vector and take their mean. The result is never negative and equals the
   * covariance of the vector with itself.
   */
  method VarCorrected(x: seq<real>, mx1: Option<real>) returns (r: real)
    requires |x| > 0
    ensures r == PopulationVariance(x, MeanOr(mx1, x))
    ensures r >= 0.0
    ensures r == PopulationCov(x, x, MeanOr(mx1, x), MeanOr(mx1, x))
  {
    var m: real;
    if mx1.None? {
      m := Mean(x);
    } else {
      m := mx1.value;
    }
    var size := |x|;
    var v := [];
    var i := 0;
    while i < size
      invariant 0 <= i <= size
      invariant v == Squares(x[..i], m)
    {
      assert Squares(x[..i + 1], m) == Squares(x[..i], m) + [DevProduct(x[i], m, x[i], m)];
      v := v + [DevProduct(x[i], m, x[i], m)];
      i := i + 1;
    }
    assert x[..size] == x;
    r := Mean(v);
    SquaresNonNegative(x, m);
    assert DevProducts(x, x, m, m) == v;
  }

  /** Squared deviations are never negative, nor is their mean. */
  lemma SquaresNonNegative(x: seq<real>, m: real)
    requires |x| > 0
    ensures PopulationVariance(x, m) >= 0.0
  {
    var v := Squares(x, m);
    forall k | 0 <= k < |v| ensures v[k] >= 0.0 {
      var d := x[k] - m;
      assert v[k] == d * d;
    }
    SumNonNegative(v);
    var n := |x| as real;
    assert Sum(v) >= 0.0 && n > 0.0;
  }

  /** Row by row over the length of `x1`, the product of the deviations of `x1` and `x2`. */
  function DevProducts(x1: seq<real>, x2: seq<real>, m1: real, m2: real): seq<real>
    requires |x2| >= |x1|
  {
    seq(|x1|, i requires 0 <= i < |x1| => DevProduct(x1[i], m1, x2[i], m2))
  }

  /** What `cov` computes: the deviation products averaged over n (not n - 1). */
  function PopulationCov(x1: seq<real>, x2: seq<real>, m1: real, m2: real): real
    requires |x1| > 0 && |x2| >= |x1|
  {
    Sum(DevProducts(x1, x2, m1, m2)) / (|x1| as real)
  }

  /**
   * `cov`: a NULL mean pointer is replaced by the mean of the whole vector;
   * `x2` is read only below `x1.size()` (its length is checked only in DEBUG
   * builds), and the products are averaged over n.
   */
  method Cov(x1: seq<real>, x2: seq<real>, mx1: Option<real>, mx2: Option<real>) returns (r: real)
    requires |x1| > 0 && |x2| >= |x1|
    ensures r == PopulationCov(x1, x2, MeanOr(mx1, x1), MeanOr(mx2, x2))
  {
    var m1, m2: real;
    if mx1.None? {
      m1 := Mean(x1);
    } else {
      m1 := mx1.value;
    }
    if mx2.None? {
      m2 := Mean(x2);
    } else {
      m2 := mx2.value;
    }
    var size := |x1|;
    var c := Zeros(size);
    var i := 0;
    while i < size
      invariant 0 <= i <= size && |c| == size
      invariant forall k :: 0 <= k < i ==> c[k] == DevProduct(x1[k], m1, x2[k], m2)
    {
      c := c[i := DevProduct(x1[i], m1, x2[i], m2)];
      i := i + 1;
    }
    assert c == DevProducts(x1, x2, m1, m2);
    r := Mean(c);
  }

  /** Swapping the two vectors together with their means gives the same covariance. */
  lemma PopulationCovSwap(x1: seq<real>, x2: seq<real>, m1: real, m2: real)
    requires |x1| > 0 && |x2| == |x1|
    ensures PopulationCov(x1, x2, m1, m2) == PopulationCov(x2, x1, m2, m1)
  {
    assert DevProducts(x1, x2, m1, m2) == DevProducts(x2, x1, m2, m1);
  }

  /** The vector 0, 1, ..., 9 that the driver passes as both arguments (cov.cc:65-66). */
  const Ramp: seq<real> := [0.0, 1.0, 2.0, 3.0, 4.0, 5.0, 6.0, 7.0, 8.0, 9.0]

  /**
   * The driver: the mean of 0..9 is 4.5, and `cov` of the vector with itself
   * is 8.25 (82.5 / 10) whether the means are computed (NULL pointers) or
   * passed in; `var` as written gives 0 instead of 8.25.
   */
  lemma DriverExample()
    ensures Average(Ramp) == 4.5
    ensures PopulationCov(Ramp, Ramp, MeanOr(None, Ramp), MeanOr(None, Ramp)) == 8.25
    ensures var m := Average(Ramp);
            PopulationCov(Ramp, Ramp, MeanOr(Some(m), Ramp), MeanOr(Some(m), Ramp)) == 8.25
    ensures VarAsWritten(Ramp, MeanOr(None, Ramp)) == 0.0
  {
    var lo, hi := [0.0, 1.0, 2.0, 3.0, 4.0], [5.0, 6.0, 7.0, 8.0, 9.0];
    assert Ramp == lo + hi;
    SumAppend(lo, hi);
    Sum5(0.0, 1.0, 2.0, 3.0, 4.0);
    Sum5(5.0, 6.0, 7.0, 8.0, 9.0);
    assert Average(Ramp) == 4.5;
    var sq := DevProducts(Ramp, Ramp, 4.5, 4.5);
    var sqLo, sqHi := [20.25, 12.25, 6.25, 2.25, 0.25], [0.25, 2.25, 6.25, 12.25, 20.25];
    assert sq == sqLo + sqHi;
    SumAppend(sqLo, sqHi);
    Sum5(20.25, 12.25, 6.25, 2.25, 0.25);
    Sum5(0.25, 2.25, 6.25, 12.25, 20.25);
    VarAsWrittenAtMeanIsZero(Ramp);
  }
}
