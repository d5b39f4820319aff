/**
 * Statistics over an aligned observations-by-assets matrix (main.cc
 * `weeklyReturns` and `cov`; cov-eigen.cc holds an identical `cov`).
 * Each column is one variable (an asset), each row one observation.
 */
module Statistics {
  import opened RealSeq
  import opened MatrixOps

  /**
   * `weeklyReturns`: a result of length n/5 whose entry i is the rolling
   * 5-step return `(prices[i+4] - prices[i]) / prices[i]`; every `prices[i+4]`
   * it reads is in bounds.
   */
  method WeeklyReturns(prices: seq<real>) returns (weekly: seq<real>)
    requires forall i :: 0 <= i < |prices| / 5 ==> prices[i] != 0.0
    ensures |weekly| == |prices| / 5
    ensures forall i {:trigger weekly[i]} :: 0 <= i < |weekly| ==>
              i + 4 < |prices| && weekly[i] == (prices[i + 4] - prices[i]) / prices[i]
    ensures weekly == ReturnsAsWritten(prices)
  {
    var n := |prices|;
    weekly := seq(n / 5, _ => 0.0);
    var i := 0;
    while i < |weekly|
      invariant 0 <= i <= |weekly| == n / 5
      invariant forall j {:trigger weekly[j]} :: 0 <= j < i ==>
                  j + 4 < n && weekly[j] == (prices[j + 4] - prices[j]) / prices[j]
    {
      weekly := weekly[i := (prices[i + 4] - prices[i]) / prices[i]];
      i := i + 1;
    }
  }

  /** The return over the five prices `prices[i..i + 5]`. */
  function FiveDayReturn(prices: seq<real>, i: nat): real
    requires i + 4 < |prices| && prices[i] != 0.0
  {
    (prices[i + 4] - prices[i]) / prices[i]
  }

  /** What `weeklyReturns` computes: the five-day returns starting at the first n/5 prices. */
  function ReturnsAsWritten(prices: seq<real>): (r: seq<real>)
    requires forall i :: 0 <= i < |prices| / 5 ==> prices[i] != 0.0
    ensures |r| == |prices| / 5
  {
    seq(|prices| / 5, i requires 0 <= i < |prices| / 5 => FiveDayReturn(prices, i))
  }

  /**
   * The returns the comment above `weeklyReturns` documents:
   * `(p[i] - p[i-4]) / p[i-4]` for every `4 <= i < n`, one per price from
   * the fifth on.
   */
  function DocumentedReturns(prices: seq<real>): (r: seq<real>)
    requires forall i :: 0 <= i < |prices| - 4 ==> prices[i] != 0.0
    ensures |r| == if |prices| >= 4 then |prices| - 4 else 0
  {
    if |prices| < 4 then []
    else seq(|prices| - 4, j requires 0 <= j < |prices| - 4 => FiveDayReturn(prices, j))
  }

  /**
   * `weeklyReturns` computes only a prefix of the documented returns: the
   * first n/5 of the n - 4 windows, so the prices after index n/5 + 3 are
   * never read.
   */
  lemma ReturnsAsWrittenIsPrefix(prices: seq<real>)
    requires forall i :: 0 <= i < |prices| - 4 ==> prices[i] != 0.0
    ensures |prices| / 5 <= |DocumentedReturns(prices)|
    ensures ReturnsAsWritten(prices) == DocumentedReturns(prices)[..|prices| / 5]
  {
  }

  /**
   * Ten prices, flat until the last one doubles: the returns as written are
   * [0, 0], while the documented returns number six and the last of them,
   * which ends on the tenth price, is 1.
   */
  lemma ReturnsAsWrittenCounterexample()
    ensures var p := [1.0, 1.0, 1.0, 1.0, 1.0, 1.0, 1.0, 1.0, 1.0, 2.0];
            && ReturnsAsWritten(p) == [0.0, 0.0]
            && |DocumentedReturns(p)| == 6 && DocumentedReturns(p)[5] == 1.0
  {
    var p := [1.0, 1.0, 1.0, 1.0, 1.0, 1.0, 1.0, 1.0, 1.0, 2.0];
    assert FiveDayReturn(p, 0) == 0.0 && FiveDayReturn(p, 1) == 0.0;
    assert FiveDayReturn(p, 5) == 1.0;
  }

  /**
   * `weeklyReturns` as its comment documents it: one loop over `4 <= i < n`,
   * so that every price from the fifth on ends exactly one window.
   */
  method WeeklyReturnsDocumented(prices: seq<real>) returns (weekly: seq<real>)
    requires forall i :: 0 <= i < |prices| - 4 ==> prices[i] != 0.0
    ensures weekly == DocumentedReturns(prices)
    ensures forall i :: 4 <= i < |prices| ==> weekly[i - 4] == (prices[i] - prices[i - 4]) / prices[i - 4]
  {
    var n := |prices|;
    weekly := [];
    if n < 4 {
      return;
    }
    var i := 4;
    while i < n
      invariant 4 <= i <= n && |weekly| == i - 4
      invariant forall j :: 0 <= j < i - 4 ==> weekly[j] == FiveDayReturn(prices, j)
    {
      weekly := weekly + [(prices[i] - prices[i - 4]) / prices[i - 4]];
      i := i + 1;
    }
  }

  /** Every row is long enough to have a column `j`. */
  predicate HasColumn(m: seq<seq<real>>, j: nat)
  {
    forall r :: 0 <= r < |m| ==> j < |m[r]|
  }

  /** Column `j` of `m`, top to bottom. */
  function Column(m: seq<seq<real>>, j: nat): seq<real>
    requires HasColumn(m, j)
  {
    seq(|m|, r requires 0 <= r < |m| => m[r][j])
  }

  /** Arithmetic mean of column `j`. */
  function ColMean(m: seq<seq<real>>, j: nat): real
    requires |m| > 0 && HasColumn(m, j)
  {
    Sum(Column(m, j)) / (|m| as real)
  }

  /**
   * `m.colwise().mean()`: entry `j` is the arithmetic mean of column `j`
   * (cov-eigen.cc:35, main.cc:713).
   */
  function ColMeans(m: seq<seq<real>>, cols: nat): (means: seq<real>)
    requires |m| > 0 && IsMatrix(m, cols)
    ensures |means| == cols
    ensures forall j :: 0 <= j < cols ==> means[j] == Sum(Column(m, j)) / (|m| as real)
  {
    seq(cols, j requires 0 <= j < cols => ColMean(m, j))
  }

  /** Row by row, the product of the deviations of columns `i` and `k` from `mi` and `mk`. */
  function DevProducts(m: seq<seq<real>>, i: nat, k: nat, mi: real, mk: real): seq<real>
    requires HasColumn(m, i) && HasColumn(m, k)
  {
    seq(|m|, r requires 0 <= r < |m| => (m[r][i] - mi) * (m[r][k] - mk))
  }

  /** The sample covariance of columns `i` and `k`: deviation products summed, over nrow - 1. */
  function SampleCov(m: seq<seq<real>>, i: nat, k: nat): real
    requires |m| > 1 && HasColumn(m, i) && HasColumn(m, k)
  {
    Sum(DevProducts(m, i, k, ColMean(m, i), ColMean(m, k))) / ((|m| - 1) as real)
  }

  /**
   * `cov`: requires more than one row; fills the upper triangle with the
   * sample covariance formula (divisor nrow - 1), then mirrors it, so the
   * result is an ncol-by-ncol symmetric matrix holding the sample
   * covariance of every pair of columns.
   */
  method Cov(m: seq<seq<real>>) returns (c: seq<seq<real>>)
    requires |m| > 1 && IsMatrix(m, |m[0]|)
    ensures IsSquare(c, |m[0]|)
    ensures forall i, k :: 0 <= i <= k < |m[0]| ==> c[i][k] == SampleCov(m, i, k)
    ensures forall i, k :: 0 <= i < |m[0]| && 0 <= k < |m[0]| ==> c[i][k] == c[k][i]
    ensures forall i, k :: 0 <= i < |m[0]| && 0 <= k < |m[0]| ==> c[i][k] == SampleCov(m, i, k)
  {
    var ncol := |m[0]|;
    var upper := UpperTriangle(m, ncol);
    c := Mirror(upper, ncol);
    forall i, k | 0 <= i < ncol && 0 <= k < ncol
      ensures c[i][k] == SampleCov(m, i, k)
    {
      SampleCovSymmetric(m, i, k);
    }
  }

  /** The first loop nest of `cov`: entry (i, k) for every i <= k, column by column. */
  method UpperTriangle(m: seq<seq<real>>, ncol: nat) returns (c: seq<seq<real>>)
    requires |m| > 1 && IsMatrix(m, ncol)
    ensures IsSquare(c, ncol)
    ensures forall i, k :: 0 <= i <= k < ncol ==> c[i][k] == SampleCov(m, i, k)
  {
    var nrow := |m|;
    var means := ColMeans(m, ncol);
    c := seq(ncol, _ => seq(ncol, _ => 0.0));
    var k := 0;
    while k < ncol
      invariant 0 <= k <= ncol && IsSquare(c, ncol)
      invariant forall a, b :: 0 <= a <= b < k ==> c[a][b] == SampleCov(m, a, b)
    {
      var i := 0;
      while i <= k
        invariant 0 <= i <= k + 1 && IsSquare(c, ncol)
        invariant forall a, b :: 0 <= a <= b < k ==> c[a][b] == SampleCov(m, a, b)
        invariant forall a :: 0 <= a < i ==> c[a][k] == SampleCov(m, a, k)
      {
        c := c[i := c[i][k := Sum(DevProducts(m, i, k, means[i], means[k])) / ((nrow - 1) as real)]];
        i := i + 1;
      }
      k := k + 1;
    }
  }

  /**
   * The second loop nest of `cov`: every entry below the diagonal is copied
   * from its mirror image above it, and nothing on or above the diagonal changes.
   */
  method Mirror(u: seq<seq<real>>, ncol: nat) returns (c: seq<seq<real>>)
    requires IsSquare(u, ncol)
    ensures IsSquare(c, ncol)
    ensures forall a, b :: 0 <= a <= b < ncol ==> c[a][b] == u[a][b]
    ensures forall a, b :: 0 <= b < a < ncol ==> c[a][b] == u[b][a]
  {
    c := u;
    var k := 0;
    while k < ncol
      invariant 0 <= k <= ncol && IsSquare(c, ncol)
      invariant forall a, b :: 0 <= a <= b < ncol ==> c[a][b] == u[a][b]
      invariant forall a, b :: 0 <= b < k && b < a < ncol ==> c[a][b] == u[b][a]
    {
      var i := k + 1;
      while i < ncol
        invariant k + 1 <= i <= ncol
        invariant IsSquare(c, ncol)
        invariant forall a, b :: 0 <= a <= b < ncol ==> c[a][b] == u[a][b]
        invariant forall a, b :: 0 <= b < k && b < a < ncol ==> c[a][b] == u[b][a]
        invariant forall a :: k < a < i ==> c[a][k] == u[k][a]
      {
        c := c[i := c[i][k := c[k][i]]];
        i := i + 1;
      }
      k := k + 1;
    }
  }

  lemma SampleCovSymmetric(m: seq<seq<real>>, i: nat, k: nat)
    requires |m| > 1 && HasColumn(m, i) && HasColumn(m, k)
    ensures SampleCov(m, i, k) == SampleCov(m, k, i)
  {
    assert DevProducts(m, i, k, ColMean(m, i), ColMean(m, k))
        == DevProducts(m, k, i, ColMean(m, k), ColMean(m, i));
  }

  /** A diagonal entry is a sum of squared deviations over nrow - 1, so it is never negative. */
  lemma {:induction false} SampleVarianceNonNegative(m: seq<seq<real>>, i: nat)
    requires |m| > 1 && HasColumn(m, i)
    ensures SampleCov(m, i, i) >= 0.0
  {
    var mi := ColMean(m, i);
    var d := DevProducts(m, i, i, mi, mi);
    forall r | 0 <= r < |d| ensures d[r] >= 0.0 {
      var x := m[r][i] - mi;
      assert d[r] == x * x;
    }
    SumNonNegative(d);
  }

  /**
   * Two identical columns have, as their covariance, the sample variance of
   * that column: `Σ(x - mean)² / (n - 1)`.
   */
  lemma IdenticalColumnsCov(m: seq<seq<real>>, i: nat, k: nat)
    requires |m| > 1 && HasColumn(m, i) && HasColumn(m, k)
    requires Column(m, i) == Column(m, k)
    ensures SampleCov(m, i, k) == SampleCov(m, i, i)
  {
    var mi, mk := ColMean(m, i), ColMean(m, k);
    assert mk == mi;
    var d, d' := DevProducts(m, i, k, mi, mk), DevProducts(m, i, i, mi, mi);
    forall r | 0 <= r < |m| ensures d[r] == d'[r] {
      assert m[r][k] == Column(m, k)[r] == Column(m, i)[r] == m[r][i];
    }
    assert d == d';
  }

  /** Erasing a column leaves the other columns as they were, renumbered. */
  lemma ColumnAfterErase(m: seq<seq<real>>, cols: nat, i: nat, a: nat)
    requires cols > 0 && IsMatrix(m, cols) && a < cols - 1
    ensures HasColumn(EraseCol(m, cols, i), a) && HasColumn(m, Shift(a, i))
    ensures Column(EraseCol(m, cols, i), a) == Column(m, Shift(a, i))
  {
  }

  /** Covariance depends only on the two columns involved. */
  lemma SampleCovOfSameColumns(m: seq<seq<real>>, a: nat, b: nat, m': seq<seq<real>>, a': nat, b': nat)
    requires |m| > 1 && HasColumn(m, a) && HasColumn(m, b)
    requires |m'| == |m| && HasColumn(m', a') && HasColumn(m', b')
    requires Column(m, a) == Column(m', a') && Column(m, b) == Column(m', b')
    ensures ColMean(m, a) == ColMean(m', a')
    ensures SampleCov(m, a, b) == SampleCov(m', a', b')
  {
    var ma, mb := ColMean(m, a), ColMean(m, b);
    assert ma == ColMean(m', a') && mb == ColMean(m', b');
    var d, d' := DevProducts(m, a, b, ma, mb), DevProducts(m', a', b', ma, mb);
    forall r | 0 <= r < |m| ensures d[r] == d'[r] {
      assert m[r][a] == Column(m, a)[r] == m'[r][a'];
      assert m[r][b] == Column(m, b)[r] == m'[r][b'];
    }
    assert d == d';
  }

  /**
   * The statistics of a returns matrix with column `i` erased are those of
   * the original matrix with entry `i` erased: removing the same index from
   * R, from the column means and from the covariance matrix keeps them aligned.
   */
  lemma StatisticsAfterErase(m: seq<seq<real>>, cols: nat, i: nat, a: nat, b: nat)
    requires |m| > 1 && cols > 0 && IsMatrix(m, cols) && a < cols - 1 && b < cols - 1
    ensures HasColumn(EraseCol(m, cols, i), a) && HasColumn(EraseCol(m, cols, i), b)
    ensures ColMean(EraseCol(m, cols, i), a) == ColMean(m, Shift(a, i))
    ensures SampleCov(EraseCol(m, cols, i), a, b) == SampleCov(m, Shift(a, i), Shift(b, i))
  {
    ColumnAfterErase(m, cols, i, a);
    ColumnAfterErase(m, cols, i, b);
    SampleCovOfSameColumns(EraseCol(m, cols, i), a, b, m, Shift(a, i), Shift(b, i));
  }

  /** The 4-by-2 returns matrix of the covariance driver (cov-eigen.cc:62-66). */
  const Example: seq<seq<real>> := [[0.4, 0.10], [0.5, 0.20], [0.55, 0.18], [0.88, 0.05]]

  /** The column means of the driver's matrix (cov-eigen.cc:70). */
  lemma ExampleMeans()
    ensures |Example| > 1 && IsMatrix(Example, 2)
    ensures ColMean(Example, 0) == 0.5825 && ColMean(Example, 1) == 0.1325
  {
    assert Column(Example, 0) == [0.4, 0.5, 0.55, 0.88];
    assert Column(Example, 1) == [0.10, 0.20, 0.18, 0.05];
    Sum4(0.4, 0.5, 0.55, 0.88);
    Sum4(0.10, 0.20, 0.18, 0.05);
  }

  /**
   * The driver's matrix: column means 0.5825 and 0.1325, variances 0.043225
   * and 0.014675 / 3, and covariance -0.008575 between the two columns.
   */
  lemma CovExample()
    ensures |Example| > 1 && IsMatrix(Example, 2)
    ensures ColMean(Example, 0) == 0.5825 && ColMean(Example, 1) == 0.1325
    ensures SampleCov(Example, 0, 0) == 0.043225
    ensures SampleCov(Example, 1, 1) == 0.014675 / 3.0
    ensures SampleCov(Example, 0, 1) == SampleCov(Example, 1, 0) == -0.008575
  {
    var m := Example;
    ExampleMeans();
    var m0, m1 := ColMean(m, 0), ColMean(m, 1);
    assert DevProducts(m, 0, 0, m0, m0)
        == [-0.1825 * -0.1825, -0.0825 * -0.0825, -0.0325 * -0.0325, 0.2975 * 0.2975];
    Sum4(-0.1825 * -0.1825, -0.0825 * -0.0825, -0.0325 * -0.0325, 0.2975 * 0.2975);
    assert DevProducts(m, 1, 1, m1, m1)
        == [-0.0325 * -0.0325, 0.0675 * 0.0675, 0.0475 * 0.0475, -0.0825 * -0.0825];
    Sum4(-0.0325 * -0.0325, 0.0675 * 0.0675, 0.0475 * 0.0475, -0.0825 * -0.0825);
    assert DevProducts(m, 0, 1, m0, m1)
        == [-0.1825 * -0.0325, -0.0825 * 0.0675, -0.0325 * 0.0475, 0.2975 * -0.0825];
    Sum4(-0.1825 * -0.0325, -0.0825 * 0.0675, -0.0325 * 0.0475, 0.2975 * -0.0825);
    SampleCovSymmetric(m, 0, 1);
  }
}
