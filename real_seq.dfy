/**
 * Sums, dot products and the first-minimum search over sequences of reals.
 * `double` values of the C++ program are modelled as `real`; Eigen's `.sum()`,
 * `.mean()` and `std::min_element` become the functions below.
 */
module RealSeq {

  /** Sum of the entries, accumulated left to right as the source's loops do. */
  function Sum(s: seq<real>): real
  {
    if s == [] then 0.0 else Sum(s[..|s| - 1]) + s[|s| - 1]
  }

  /** Sum distributes over concatenation. */
  lemma {:induction false} SumAppend(a: seq<real>, b: seq<real>)
    ensures Sum(a + b) == Sum(a) + Sum(b)
  {
    if b != [] {
      assert (a + b)[..|a + b| - 1] == a + b[..|b| - 1];
      SumAppend(a, b[..|b| - 1]);
    } else {
      assert a + b == a;
    }
  }

  /** A sum of non-negative entries is non-negative. */
  lemma {:induction false} SumNonNegative(s: seq<real>)
    requires forall k :: 0 <= k < |s| ==> s[k] >= 0.0
    ensures Sum(s) >= 0.0
  {
    if s != [] {
      SumNonNegative(s[..|s| - 1]);
    }
  }

  /** The sum of four entries, written out. */
  lemma Sum4(a: real, b: real, c: real, d: real)
    ensures Sum([a, b, c, d]) == a + b + c + d
  {
    assert [a][..0] == [];
    assert Sum([a]) == a;
    assert [a, b][..1] == [a];
    assert Sum([a, b]) == a + b;
    assert [a, b, c][..2] == [a, b];
    assert Sum([a, b, c]) == a + b + c;
    assert [a, b, c, d][..3] == [a, b, c];
  }

  /** The sum of five entries, written out. */
  lemma Sum5(a: real, b: real, c: real, d: real, e: real)
    ensures Sum([a, b, c, d, e]) == a + b + c + d + e
  {
    assert [a, b, c, d, e][..4] == [a, b, c, d];
    Sum4(a, b, c, d);
  }

  /** `n` zeros: what `resize(n)` leaves in a fresh vector. */
  function Zeros(n: nat): seq<real>
  {
    seq(n, _ => 0.0)
  }

  lemma {:induction false} SumZeros(n: nat)
    ensures Sum(Zeros(n)) == 0.0
  {
    if n > 0 {
      assert Zeros(n)[..n - 1] == Zeros(n - 1);
      SumZeros(n - 1);
    }
  }

  /** Every entry divided by `c`. */
  function Divided(s: seq<real>, c: real): seq<real>
    requires c != 0.0
  {
    seq(|s|, k requires 0 <= k < |s| => s[k] / c)
  }

  /** Dividing every entry by `c` divides the sum by `c`. */
  lemma {:induction false} SumDivided(s: seq<real>, c: real)
    requires c != 0.0
    ensures Sum(Divided(s, c)) == Sum(s) / c
  {
    if s != [] {
      var n := |s|;
      assert Divided(s, c)[..n - 1] == Divided(s[..n - 1], c);
      SumDivided(s[..n - 1], c);
      assert Sum(Divided(s, c)) == Sum(s[..n - 1]) / c + s[n - 1] / c;
    }
  }

  /** Every entry minus `c`. */
  function Shifted(s: seq<real>, c: real): seq<real>
  {
    seq(|s|, k requires 0 <= k < |s| => s[k] - c)
  }

  /** Subtracting `c` from every entry subtracts `|s| * c` from the sum. */
  lemma {:induction false} SumShifted(s: seq<real>, c: real)
    ensures Sum(Shifted(s, c)) == Sum(s) - (|s| as real) * c
  {
    if s != [] {
      var n := |s|;
      assert Shifted(s, c)[..n - 1] == Shifted(s[..n - 1], c);
      SumShifted(s[..n - 1], c);
    }
  }

  /** Entrywise products. */
  function Products(a: seq<real>, b: seq<real>): seq<real>
    requires |a| == |b|
  {
    seq(|a|, k requires 0 <= k < |a| => a[k] * b[k])
  }

  /** The dot product `aᵀb`. */
  function Dot(a: seq<real>, b: seq<real>): real
    requires |a| == |b|
  {
    Sum(Products(a, b))
  }

  /**
   * `std::min_element` over a whole sequence, as an index: the position of the
   * FIRST smallest entry, or `|s|` (the end iterator) when `s` is empty.
   */
  function MinElement(s: seq<real>): (i: nat)
    ensures i <= |s| && (i == |s| <==> s == [])
    ensures s != [] ==> forall j :: 0 <= j < |s| ==> s[i] <= s[j]
    ensures s != [] ==> forall j :: 0 <= j < i ==> s[i] < s[j]
  {
    if |s| <= 1 then 0
    else
      var p := MinElement(s[..|s| - 1]);
      if s[|s| - 1] < s[p] then |s| - 1 else p
  }
}
