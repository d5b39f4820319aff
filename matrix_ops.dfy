/**
 * Index-aligned deletion (main.cc): `rmrow`, `rmcol`, `eigen_vector_erase`
 * and `index_remove`.
 *
 * An Eigen `MatrixXd` that the source mutates through a reference is a
 * `Matrix` object whose `cells` (row by row) the methods reassign; a
 * `VectorXd` mutated through a pointer is a `Vector` object.
 */
module MatrixOps {

  /** Every row of `m` has `cols` entries. */
  predicate IsMatrix(m: seq<seq<real>>, cols: nat)
  {
    forall r :: 0 <= r < |m| ==> |m[r]| == cols
  }

  /** `m` is a `n`-by-`n` matrix. */
  predicate IsSquare(m: seq<seq<real>>, n: nat)
  {
    |m| == n && IsMatrix(m, n)
  }

  /** Where entry `j` of a sequence came from after the entry at `i` was erased. */
  function Shift(j: nat, i: nat): nat
  {
    if j < i then j else j + 1
  }

  /**
   * Erasing position `i`: entries before `i` stay, entries after it move back
   * by one. The source guards the shift with `i < size - 1`, so an `i` at or
   * beyond the last position simply drops the last entry.
   */
  function Erase<T>(s: seq<T>, i: nat): (r: seq<T>)
    requires |s| > 0
    ensures |r| == |s| - 1
    ensures forall j :: 0 <= j < |r| ==> r[j] == s[Shift(j, i)]
    ensures i < |s| ==> multiset(r) + multiset{s[i]} == multiset(s)
    ensures i >= |s| - 1 ==> r == s[..|s| - 1]
  {
    if i < |s| - 1 then
      assert s == s[..i] + [s[i]] + s[i + 1..];
      s[..i] + s[i + 1..]
    else
      assert s == s[..|s| - 1] + [s[|s| - 1]];
      s[..|s| - 1]
  }

  /** Column `i` erased from every row. */
  function EraseCol(m: seq<seq<real>>, cols: nat, i: nat): (r: seq<seq<real>>)
    requires cols > 0 && IsMatrix(m, cols)
    ensures |r| == |m| && IsMatrix(r, cols - 1)
    ensures forall a, b :: 0 <= a < |r| && 0 <= b < cols - 1 ==> r[a][b] == m[a][Shift(b, i)]
  {
    seq(|m|, a requires 0 <= a < |m| => Erase(m[a], i))
  }

  /** An Eigen `MatrixXd`: `cols` is kept apart so that a matrix with no rows still has a width. */
  class Matrix {
    var cells: seq<seq<real>>
    var cols: nat

    ghost predicate Valid()
      reads this
    {
      IsMatrix(cells, cols)
    }

    constructor (m: seq<seq<real>>, cols: nat)
      requires IsMatrix(m, cols)
      ensures Valid() && cells == m && this.cols == cols
    {
      cells := m;
      this.cols := cols;
    }
  }

  /** An Eigen `VectorXd`. */
  class Vector {
    var elems: seq<real>

    constructor (v: seq<real>)
      ensures elems == v
    {
      elems := v;
    }
  }

  /**
   * `rmrow`: rows below `rm` move up one place (the block copy), then the
   * matrix is shrunk by one row (`conservativeResize`).
   */
  method RemoveRow(matrix: Matrix, rm: nat)
    requires matrix.Valid() && |matrix.cells| > 0
    modifies matrix
    ensures matrix.Valid() && matrix.cols == old(matrix.cols)
    ensures matrix.cells == Erase(old(matrix.cells), rm)
  {
    var nrow := |matrix.cells| - 1;
    if rm < nrow {
      matrix.cells := matrix.cells[..rm] + matrix.cells[rm + 1..] + [matrix.cells[nrow]];
    }
    matrix.cells := matrix.cells[..nrow];
  }

  /**
   * `rmcol`: columns right of `rm` move left one place (the block copy), then
   * the matrix is shrunk by one column.
   */
  method RemoveCol(matrix: Matrix, rm: nat)
    requires matrix.Valid() && matrix.cols > 0
    modifies matrix
    ensures matrix.Valid() && matrix.cols == old(matrix.cols) - 1
    ensures matrix.cells == EraseCol(old(matrix.cells), old(matrix.cols), rm)
  {
    var m := matrix.cells;
    var ncol := matrix.cols - 1;
    if rm < ncol {
      m := seq(|m|, a requires 0 <= a < |m| => m[a][..rm] + m[a][rm + 1..] + [m[a][ncol]]);
    }
    matrix.cells := seq(|m|, a requires 0 <= a < |m| => m[a][..ncol]);
    matrix.cols := ncol;
    assert matrix.cells == EraseCol(old(matrix.cells), old(matrix.cols), rm);
  }

  /** `eigen_vector_erase`: shift the tail down by one, then shrink by one. */
  method VectorErase(v: Vector, i: nat)
    requires |v.elems| > 0
    modifies v
    ensures v.elems == Erase(old(v.elems), i)
  {
    var size := |v.elems|;
    if i < size - 1 {
      v.elems := v.elems[..i] + v.elems[i + 1..] + [v.elems[size - 1]];
    }
    v.elems := v.elems[..size - 1];
  }

  /*
   * index_remove: a stable partition of a container by ORIGINAL index; the
   * elements whose position is not listed in `ixrm` come first, in order.
   */

  /** The first `|c|` elements split into (kept, removed), both in original order. */
  function Partition<T>(c: seq<T>, ixrm: seq<int>): (seq<T>, seq<T>)
  {
    if c == [] then ([], [])
    else
      var (kept, removed) := Partition(c[..|c| - 1], ixrm);
      if |c| - 1 in ixrm then (kept, removed + [c[|c| - 1]])
      else (kept + [c[|c| - 1]], removed)
  }

  /**
   * `index_remove(ixbegin, ixend, C)`: the rearranged container and the
   * partition point that the source returns as an iterator.
   */
  function IndexRemove<T>(c: seq<T>, ixrm: seq<int>): (r: (seq<T>, nat))
    ensures |r.0| == |c| && r.1 <= |c|
  {
    var (kept, removed) := Partition(c, ixrm);
    PartitionSize(c, ixrm);
    (kept + removed, |kept|)
  }

  lemma {:induction false} PartitionSize<T>(c: seq<T>, ixrm: seq<int>)
    ensures |Partition(c, ixrm).0| + |Partition(c, ixrm).1| == |c|
  {
    if c != [] {
      PartitionSize(c[..|c| - 1], ixrm);
    }
  }

  /** The positions below `n` that are not listed in `ixrm`, ascending. */
  function KeptPositions(n: nat, ixrm: seq<int>): (p: seq<nat>)
    ensures forall j :: 0 <= j < |p| ==> p[j] < n && p[j] !in ixrm
    ensures forall j, k :: 0 <= j < k < |p| ==> p[j] < p[k]
  {
    if n == 0 then []
    else if n - 1 in ixrm then KeptPositions(n - 1, ixrm)
    else KeptPositions(n - 1, ixrm) + [n - 1]
  }

  /** Every position below `n` that `ixrm` does not list is kept. */
  lemma {:induction false} KeptPositionsComplete(n: nat, ixrm: seq<int>)
    ensures forall q :: 0 <= q < n && q !in ixrm ==> q in KeptPositions(n, ixrm)
  {
    if n > 0 {
      KeptPositionsComplete(n - 1, ixrm);
    }
  }

  /**
   * index_remove followed by `erase(it, end)` (main.cc:176): what remains is
   * exactly the elements at the positions not listed in `ixrm`, in their
   * original order, and the whole container was only rearranged.
   */
  lemma {:induction false} IndexRemoveKeepsUnlisted<T>(c: seq<T>, ixrm: seq<int>)
    ensures var (r, it) := IndexRemove(c, ixrm);
            var p := KeptPositions(|c|, ixrm);
            && it == |p|
            && (forall j :: 0 <= j < it ==> r[..it][j] == c[p[j]])
            && multiset(r) == multiset(c)
            && forall q :: 0 <= q < |c| && q !in ixrm ==> q in p
  {
    PartitionKeeps(c, ixrm);
    KeptPositionsComplete(|c|, ixrm);
  }

  lemma PartitionKeeps<T>(c: seq<T>, ixrm: seq<int>)
    ensures var p := KeptPositions(|c|, ixrm);
            var (kept, removed) := Partition(c, ixrm);
            && |kept| == |p|
            && (forall j :: 0 <= j < |p| ==> kept[j] == c[p[j]])
            && multiset(kept) + multiset(removed) == multiset(c)
  {
    PartitionOrder(c, ixrm);
    PartitionMultiset(c, ixrm);
  }

  /** The kept part lists the elements at the kept positions, in order. */
  lemma {:induction false} PartitionOrder<T>(c: seq<T>, ixrm: seq<int>)
    ensures var p := KeptPositions(|c|, ixrm);
            var kept := Partition(c, ixrm).0;
            |kept| == |p| && forall j :: 0 <= j < |p| ==> kept[j] == c[p[j]]
  {
    if c != [] {
      var n := |c|;
      var c' := c[..n - 1];
      PartitionOrder(c', ixrm);
      var p' := KeptPositions(n - 1, ixrm);
      var kept' := Partition(c', ixrm).0;
      forall j | 0 <= j < |p'|
        ensures kept'[j] == c[p'[j]]
      {
        assert c'[p'[j]] == c[p'[j]];
      }
      if n - 1 !in ixrm {
        var p, kept := p' + [n - 1], kept' + [c[n - 1]];
        assert Partition(c, ixrm).0 == kept;
        assert KeptPositions(n, ixrm) == p;
        forall j | 0 <= j < |p|
          ensures kept[j] == c[p[j]]
        {
          if j < |p'| {
            assert kept[j] == kept'[j] && p[j] == p'[j];
          }
        }
      } else {
        assert Partition(c, ixrm).0 == kept';
        assert KeptPositions(n, ixrm) == p';
      }
    }
  }

  /** Kept and removed together hold every element exactly as often as the container. */
  lemma {:induction false} PartitionMultiset<T>(c: seq<T>, ixrm: seq<int>)
    ensures multiset(Partition(c, ixrm).0) + multiset(Partition(c, ixrm).1) == multiset(c)
  {
    if c != [] {
      var n := |c|;
      var c' := c[..n - 1];
      PartitionMultiset(c', ixrm);
      assert multiset(c) == multiset(c') + multiset{c[n - 1]} by {
        assert c == c' + [c[n - 1]];
      }
    }
  }
}
