/** The few numpy operations the UNO encoders use, on integer vectors:
    `np.zeros`, a row-major plane and its `flatten`, and Python's indexing
    of a vector by a possibly negative position. */
module Planes {
  import opened Wrappers

  function Zeros(n: nat): (z: seq<int>)
    ensures |z| == n && forall i :: 0 <= i < n ==> z[i] == 0
  {
    seq(n, _ => 0)
  }

  /** `np.zeros((rows, cols))` as a list of rows. */
  function ZeroPlane(rows: nat, cols: nat): (p: seq<seq<int>>)
    ensures |p| == rows && forall i :: 0 <= i < rows ==> p[i] == Zeros(cols)
  {
    seq(rows, _ => Zeros(cols))
  }

  /** `v` is zero everywhere except for a single 1 at position `k`. */
  predicate OneHot(v: seq<int>, k: nat)
  {
    k < |v| && forall i :: 0 <= i < |v| ==> v[i] == if i == k then 1 else 0
  }

  predicate AllZero(v: seq<int>)
  {
    forall i :: 0 <= i < |v| ==> v[i] == 0
  }

  /** Python's reading of `i` as a position in a vector of length `n`: a
      negative `i` counts from the end; None is the IndexError. */
  function PyIndex(i: int, n: nat): (k: Option<nat>)
    ensures k.Some? <==> -(n as int) <= i < n
    ensures k.Some? ==> k.value < n && k.value == (if i < 0 then i + n else i)
  {
    if 0 <= i < n then Some(i)
    else if -(n as int) <= i < 0 then Some(i + n)
    else None
  }

  /** `np.zeros(n)` with a 1 written at position `i` (Python indexing). */
  function OneHotAt(n: nat, i: int): (v: Option<seq<int>>)
    ensures v.Some? <==> PyIndex(i, n).Some?
    ensures v.Some? ==> |v.value| == n && OneHot(v.value, PyIndex(i, n).value)
  {
    var k :- PyIndex(i, n);
    Some(Zeros(n)[k := 1])
  }

  /** A plane whose rows all have `cols` entries. */
  predicate Rectangular(p: seq<seq<int>>, cols: nat)
  {
    forall i :: 0 <= i < |p| ==> |p[i]| == cols
  }

  /** `plane.flatten()`: the rows one after the other (row-major order). */
  function Flatten(p: seq<seq<int>>): seq<int>
  {
    if p == [] then [] else p[0] + Flatten(p[1..])
  }

  lemma {:induction false} FlattenLength(p: seq<seq<int>>, cols: nat)
    requires Rectangular(p, cols)
    ensures |Flatten(p)| == |p| * cols
  {
    if p != [] {
      FlattenLength(p[1..], cols);
    }
  }

  lemma MulSucc(i: nat, cols: nat)
    ensures (i + 1) * cols == i * cols + cols
  {
  }

  /** Entry (i, j) of a plane lands at position i * cols + j of its flattening. */
  lemma {:induction false} FlattenIndex(p: seq<seq<int>>, cols: nat, i: nat, j: nat)
    requires Rectangular(p, cols) && i < |p| && j < cols
    ensures |Flatten(p)| == |p| * cols
    ensures i * cols + j < |Flatten(p)| && Flatten(p)[i * cols + j] == p[i][j]
  {
    FlattenLength(p, cols);
    if i > 0 {
      FlattenIndex(p[1..], cols, i - 1, j);
      MulSucc(i - 1, cols);
      FlattenLength(p[1..], cols);
      var m := (i - 1) * cols + j;
      assert Flatten(p) == p[0] + Flatten(p[1..]);
      assert Flatten(p)[cols + m] == Flatten(p[1..])[m];
    }
  }

  /** A plane that is zero except for one 1 in row i, column j flattens to a
      one-hot vector at i * cols + j. */
  lemma {:induction false} FlattenOneHot(p: seq<seq<int>>, cols: nat, i: nat, j: nat)
    requires Rectangular(p, cols) && i < |p| && j < cols
    requires forall r :: 0 <= r < |p| && r != i ==> AllZero(p[r])
    requires OneHot(p[i], j)
    ensures |Flatten(p)| == |p| * cols && OneHot(Flatten(p), i * cols + j)
  {
    FlattenLength(p, cols);
    if i == 0 {
      FlattenZero(p[1..], cols);
    } else {
      FlattenOneHot(p[1..], cols, i - 1, j);
      MulSucc(i - 1, cols);
    }
  }

  /** A plane of zeros flattens to zeros. */
  lemma {:induction false} FlattenZero(p: seq<seq<int>>, cols: nat)
    requires Rectangular(p, cols)
    requires forall r :: 0 <= r < |p| ==> AllZero(p[r])
    ensures |Flatten(p)| == |p| * cols && AllZero(Flatten(p))
  {
    FlattenLength(p, cols);
    if p != [] {
      FlattenZero(p[1..], cols);
    }
  }

  /** `np.zeros((rows, cols)).flatten()`. */
  lemma ZeroPlaneFlat(rows: nat, cols: nat)
    ensures Flatten(ZeroPlane(rows, cols)) == Zeros(rows * cols)
  {
    FlattenZero(ZeroPlane(rows, cols), cols);
  }

  /** A zero plane with one cell set to 1 flattens to a one-hot vector. */
  lemma OneHotPlane(rows: nat, cols: nat, i: nat, j: nat)
    requires i < rows && j < cols
    ensures var p := ZeroPlane(rows, cols);
            var f := Flatten(p[i := p[i][j := 1]]);
            |f| == rows * cols && OneHot(f, i * cols + j)
  {
    var p := ZeroPlane(rows, cols);
    FlattenOneHot(p[i := p[i][j := 1]], cols, i, j);
  }

  /** Zeros followed by a one-hot vector is one-hot further on. */
  lemma OneHotAfterZeros(a: seq<int>, b: seq<int>, k: nat)
    requires AllZero(a) && OneHot(b, k)
    ensures OneHot(a + b, |a| + k)
  {
  }

  /** A one-hot vector followed by zeros stays one-hot. */
  lemma OneHotBeforeZeros(a: seq<int>, b: seq<int>, k: nat)
    requires OneHot(a, k) && AllZero(b)
    ensures OneHot(a + b, k)
  {
  }

  /** Two one-hot vectors of the same length are equal only when their 1 is at
      the same place; a one-hot vector is never all zeros. */
  lemma OneHotDistinct(a: seq<int>, b: seq<int>, i: nat, j: nat)
    requires OneHot(a, i) && OneHot(b, j) && |a| == |b|
    ensures a == b <==> i == j
    ensures !AllZero(a)
  {
    if i != j {
      assert a[i] != b[i];
    }
    assert a[i] == 1;
  }
}
