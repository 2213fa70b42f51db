/** A value model of the dense arrays the engine computes with (numpy's ndarray).
    It keeps only what the engine relies on: a shape, the elements in row-major
    order, elementwise arithmetic with broadcasting over leading axes, the
    reduction over the first axis, the total, and matrix products of one- and
    two-dimensional arrays.  Elements are mathematical reals, not floats. */
module Tensors {

  type Shape = seq<nat>

  /** Number of elements of an array of the given shape. */
  function Size(shape: Shape): nat
  {
    if shape == [] then 1 else shape[0] * Size(shape[1..])
  }

  datatype Tensor = Tensor(shape: Shape, vals: seq<real>)

  /** The element count matches the shape.  numpy arrays always satisfy
      this; the operations below keep it, and treat an array that breaks
      it as a shape error. */
  predicate Valid(t: Tensor)
  {
    |t.vals| == Size(t.shape)
  }

  /** What the model yields where numpy would raise a shape error: an empty
      array, itself valid. */
  const ShapeError: Tensor := Tensor([0], [])

  function Plus(x: real, y: real): real { x + y }

  function Times(x: real, y: real): real { x * y }

  /** A zero-dimensional array, as `np.array(x)`. */
  function Scalar(x: real): (r: Tensor)
    ensures r.shape == [] && r.vals == [x] && Valid(r)
  {
    Tensor([], [x])
  }

  /** An array of the given shape with every element `x` (`np.ones_like` for x = 1). */
  function Fill(shape: Shape, x: real): (r: Tensor)
    ensures r.shape == shape && Valid(r)
    ensures forall i :: 0 <= i < |r.vals| ==> r.vals[i] == x
  {
    Tensor(shape, seq(Size(shape), _ => x))
  }

  /** Applies `f` to every element. */
  function Map(t: Tensor, f: real -> real): (r: Tensor)
    ensures r.shape == t.shape && |r.vals| == |t.vals|
    ensures forall i :: 0 <= i < |t.vals| ==> r.vals[i] == f(t.vals[i])
  {
    Tensor(t.shape, seq(|t.vals|, i requires 0 <= i < |t.vals| => f(t.vals[i])))
  }

  predicate IsSuffix(a: Shape, b: Shape)
  {
    |a| <= |b| && b[|b| - |a|..] == a
  }

  /** numpy broadcasting restricted to the case the engine handles: one shape
      is a trailing part of the other (a scalar broadcasts against anything). */
  predicate Broadcastable(x: Shape, y: Shape)
  {
    IsSuffix(x, y) || IsSuffix(y, x)
  }

  function BroadcastShape(x: Shape, y: Shape): Shape
  {
    if |x| <= |y| then y else x
  }

  lemma {:induction false} SizeConcat(p: Shape, q: Shape)
    ensures Size(p + q) == Size(p) * Size(q)
  {
    if p != [] {
      assert (p + q)[0] == p[0] && (p + q)[1..] == p[1..] + q;
      SizeConcat(p[1..], q);
      calc {
        Size(p + q);
        p[0] * Size(p[1..] + q);
        p[0] * (Size(p[1..]) * Size(q));
        (p[0] * Size(p[1..])) * Size(q);
      }
    } else {
      assert p + q == q;
    }
  }

  /** An array of shape `b` ending in shape `a` has no elements when `a` has none. */
  lemma SuffixSize(a: Shape, b: Shape)
    requires IsSuffix(a, b)
    ensures Size(a) == 0 ==> Size(b) == 0
  {
    assert b == b[..|b| - |a|] + a;
    SizeConcat(b[..|b| - |a|], a);
  }

  lemma BroadcastShapeOf(x: Shape, y: Shape)
    requires Broadcastable(x, y)
    ensures IsSuffix(x, BroadcastShape(x, y)) && IsSuffix(y, BroadcastShape(x, y))
  {
    if |x| <= |y| && IsSuffix(y, x) {
      assert x == y by { assert x[|x| - |y|..] == x[0..] == x; }
    }
    if |y| < |x| {
      assert !IsSuffix(x, y);
    }
  }

  /** Broadcasts `t` over extra leading axes: in row-major order the element at
      index i of the result is the element at index i mod |t| of `t`. */
  function Expand(t: Tensor, shape: Shape): (r: Tensor)
    requires IsSuffix(t.shape, shape) && Valid(t)
    ensures r.shape == shape && Valid(r)
    ensures forall i :: 0 <= i < |r.vals| ==> |t.vals| > 0 && r.vals[i] == t.vals[i % |t.vals|]
  {
    SuffixSize(t.shape, shape);
    Tensor(shape, seq(Size(shape), i requires 0 <= i < Size(shape) => t.vals[i % |t.vals|]))
  }

  /** `f` applied to the elements at the same position of two equally long
      sequences. */
  function ZipVals(u: seq<real>, v: seq<real>, f: (real, real) -> real): (r: seq<real>)
    requires |u| == |v|
    ensures |r| == |u|
    ensures forall i :: 0 <= i < |u| ==> r[i] == f(u[i], v[i])
  {
    seq(|u|, i requires 0 <= i < |u| => f(u[i], v[i]))
  }

  /** Elementwise binary operation with broadcasting (`x + y`, `x * y`, ...). */
  function Zip(x: Tensor, y: Tensor, f: (real, real) -> real): (r: Tensor)
    ensures Valid(r)
  {
    if Broadcastable(x.shape, y.shape) && Valid(x) && Valid(y) then
      var s := BroadcastShape(x.shape, y.shape);
      BroadcastShapeOf(x.shape, y.shape);
      var ex, ey := Expand(x, s), Expand(y, s);
      Tensor(s, ZipVals(ex.vals, ey.vals, f))
    else
      ShapeError
  }

  /** What elementwise arithmetic computes, element by element. */
  lemma ZipAt(x: Tensor, y: Tensor, f: (real, real) -> real)
    requires Broadcastable(x.shape, y.shape) && Valid(x) && Valid(y)
    ensures Zip(x, y, f).shape == BroadcastShape(x.shape, y.shape)
    ensures forall i :: 0 <= i < |Zip(x, y, f).vals| ==>
      |x.vals| > 0 && |y.vals| > 0 &&
      Zip(x, y, f).vals[i] == f(x.vals[i % |x.vals|], y.vals[i % |y.vals|])
  {
    BroadcastShapeOf(x.shape, y.shape);
    var s := BroadcastShape(x.shape, y.shape);
    var ex, ey := Expand(x, s), Expand(y, s);
    assert Zip(x, y, f) == Tensor(s, ZipVals(ex.vals, ey.vals, f));
    if Size(s) > 0 {
      SuffixSize(x.shape, s);
      SuffixSize(y.shape, s);
      ZipValsCycles(x.vals, y.vals, ex.vals, ey.vals, f);
    }
  }

  /** Combining two sequences that repeat `xv` and `yv` cyclically combines
      `xv` and `yv` cyclically. */
  lemma ZipValsCycles(xv: seq<real>, yv: seq<real>, u: seq<real>, v: seq<real>, f: (real, real) -> real)
    requires |u| == |v| && |xv| > 0 && |yv| > 0
    requires forall i :: 0 <= i < |u| ==> u[i] == xv[i % |xv|]
    requires forall i :: 0 <= i < |v| ==> v[i] == yv[i % |yv|]
    ensures forall i :: 0 <= i < |u| ==> ZipVals(u, v, f)[i] == f(xv[i % |xv|], yv[i % |yv|])
  {
  }

  /** Elementwise arithmetic takes the broadcast shape, and fails on operands
      that do not broadcast. */
  lemma ZipShape(x: Tensor, y: Tensor, f: (real, real) -> real)
    ensures Broadcastable(x.shape, y.shape) && Valid(x) && Valid(y) ==> Zip(x, y, f).shape == BroadcastShape(x.shape, y.shape)
    ensures !(Broadcastable(x.shape, y.shape) && Valid(x) && Valid(y)) ==> Zip(x, y, f) == ShapeError
  {
  }

  /** Arithmetic between two arrays of the same shape is plain elementwise. */
  lemma ZipSameShape(x: Tensor, y: Tensor, f: (real, real) -> real)
    requires x.shape == y.shape && Valid(x) && Valid(y)
    ensures Zip(x, y, f).shape == x.shape
    ensures forall i :: 0 <= i < |x.vals| ==> Zip(x, y, f).vals[i] == f(x.vals[i], y.vals[i])
  {
    assert IsSuffix(x.shape, y.shape) by { assert y.shape[0..] == y.shape; }
    ZipAt(x, y, f);
    forall i | 0 <= i < |x.vals|
      ensures Zip(x, y, f).vals[i] == f(x.vals[i], y.vals[i])
    {
      ModBelow(i, |x.vals|);
    }
  }

  function Total(v: seq<real>): real
  {
    if v == [] then 0.0 else v[0] + Total(v[1..])
  }

  lemma {:induction false} TotalConcat(a: seq<real>, b: seq<real>)
    ensures Total(a + b) == Total(a) + Total(b)
  {
    if a != [] {
      assert (a + b)[0] == a[0] && (a + b)[1..] == a[1..] + b;
      TotalConcat(a[1..], b);
      calc {
        Total(a + b);
        a[0] + Total(a[1..] + b);
        a[0] + Total(a[1..]) + Total(b);
      }
    } else {
      assert a + b == b;
    }
  }

  function AddVals(a: seq<real>, b: seq<real>): (r: seq<real>)
    requires |a| == |b|
    ensures |r| == |a|
  {
    seq(|a|, i requires 0 <= i < |a| => a[i] + b[i])
  }

  lemma {:induction false} TotalAddVals(a: seq<real>, b: seq<real>)
    requires |a| == |b|
    ensures Total(AddVals(a, b)) == Total(a) + Total(b)
  {
    if a != [] {
      assert AddVals(a, b)[1..] == AddVals(a[1..], b[1..]);
      TotalAddVals(a[1..], b[1..]);
    }
  }

  lemma {:induction false} TotalZeros(m: nat)
    ensures Total(seq(m, _ => 0.0)) == 0.0
  {
    if m > 0 {
      assert seq(m, _ => 0.0)[1..] == seq(m - 1, _ => 0.0);
      TotalZeros(m - 1);
    }
  }

  /** Sums `n` consecutive blocks of `m` elements elementwise. */
  function SumBlocks(v: seq<real>, n: nat, m: nat): (r: seq<real>)
    requires |v| == n * m
    ensures |r| == m
    ensures Total(r) == Total(v)
    decreases n
  {
    if n == 0 then
      TotalZeros(m);
      seq(m, _ => 0.0)
    else
      assert n * m == m + (n - 1) * m;
      var rest := SumBlocks(v[m..], n - 1, m);
      TotalAddVals(v[..m], rest);
      TotalConcat(v[..m], v[m..]);
      assert v == v[..m] + v[m..];
      AddVals(v[..m], rest)
  }

  /** `t.sum(axis=0)`: removes the first axis by summation; a
      zero-dimensional array has no axis 0. */
  function SumAxis0(t: Tensor): (r: Tensor)
    ensures Valid(r)
    ensures Valid(t) && |t.shape| >= 1 ==> r.shape == t.shape[1..] && Total(r.vals) == Total(t.vals)
  {
    if Valid(t) && |t.shape| >= 1 then
      Tensor(t.shape[1..], SumBlocks(t.vals, t.shape[0], Size(t.shape[1..])))
    else
      ShapeError
  }

  /** Column j of n blocks is the first block's entry j followed by column j
      of the remaining n - 1 blocks. */
  lemma ColumnTail(v: seq<real>, j: nat, n: nat, m: nat)
    requires |v| == n * m && j < m && n > 0
    ensures |v[m..]| == (n - 1) * m
    ensures Column(v, j, n, m) == [v[j]] + Column(v[m..], j, n - 1, m)
  {
    assert n * m == m + (n - 1) * m;
    var col, rest := Column(v, j, n, m), Column(v[m..], j, n - 1, m);
    forall t | 0 <= t < n - 1
      ensures col[t + 1] == rest[t]
    {
      assert (t + 1) * m + j == m + (t * m + j);
    }
  }

  /** Entry j of the block sum adds up column j: the j-th element of every block. */
  lemma {:induction false} SumBlocksAt(v: seq<real>, n: nat, m: nat, j: nat)
    requires |v| == n * m && j < m
    ensures SumBlocks(v, n, m)[j] == Total(Column(v, j, n, m))
    decreases n
  {
    if n > 0 {
      ColumnTail(v, j, n, m);
      var rest := SumBlocks(v[m..], n - 1, m);
      assert SumBlocks(v, n, m) == AddVals(v[..m], rest);
      SumBlocksAt(v[m..], n - 1, m, j);
    }
  }

  /** Entry j of `t.sum(axis=0)` is the sum of the entries at position j of
      every slice `t[i]` along the first axis. */
  lemma SumAxis0At(t: Tensor, j: nat)
    requires Valid(t) && |t.shape| >= 1 && j < Size(t.shape[1..])
    ensures |t.vals| == t.shape[0] * Size(t.shape[1..])
    ensures SumAxis0(t).vals[j] == Total(Column(t.vals, j, t.shape[0], Size(t.shape[1..])))
  {
    SumBlocksAt(t.vals, t.shape[0], Size(t.shape[1..]), j);
  }

  /** `np.sum(t)`: the total as a zero-dimensional array. */
  function SumAll(t: Tensor): (r: Tensor)
    ensures r.shape == [] && r.vals == [Total(t.vals)] && Valid(r)
  {
    Scalar(Total(t.vals))
  }

  function Dot(u: seq<real>, w: seq<real>): real
    requires |u| == |w|
  {
    if u == [] then 0.0 else u[0] * w[0] + Dot(u[1..], w[1..])
  }

  lemma MulStep(i: nat, n: nat, k: nat)
    requires i < n
    ensures i * k + k <= n * k
  {
    var d := n - i - 1;
    assert n * k == i * k + k + d * k;
  }

  lemma ModBelow(i: int, n: int)
    requires 0 <= i < n
    ensures i % n == i
  {
  }

  lemma SizeOne(x: nat)
    ensures Size([x]) == x
  {
    assert [x][1..] == [];
  }

  lemma SizeTwo(x: nat, y: nat)
    ensures Size([x, y]) == x * y
  {
    assert [x, y][1..] == [y];
    SizeOne(y);
  }

  /** Column `j` of a k-by-m matrix stored row-major. */
  function Column(b: seq<real>, j: nat, k: nat, m: nat): (r: seq<real>)
    requires j < m && |b| == k * m
    ensures |r| == k
  {
    seq(k, t requires 0 <= t < k => (MulStep(t, k, m); b[t * m + j]))
  }

  /** Position q of a row-major n-by-m matrix is row q / m, column q % m. */
  lemma QuotBelow(q: nat, n: nat, m: nat)
    requires q < n * m
    ensures m > 0 && q / m < n && q % m < m
  {
    var d := q / m;
    if d >= n { MulStep(n, d + 1, m); }
  }

  /** Row i, column j of a row-major matrix with m columns is position i * m + j. */
  lemma DivModOf(i: nat, j: nat, m: nat)
    requires j < m
    ensures (i * m + j) / m == i && (i * m + j) % m == j
  {
    var q := i * m + j;
    var d := q / m;
    if d > i { MulStep(i, d, m); }
    if d < i { MulStep(d, i, m); }
  }

  /** The n-by-m product of an n-by-k and a k-by-m matrix, row-major. */
  function MatRows(a: seq<real>, b: seq<real>, n: nat, k: nat, m: nat): (r: seq<real>)
    requires |a| == n * k && |b| == k * m
    ensures |r| == n * m
  {
    seq(n * m, q requires 0 <= q < n * m =>
      QuotBelow(q, n, m);
      MulStep(q / m, n, k);
      Dot(a[q / m * k..q / m * k + k], Column(b, q % m, k, m)))
  }

  /** Entry (i, j) of the product is row i of `a` times column j of `b`. */
  lemma MatRowsAt(a: seq<real>, b: seq<real>, n: nat, k: nat, m: nat, i: nat, j: nat)
    requires |a| == n * k && |b| == k * m && i < n && j < m
    ensures i * m + j < n * m && i * k + k <= |a|
    ensures MatRows(a, b, n, k, m)[i * m + j] == Dot(a[i * k..i * k + k], Column(b, j, k, m))
  {
    MulStep(i, n, m);
    MulStep(i, n, k);
    DivModOf(i, j, m);
  }

  /** The shape of an operand of `@` seen as a matrix: a one-dimensional left
      operand is a single row, a one-dimensional right operand a single column. */
  function AsMatrix(shape: Shape, left: bool): (r: (nat, nat))
    requires 1 <= |shape| <= 2
    ensures Size(shape) == r.0 * r.1
  {
    if |shape| == 2 then
      assert shape == [shape[0], shape[1]];
      SizeTwo(shape[0], shape[1]);
      (shape[0], shape[1])
    else
      assert shape == [shape[0]];
      SizeOne(shape[0]);
      if left then (1, shape[0]) else (shape[0], 1)
  }

  /** `a @ b` for one- and two-dimensional operands, as numpy's matmul: the axes
      added to one-dimensional operands are dropped from the result. */
  function MatProduct(a: Tensor, b: Tensor): (r: Tensor)
    ensures Valid(r)
    ensures Valid(a) && Valid(b) && |a.shape| == 2 && |b.shape| == 2 && a.shape[1] == b.shape[0] ==>
      r.shape == [a.shape[0], b.shape[1]]
    ensures Valid(a) && Valid(b) && |a.shape| == 2 && |b.shape| == 2 && a.shape[1] != b.shape[0] ==>
      r == ShapeError
  {
    if 1 <= |a.shape| <= 2 && 1 <= |b.shape| <= 2 && Valid(a) && Valid(b) then
      var (n, k) := AsMatrix(a.shape, true);
      var (k', m) := AsMatrix(b.shape, false);
      if k != k' then ShapeError
      else
        var shape := (if |a.shape| == 2 then [n] else []) + (if |b.shape| == 2 then [m] else []);
        SizeOne(n);
        SizeOne(m);
        SizeTwo(n, m);
        assert Size(shape) == n * m;
        Tensor(shape, MatRows(a.vals, b.vals, n, k, m))
    else
      ShapeError
  }

  /** Entry (i, j) of a matrix product: the dot product of row i of `a`
      and column j of `b`, stored at row-major position i * m + j. */
  lemma MatProductAt(a: Tensor, b: Tensor, i: nat, j: nat)
    requires Valid(a) && Valid(b) && |a.shape| == 2 && |b.shape| == 2 && a.shape[1] == b.shape[0]
    requires i < a.shape[0] && j < b.shape[1]
    ensures var n, k, m := a.shape[0], a.shape[1], b.shape[1];
      && |a.vals| == n * k && |b.vals| == k * m && i * k + k <= n * k
      && i * m + j < |MatProduct(a, b).vals|
      && MatProduct(a, b).vals[i * m + j] == Dot(a.vals[i * k..i * k + k], Column(b.vals, j, k, m))
  {
    var n, k, m := a.shape[0], a.shape[1], b.shape[1];
    assert a.shape == [n, k] && b.shape == [k, m];
    SizeTwo(n, k);
    SizeTwo(k, m);
    assert AsMatrix(a.shape, true) == (n, k) && AsMatrix(b.shape, false) == (k, m);
    MatRowsAt(a.vals, b.vals, n, k, m, i, j);
  }

  /** The m-by-n transpose of a row-major n-by-m matrix: position q of
      the result is row q / n, column q % n of it, which is entry
      (q % n, q / n) of the matrix. */
  function Transpose(v: seq<real>, n: nat, m: nat): (r: seq<real>)
    requires |v| == n * m
    ensures |r| == m * n
  {
    seq(m * n, q requires 0 <= q < m * n =>
      QuotBelow(q, m, n);
      var i, j := q % n, q / n;
      MulStep(i, n, m);
      v[i * m + j])
  }

  /** Entry (j, i) of the transpose is entry (i, j) of the matrix. */
  lemma TransposeAt(v: seq<real>, n: nat, m: nat, i: nat, j: nat)
    requires |v| == n * m && i < n && j < m
    ensures i * m + j < |v| && j * n + i < m * n
    ensures Transpose(v, n, m)[j * n + i] == v[i * m + j]
  {
    MulStep(i, n, m);
    MulStep(j, m, n);
    DivModOf(j, i, n);
  }

  /** `t.T` for arrays of at most two dimensions. */
  function Transposed(t: Tensor): (r: Tensor)
    ensures Valid(r)
    ensures Valid(t) && |t.shape| == 2 ==> r.shape == [t.shape[1], t.shape[0]]
    ensures Valid(t) && |t.shape| <= 1 ==> r == t
  {
    if !Valid(t) then ShapeError
    else if |t.shape| <= 1 then t
    else if |t.shape| == 2 then
      var n, m := t.shape[0], t.shape[1];
      SizeTwo(m, n);
      SizeTwo(n, m);
      assert t.shape == [n, m];
      Tensor([m, n], Transpose(t.vals, n, m))
    else
      ShapeError
  }

  /** Entry (j, i) of the transpose is entry (i, j) of the matrix. */
  lemma TransposedAt(t: Tensor, i: nat, j: nat)
    requires Valid(t) && |t.shape| == 2 && i < t.shape[0] && j < t.shape[1]
    ensures var n, m := t.shape[0], t.shape[1];
      && i * m + j < |t.vals| && j * n + i < |Transposed(t).vals|
      && Transposed(t).vals[j * n + i] == t.vals[i * m + j]
  {
    var n, m := t.shape[0], t.shape[1];
    assert t.shape == [n, m];
    SizeTwo(n, m);
    TransposeAt(t.vals, n, m, i, j);
  }
}
