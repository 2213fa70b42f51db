/** The operator family of the engine (tensorflood/engine/Operator.py): the
    shape adaptation applied to gradients of broadcast inputs, and the forward
    value and backward rule of each of the ten operator variants.  Forward and
    backward rules are pure functions of an operator's cached input values;
    natural logarithm, exponential and real power are not interpreted: they are
    fields of a `Numerics` value the caller supplies. */
module Operators {
  import opened Tensors

  datatype OpKind = Add | Multiply | Divide | Power | MatMul | Neg | Log | Sum | Relu | Sigmoid

  /** Number of input nodes the variant's `forward` takes. */
  function Arity(op: OpKind): nat
  {
    match op
    case Add | Multiply | Divide | Power | MatMul => 2
    case Neg | Log | Sum | Relu | Sigmoid => 1
  }

  /** The elementary functions numpy evaluates and the model leaves uninterpreted,
      and the value numpy produces for a division by zero (an infinity or NaN). */
  datatype Numerics = Numerics(
    ln: real -> real,
    exp: real -> real,
    pow: (real, real) -> real,
    overZero: real -> real)

  function Quotient(nm: Numerics, x: real, y: real): real
  {
    if y == 0.0 then nm.overZero(x) else x / y
  }

  function Negate(x: real): real { -x }

  function Decrement(x: real): real { x - 1.0 }

  function Complement(x: real): real { 1.0 - x }

  /** Elementwise `x / y` as a function value. */
  function Over(nm: Numerics): (real, real) -> real
  {
    (x, y) => Quotient(nm, x, y)
  }

  /** Elementwise `1 / x` as a function value. */
  function Reciprocal(nm: Numerics): real -> real
  {
    x => Quotient(nm, 1.0, x)
  }

  /** Elementwise sigmoid as a function value. */
  function Sigma(nm: Numerics): real -> real
  {
    x => Logistic(nm, x)
  }

  function Step(x: real): real { if x > 0.0 then 1.0 else 0.0 }

  function Square(x: real): real { x * x }

  /** `1. / (1. + np.exp(-x))` */
  function Logistic(nm: Numerics, x: real): real
  {
    Quotient(nm, 1.0, 1.0 + nm.exp(-x))
  }

  /** `a > 0` used as a number: 1 where the element is positive, 0 elsewhere. */
  function Positive(a: Tensor): Tensor
  {
    Map(a, Step)
  }

  // ---------------------------------------------------------------------------
  // adapt_grad_shape

  /** How many leading axes `adapt_grad_shape` sums away: `grad.ndim - data.ndim`
      when positive (a `range` of a negative count is empty). */
  function ExtraAxes(g: Tensor, d: Tensor): nat
  {
    if |g.shape| > |d.shape| then |g.shape| - |d.shape| else 0
  }

  /** `g` with its first `k` axes summed away, one `sum(axis=0)` at a time. */
  function SumLeading(g: Tensor, k: nat): (r: Tensor)
    requires k <= |g.shape|
    ensures Valid(g) ==> Valid(r) && r.shape == g.shape[k..] && Total(r.vals) == Total(g.vals)
  {
    if k == 0 then g else SumAxis0(SumLeading(g, k - 1))
  }

  /** The gradient `g` adapted to the shape of a node's data `d`: the extra
      leading axes are removed by summation, the trailing shape is kept, the
      total of the entries is kept, and nothing happens when `g` has no more
      axes than `d`. */
  function Adapted(g: Tensor, d: Tensor): (r: Tensor)
    ensures Valid(g) ==> Valid(r) && r.shape == g.shape[ExtraAxes(g, d)..]
    ensures Valid(g) ==> |r.shape| == if |g.shape| <= |d.shape| then |g.shape| else |d.shape|
    ensures Valid(g) ==> Total(r.vals) == Total(g.vals)
    ensures |g.shape| <= |d.shape| ==> r == g
  {
    SumLeading(g, ExtraAxes(g, d))
  }

  /** `adapt_grad_shape(grad, node_data)`: a loop that reassigns `grad`. */
  method AdaptGradShape(grad: Tensor, nodeData: Tensor) returns (r: Tensor)
    ensures r == Adapted(grad, nodeData)
  {
    var n := |grad.shape| - |nodeData.shape|;
    r := grad;
    var i := 0;
    while i < n
      invariant 0 <= i <= ExtraAxes(grad, nodeData)
      invariant r == SumLeading(grad, i)
    {
      r := SumAxis0(r);
      i := i + 1;
    }
  }

  /** Adapting twice is adapting once. */
  lemma AdaptedIdempotent(g: Tensor, d: Tensor)
    requires Valid(g)
    ensures Adapted(Adapted(g, d), d) == Adapted(g, d)
  {
  }

  /** A gradient whose shape ends in the data's shape is brought to exactly that shape. */
  lemma AdaptedToSuffix(g: Tensor, d: Tensor)
    requires IsSuffix(d.shape, g.shape) && Valid(g)
    ensures Adapted(g, d).shape == d.shape
  {
  }

  // ---------------------------------------------------------------------------
  // forward

  /** `forward(*input_data)` of each variant. */
  function Forward(nm: Numerics, op: OpKind, xs: seq<Tensor>): Tensor
    requires |xs| == Arity(op)
  {
    match op
    case Add => Zip(xs[0], xs[1], Plus)
    case Multiply => Zip(xs[0], xs[1], Times)
    case Divide => Zip(xs[0], xs[1], Over(nm))
    case Power => Zip(xs[0], xs[1], nm.pow)
    case MatMul => MatProduct(xs[0], xs[1])
    case Neg => Map(xs[0], Negate)
    case Log => Map(xs[0], nm.ln)
    case Sum => SumAll(xs[0])
    case Relu => Zip(xs[0], Positive(xs[0]), Times)
    case Sigmoid => Map(xs[0], Sigma(nm))
  }

  /** The shape of each variant's forward result: the elementwise binary
      variants take numpy's broadcast shape and fail on shapes that do not
      broadcast, the elementwise unary variants keep the input's shape, `sum`
      yields a zero-dimensional total and `matmul` of an n-by-k and a k-by-m
      matrix is n-by-m (and fails when the inner sizes differ). */
  lemma ForwardShapes(nm: Numerics, op: OpKind, xs: seq<Tensor>)
    requires |xs| == Arity(op)
    ensures AllValid(xs) ==> Valid(Forward(nm, op, xs))
    ensures Arity(op) == 2 && op != MatMul && Valid(xs[0]) && Valid(xs[1]) && Broadcastable(xs[0].shape, xs[1].shape) ==>
      Forward(nm, op, xs).shape == BroadcastShape(xs[0].shape, xs[1].shape)
    ensures Arity(op) == 2 && op != MatMul && !(Valid(xs[0]) && Valid(xs[1]) && Broadcastable(xs[0].shape, xs[1].shape)) ==>
      Forward(nm, op, xs) == ShapeError
    ensures op == Neg || op == Log || op == Sigmoid ==>
      Forward(nm, op, xs).shape == xs[0].shape && |Forward(nm, op, xs).vals| == |xs[0].vals|
    ensures op == Relu && Valid(xs[0]) ==> Forward(nm, op, xs).shape == xs[0].shape
    ensures op == Sum ==> Forward(nm, op, xs).shape == [] && Forward(nm, op, xs).vals == [Total(xs[0].vals)]
    ensures op == MatMul && Valid(xs[0]) && Valid(xs[1]) && |xs[0].shape| == 2 && |xs[1].shape| == 2 ==>
      if xs[0].shape[1] == xs[1].shape[0] then Forward(nm, op, xs).shape == [xs[0].shape[0], xs[1].shape[1]]
      else Forward(nm, op, xs) == ShapeError
  {
    match op
    case Add => ZipShape(xs[0], xs[1], Plus);
    case Multiply => ZipShape(xs[0], xs[1], Times);
    case Divide => ZipShape(xs[0], xs[1], Over(nm));
    case Power => ZipShape(xs[0], xs[1], nm.pow);
    case Relu =>
      SuffixRefl(xs[0].shape);
      ZipShape(xs[0], Positive(xs[0]), Times);
    case _ =>
  }

  // ---------------------------------------------------------------------------
  // backward

  /** What `backward_` returns: a one-input variant returns one array, a
      two-input variant a pair, one entry per input. */
  datatype Grads = Single(g: Tensor) | Pair(ga: Tensor, gb: Tensor)

  function GradShapes(r: Grads): seq<Shape>
  {
    match r
    case Single(g) => [g.shape]
    case Pair(ga, gb) => [ga.shape, gb.shape]
  }

  /** `backward_(grad)` of each variant.  `inputData` is the operator's cached
      `input_data`; `current` is the `data` its input nodes hold now, whose
      shapes `adapt_grad_shape` reads.  Multiply and divide are stated as
      intended: each input's contribution is reduced to that input's shape
      (the code as written is `MultiplyBackwardAsWritten` and
      `DivideBackwardAsWritten`). */
  function Backward(nm: Numerics, op: OpKind, inputData: seq<Tensor>, current: seq<Tensor>, g: Tensor): (r: Grads)
    requires |inputData| == Arity(op) && |current| == Arity(op)
    ensures r.Single? <==> Arity(op) == 1
  {
    var a := inputData[0];
    match op
    case Add =>
      Pair(Adapted(g, current[0]), Adapted(g, current[1]))
    case Multiply =>
      var b := inputData[1];
      Pair(Adapted(Zip(g, b, Times), current[0]), Adapted(Zip(g, a, Times), current[1]))
    case Divide =>
      var b := inputData[1];
      Pair(Adapted(Zip(g, b, Over(nm)), current[0]),
           Adapted(Zip(Zip(g, Map(a, Negate), Times), Map(b, Square), Over(nm)), current[1]))
    case Power =>
      var b := inputData[1];
      Pair(Zip(Zip(g, b, Times), Zip(a, Map(b, Decrement), nm.pow), Times),
           Zip(Zip(g, Map(a, nm.ln), Times), Zip(a, b, nm.pow), Times))
    case MatMul =>
      var b := inputData[1];
      Pair(MatProduct(g, Transposed(b)), MatProduct(Transposed(a), g))
    case Neg => Single(Zip(Map(g, Negate), Fill(a.shape, 1.0), Times))
    case Log => Single(Zip(Map(a, Reciprocal(nm)), g, Times))
    case Sum => Single(Zip(g, Fill(a.shape, 1.0), Times))
    case Relu => Single(Zip(g, Positive(a), Times))
    case Sigmoid =>
      var s := Map(a, Sigma(nm));
      Single(Zip(Zip(g, s, Times), Map(s, Complement), Times))
  }

  /** multiply.backward_ as written: the contribution for `a` is the gradient
      adapted to `b`'s shape times `b`, and the one for `b` the gradient adapted
      to `a`'s shape times `a`. */
  function MultiplyBackwardAsWritten(inputData: seq<Tensor>, current: seq<Tensor>, g: Tensor): (r: Grads)
    requires |inputData| == 2 && |current| == 2
    ensures r.Pair?
  {
    var a, b := inputData[0], inputData[1];
    Pair(Zip(Adapted(g, current[1]), b, Times), Zip(Adapted(g, current[0]), a, Times))
  }

  /** divide.backward_ as written: each gradient is adapted before it is
      combined with the other operand, so the product is broadcast back up. */
  function DivideBackwardAsWritten(nm: Numerics, inputData: seq<Tensor>, current: seq<Tensor>, g: Tensor): (r: Grads)
    requires |inputData| == 2 && |current| == 2
    ensures r.Pair?
  {
    var a, b := inputData[0], inputData[1];
    Pair(Zip(Adapted(g, current[0]), b, Over(nm)),
         Zip(Zip(Adapted(g, current[1]), Map(a, Negate), Times), Map(b, Square), Over(nm)))
  }

  /** `backward_` as the code computes it: multiply and divide by their
      written rules, every other variant by the rule above. */
  function BackwardAsWritten(nm: Numerics, op: OpKind, inputData: seq<Tensor>, current: seq<Tensor>, g: Tensor): (r: Grads)
    requires |inputData| == Arity(op) && |current| == Arity(op)
    ensures r.Single? <==> Arity(op) == 1
    ensures op != Multiply && op != Divide ==> r == Backward(nm, op, inputData, current, g)
  {
    match op
    case Multiply => MultiplyBackwardAsWritten(inputData, current, g)
    case Divide => DivideBackwardAsWritten(nm, inputData, current, g)
    case _ => Backward(nm, op, inputData, current, g)
  }

  // ---------------------------------------------------------------------------
  // properties of the rules

  lemma ZipKeepsLonger(x: Tensor, y: Tensor, f: (real, real) -> real)
    requires IsSuffix(y.shape, x.shape) && Valid(x) && Valid(y)
    ensures Zip(x, y, f).shape == x.shape
  {
    ZipAt(x, y, f);
  }

  lemma ZipTakesLonger(x: Tensor, y: Tensor, f: (real, real) -> real)
    requires IsSuffix(x.shape, y.shape) && Valid(x) && Valid(y)
    ensures Zip(x, y, f).shape == y.shape
  {
    ZipAt(x, y, f);
    if |y.shape| < |x.shape| {
      assert false;
    }
  }

  lemma SuffixRefl(s: Shape)
    ensures IsSuffix(s, s)
  {
    assert s[0..] == s;
  }

  /** The shapes under which the forward computation is defined as the model
      states it: broadcast-compatible operands for the elementwise binary
      variants, equal shapes for power, two matrices for matmul. */
  predicate WellShaped(op: OpKind, xs: seq<Tensor>)
    requires |xs| == Arity(op)
  {
    match op
    case Add | Multiply | Divide => Broadcastable(xs[0].shape, xs[1].shape)
    case Power => xs[0].shape == xs[1].shape
    case MatMul => |xs[0].shape| == 2 && |xs[1].shape| == 2 && xs[0].shape[1] == xs[1].shape[0]
    case Neg | Log | Sum | Relu | Sigmoid => true
  }

  predicate AllValid(xs: seq<Tensor>)
  {
    forall k :: 0 <= k < |xs| ==> Valid(xs[k])
  }

  function InputShapes(xs: seq<Tensor>): (r: seq<Shape>)
    ensures |r| == |xs| && forall k :: 0 <= k < |xs| ==> r[k] == xs[k].shape
  {
    seq(|xs|, k requires 0 <= k < |xs| => xs[k].shape)
  }

  /** Every contribution has the shape of the input it is added to, provided the
      incoming gradient has the shape of the operator's value and the inputs
      still hold data of the shapes cached at construction. */
  lemma BackwardShapes(nm: Numerics, op: OpKind, inputData: seq<Tensor>, current: seq<Tensor>, g: Tensor)
    requires |inputData| == Arity(op) && |current| == Arity(op)
    requires WellShaped(op, inputData) && AllValid(inputData) && Valid(g)
    requires InputShapes(current) == InputShapes(inputData)
    requires g.shape == Forward(nm, op, inputData).shape
    ensures GradShapes(Backward(nm, op, inputData, current, g)) == InputShapes(inputData)
  {
    if Arity(op) == 2 {
      var a, b := inputData[0], inputData[1];
      assert current[0].shape == a.shape && current[1].shape == b.shape;
      assert inputData == [a, b];
      assert InputShapes(inputData) == [a.shape, b.shape];
      if op == Power {
        PowerShapes(nm, a, b, current, g);
      } else if op == MatMul {
        MatMulShapes(nm, a, b, current, g);
      } else {
        ElementwiseShapes(nm, op, a, b, current, g);
      }
    } else {
      var a := inputData[0];
      assert inputData == [a];
      assert InputShapes(inputData) == [a.shape];
      UnaryShapes(nm, op, a, current, g);
    }
  }

  lemma ElementwiseShapes(nm: Numerics, op: OpKind, a: Tensor, b: Tensor, current: seq<Tensor>, g: Tensor)
    requires op == Add || op == Multiply || op == Divide
    requires |current| == 2 && current[0].shape == a.shape && current[1].shape == b.shape
    requires Broadcastable(a.shape, b.shape) && Valid(a) && Valid(b) && Valid(g)
    requires g.shape == Forward(nm, op, [a, b]).shape
    ensures GradShapes(Backward(nm, op, [a, b], current, g)) == [a.shape, b.shape]
  {
    var xs := [a, b];
    assert xs[0] == a && xs[1] == b;
    ForwardShapes(nm, op, xs);
    assert g.shape == BroadcastShape(a.shape, b.shape);
    BroadcastShapeOf(a.shape, b.shape);
    if op == Add {
      AddShapes(nm, a, b, current, g);
    } else if op == Multiply {
      MultiplyShapes(nm, a, b, current, g);
    } else {
      DivideShapes(nm, a, b, current, g);
    }
  }

  lemma AddShapes(nm: Numerics, a: Tensor, b: Tensor, current: seq<Tensor>, g: Tensor)
    requires |current| == 2 && current[0].shape == a.shape && current[1].shape == b.shape
    requires Valid(g) && IsSuffix(a.shape, g.shape) && IsSuffix(b.shape, g.shape)
    ensures GradShapes(Backward(nm, Add, [a, b], current, g)) == [a.shape, b.shape]
  {
    AdaptedToSuffix(g, current[0]);
    AdaptedToSuffix(g, current[1]);
  }

  lemma MultiplyShapes(nm: Numerics, a: Tensor, b: Tensor, current: seq<Tensor>, g: Tensor)
    requires |current| == 2 && current[0].shape == a.shape && current[1].shape == b.shape
    requires Valid(a) && Valid(b) && Valid(g)
    requires IsSuffix(a.shape, g.shape) && IsSuffix(b.shape, g.shape)
    ensures GradShapes(Backward(nm, Multiply, [a, b], current, g)) == [a.shape, b.shape]
  {
    ZipKeepsLonger(g, b, Times);
    ZipKeepsLonger(g, a, Times);
    AdaptedToSuffix(Zip(g, b, Times), current[0]);
    AdaptedToSuffix(Zip(g, a, Times), current[1]);
  }

  lemma DivideShapes(nm: Numerics, a: Tensor, b: Tensor, current: seq<Tensor>, g: Tensor)
    requires |current| == 2 && current[0].shape == a.shape && current[1].shape == b.shape
    requires Valid(a) && Valid(b) && Valid(g)
    requires IsSuffix(a.shape, g.shape) && IsSuffix(b.shape, g.shape)
    ensures GradShapes(Backward(nm, Divide, [a, b], current, g)) == [a.shape, b.shape]
  {
    var p := Zip(g, Map(a, Negate), Times);
    ZipKeepsLonger(g, b, Over(nm));
    ZipKeepsLonger(g, Map(a, Negate), Times);
    ZipKeepsLonger(p, Map(b, Square), Over(nm));
    AdaptedToSuffix(Zip(g, b, Over(nm)), current[0]);
    AdaptedToSuffix(Zip(p, Map(b, Square), Over(nm)), current[1]);
  }

  lemma PowerShapes(nm: Numerics, a: Tensor, b: Tensor, current: seq<Tensor>, g: Tensor)
    requires |current| == 2 && a.shape == b.shape && Valid(a) && Valid(b) && Valid(g)
    requires g.shape == Forward(nm, Power, [a, b]).shape
    ensures GradShapes(Backward(nm, Power, [a, b], current, g)) == [a.shape, b.shape]
  {
    ZipSameShape(a, b, nm.pow);
    var da := Zip(Zip(g, b, Times), Zip(a, Map(b, Decrement), nm.pow), Times);
    var db := Zip(Zip(g, Map(a, nm.ln), Times), Zip(a, b, nm.pow), Times);
    assert Backward(nm, Power, [a, b], current, g) == Pair(da, db);
    ZipSameShape(g, b, Times);
    ZipSameShape(a, Map(b, Decrement), nm.pow);
    ZipSameShape(Zip(g, b, Times), Zip(a, Map(b, Decrement), nm.pow), Times);
    ZipSameShape(g, Map(a, nm.ln), Times);
    ZipSameShape(Zip(g, Map(a, nm.ln), Times), Zip(a, b, nm.pow), Times);
  }

  lemma MatMulShapes(nm: Numerics, a: Tensor, b: Tensor, current: seq<Tensor>, g: Tensor)
    requires |current| == 2
    requires |a.shape| == 2 && |b.shape| == 2 && a.shape[1] == b.shape[0]
    requires Valid(a) && Valid(b) && Valid(g)
    requires g.shape == Forward(nm, MatMul, [a, b]).shape
    ensures GradShapes(Backward(nm, MatMul, [a, b], current, g)) == [a.shape, b.shape]
  {
    assert Backward(nm, MatMul, [a, b], current, g) == Pair(MatProduct(g, Transposed(b)), MatProduct(Transposed(a), g));
    assert a.shape == [a.shape[0], a.shape[1]];
    assert b.shape == [b.shape[0], b.shape[1]];
  }

  lemma UnaryShapes(nm: Numerics, op: OpKind, a: Tensor, current: seq<Tensor>, g: Tensor)
    requires Arity(op) == 1 && |current| == 1 && Valid(a) && Valid(g)
    requires g.shape == Forward(nm, op, [a]).shape
    ensures GradShapes(Backward(nm, op, [a], current, g)) == [a.shape]
  {
    var r := Backward(nm, op, [a], current, g);
    match op
    case Neg =>
      assert r.g == Zip(Map(g, Negate), Fill(a.shape, 1.0), Times);
      ZipSameShape(Map(g, Negate), Fill(a.shape, 1.0), Times);
    case Log =>
      assert r.g == Zip(Map(a, Reciprocal(nm)), g, Times);
      ZipSameShape(Map(a, Reciprocal(nm)), g, Times);
    case Sum =>
      assert r.g == Zip(g, Fill(a.shape, 1.0), Times);
      assert IsSuffix(g.shape, a.shape);
      ZipTakesLonger(g, Fill(a.shape, 1.0), Times);
    case Relu =>
      assert r.g == Zip(g, Positive(a), Times);
      ZipSameShape(a, Positive(a), Times);
      ZipSameShape(g, Positive(a), Times);
    case Sigmoid =>
      var s := Map(a, Sigma(nm));
      assert r.g == Zip(Zip(g, s, Times), Map(s, Complement), Times);
      ZipSameShape(g, s, Times);
      ZipSameShape(Zip(g, s, Times), Map(s, Complement), Times);
  }

  /** add passes the incoming gradient through unchanged in value: each
      contribution has the same total as `g`, and is `g` itself when the input
      has as many axes as `g`. */
  lemma AddBackwardPassesGradient(nm: Numerics, inputData: seq<Tensor>, current: seq<Tensor>, g: Tensor)
    requires |inputData| == 2 && |current| == 2 && Valid(g)
    ensures var r := Backward(nm, Add, inputData, current, g);
      && Total(r.ga.vals) == Total(g.vals) && Total(r.gb.vals) == Total(g.vals)
      && (|g.shape| <= |current[0].shape| ==> r.ga == g)
      && (|g.shape| <= |current[1].shape| ==> r.gb == g)
  {
  }

  /** neg's contribution is the negated gradient, broadcast to the input's shape. */
  lemma NegBackwardNegates(nm: Numerics, a: Tensor, g: Tensor)
    requires IsSuffix(g.shape, a.shape) && Valid(a) && Valid(g)
    ensures var r := Backward(nm, Neg, [a], [a], g).g;
      && r.shape == a.shape
      && forall i :: 0 <= i < |r.vals| ==> |g.vals| > 0 && r.vals[i] == -g.vals[i % |g.vals|]
  {
    var ones := Fill(a.shape, 1.0);
    ZipTakesLonger(Map(g, Negate), ones, Times);
    ZipAt(Map(g, Negate), ones, Times);
  }

  /** sum's contribution spreads a scalar gradient over every element of the input. */
  lemma SumBackwardSpreads(nm: Numerics, a: Tensor, g: Tensor)
    requires g.shape == [] && Valid(a) && Valid(g)
    ensures var r := Backward(nm, Sum, [a], [a], g).g;
      && r.shape == a.shape
      && forall i :: 0 <= i < |r.vals| ==> r.vals[i] == g.vals[0]
  {
    var ones := Fill(a.shape, 1.0);
    assert IsSuffix(g.shape, a.shape);
    ZipTakesLonger(g, ones, Times);
    ZipAt(g, ones, Times);
  }

  /** relu's value is the positive part of its input. */
  lemma ReluForwardPositivePart(nm: Numerics, a: Tensor)
    requires Valid(a)
    ensures var r := Forward(nm, Relu, [a]);
      && r.shape == a.shape
      && forall i :: 0 <= i < |a.vals| ==>
           r.vals[i] >= 0.0 && r.vals[i] == (if a.vals[i] > 0.0 then a.vals[i] else 0.0)
  {
    ZipSameShape(a, Positive(a), Times);
  }

  /** relu's contribution is zero wherever the input is not positive, and the
      (broadcast) gradient wherever it is. */
  lemma ReluBackwardMasks(nm: Numerics, a: Tensor, g: Tensor)
    requires IsSuffix(g.shape, a.shape) && Valid(a) && Valid(g)
    ensures var r := Backward(nm, Relu, [a], [a], g).g;
      && r.shape == a.shape
      && forall i :: 0 <= i < |a.vals| ==>
           |g.vals| > 0 &&
           r.vals[i] == (if a.vals[i] > 0.0 then g.vals[i % |g.vals|] else 0.0)
  {
    var p := Positive(a);
    ZipTakesLonger(g, p, Times);
    ZipAt(g, p, Times);
    forall i | 0 <= i < |a.vals|
      ensures p.vals[i % |p.vals|] == p.vals[i]
    {
      ModBelow(i, |p.vals|);
    }
  }

  /** When both operands and the gradient share one shape, multiply's
      contributions are `g*b` and `g*a` element by element, and the code as
      written computes the same pair. */
  lemma MultiplyBackwardSameShape(nm: Numerics, a: Tensor, b: Tensor, g: Tensor)
    requires a.shape == b.shape == g.shape && Valid(a) && Valid(b) && Valid(g)
    ensures var r := Backward(nm, Multiply, [a, b], [a, b], g);
      && r == MultiplyBackwardAsWritten([a, b], [a, b], g)
      && r.ga.shape == a.shape && r.gb.shape == b.shape
      && forall i :: 0 <= i < |g.vals| ==>
           r.ga.vals[i] == g.vals[i] * b.vals[i] && r.gb.vals[i] == g.vals[i] * a.vals[i]
  {
    ZipSameShape(g, b, Times);
    ZipSameShape(g, a, Times);
  }

  /** When both operands and the gradient share one shape, divide's
      contributions are `g/b` and `-g*a/b**2` element by element, and the code
      as written computes the same pair. */
  lemma DivideBackwardSameShape(nm: Numerics, a: Tensor, b: Tensor, g: Tensor)
    requires a.shape == b.shape == g.shape && Valid(a) && Valid(b) && Valid(g)
    ensures var r := Backward(nm, Divide, [a, b], [a, b], g);
      && r == DivideBackwardAsWritten(nm, [a, b], [a, b], g)
      && r.ga.shape == a.shape && r.gb.shape == b.shape
      && forall i :: 0 <= i < |g.vals| ==>
           r.ga.vals[i] == Quotient(nm, g.vals[i], b.vals[i])
           && r.gb.vals[i] == Quotient(nm, Times(g.vals[i], Negate(a.vals[i])), Square(b.vals[i]))
  {
    var p := Zip(g, Map(a, Negate), Times);
    var ga, gb := Zip(g, b, Over(nm)), Zip(p, Map(b, Square), Over(nm));
    DivideSameShapeAt(nm, a, b, g);
    assert Backward(nm, Divide, [a, b], [a, b], g) == Pair(ga, gb);
    assert DivideBackwardAsWritten(nm, [a, b], [a, b], g) == Pair(ga, gb);
  }

  lemma DivideSameShapeAt(nm: Numerics, a: Tensor, b: Tensor, g: Tensor)
    requires a.shape == b.shape == g.shape && Valid(a) && Valid(b) && Valid(g)
    ensures var p := Zip(g, Map(a, Negate), Times);
      && Zip(g, b, Over(nm)).shape == g.shape && p.shape == g.shape
      && Zip(p, Map(b, Square), Over(nm)).shape == g.shape
      && forall i :: 0 <= i < |g.vals| ==>
           Zip(g, b, Over(nm)).vals[i] == Quotient(nm, g.vals[i], b.vals[i])
           && Zip(p, Map(b, Square), Over(nm)).vals[i] == Quotient(nm, Times(g.vals[i], Negate(a.vals[i])), Square(b.vals[i]))
  {
    var na, sb := Map(a, Negate), Map(b, Square);
    var p := Zip(g, na, Times);
    ZipSameShape(g, b, Over(nm));
    ZipSameShape(g, na, Times);
    ZipSameShape(p, sb, Over(nm));
  }

  /** Without broadcasting (every operand, every input's current data and the
      gradient of one shape) the rules as written and as intended agree. */
  lemma WrittenAgreesWithoutBroadcast(nm: Numerics, op: OpKind, a: Tensor, b: Tensor, g: Tensor)
    requires Arity(op) == 2 && a.shape == b.shape == g.shape && Valid(a) && Valid(b) && Valid(g)
    ensures BackwardAsWritten(nm, op, [a, b], [a, b], g) == Backward(nm, op, [a, b], [a, b], g)
  {
    if op == Multiply {
      MultiplyBackwardSameShape(nm, a, b, g);
    } else if op == Divide {
      DivideBackwardSameShape(nm, a, b, g);
    }
  }

  /** log's contribution is the gradient divided by the input. */
  lemma LogBackwardDivides(nm: Numerics, a: Tensor, g: Tensor)
    requires g.shape == a.shape && Valid(a) && Valid(g)
    ensures var r := Backward(nm, Log, [a], [a], g).g;
      && r.shape == a.shape
      && forall i :: 0 <= i < |a.vals| ==> r.vals[i] == Quotient(nm, 1.0, a.vals[i]) * g.vals[i]
  {
    var m := Map(a, Reciprocal(nm));
    assert Backward(nm, Log, [a], [a], g).g == Zip(m, g, Times);
    ZipSameShape(m, g, Times);
    assert forall i :: 0 <= i < |a.vals| ==> m.vals[i] == Quotient(nm, 1.0, a.vals[i]);
  }

  /** sigmoid's contribution is `g * s * (1 - s)` (written with `Times` and
      `Complement`) with `s` the sigmoid of the input, that is, the operator's
      own forward value. */
  lemma SigmoidBackwardDerivative(nm: Numerics, a: Tensor, g: Tensor)
    requires g.shape == a.shape && Valid(a) && Valid(g)
    ensures var r, y := Backward(nm, Sigmoid, [a], [a], g).g, Forward(nm, Sigmoid, [a]);
      && r.shape == a.shape && y.shape == a.shape
      && forall i :: 0 <= i < |a.vals| ==> r.vals[i] == Times(Times(g.vals[i], y.vals[i]), Complement(y.vals[i]))
  {
    var s := Map(a, Sigma(nm));
    var gs := Zip(g, s, Times);
    var c := Map(s, Complement);
    assert Backward(nm, Sigmoid, [a], [a], g).g == Zip(gs, c, Times);
    assert Forward(nm, Sigmoid, [a]) == s;
    ZipSameShape(g, s, Times);
    ZipSameShape(gs, c, Times);
    var r := Zip(gs, c, Times);
    forall i | 0 <= i < |a.vals|
      ensures r.vals[i] == Times(Times(g.vals[i], s.vals[i]), Complement(s.vals[i]))
    {
    }
  }

  // ---------------------------------------------------------------------------
  // the shape error in multiply.backward_ and divide.backward_

  /** Summing the only axis of a two-element array. */
  lemma SumPair(p: real, q: real)
    ensures SumAxis0(Tensor([2], [p, q])) == Scalar(p + q)
  {
    var t := Tensor([2], [p, q]);
    SizeOne(2);
    assert [2][1..] == [];
    assert SumBlocks([q][1..], 0, 1) == [0.0];
    assert SumBlocks(t.vals[1..], 1, 1) == [q];
    assert SumBlocks(t.vals, 2, 1) == [p + q];
  }

  /** Elementwise arithmetic on two zero-dimensional arrays. */
  lemma ZipScalars(p: real, q: real, f: (real, real) -> real)
    ensures Zip(Scalar(p), Scalar(q), f) == Scalar(f(p, q))
  {
    ZipSameShape(Scalar(p), Scalar(q), f);
  }

  /** Elementwise arithmetic between a two-element array and a
      zero-dimensional one broadcasts the latter. */
  lemma ZipPairScalar(p0: real, p1: real, q: real, f: (real, real) -> real)
    ensures Zip(Tensor([2], [p0, p1]), Scalar(q), f) == Tensor([2], [f(p0, q), f(p1, q)])
  {
    var x := Tensor([2], [p0, p1]);
    SizeOne(2);
    assert IsSuffix(Scalar(q).shape, x.shape);
    ZipAt(x, Scalar(q), f);
    ModBelow(0, 1);
    ModBelow(1, 2);
  }

  /** `x * 3.0` with `x` of shape (2,): the code as written hands `x` a scalar
      (6 for x = [1, 2] and an incoming gradient of ones) where the intended
      rule hands it [3, 3]. */
  lemma MultiplyAsWrittenMisshapes(nm: Numerics)
    ensures var x, c, g := Tensor([2], [1.0, 2.0]), Scalar(3.0), Tensor([2], [1.0, 1.0]);
      && MultiplyBackwardAsWritten([x, c], [x, c], g).ga == Scalar(6.0)
      && Backward(nm, Multiply, [x, c], [x, c], g).ga == Tensor([2], [3.0, 3.0])
  {
    var x, c, g := Tensor([2], [1.0, 2.0]), Scalar(3.0), Tensor([2], [1.0, 1.0]);
    assert Adapted(g, c) == SumAxis0(g);
    SumPair(1.0, 1.0);
    ZipScalars(2.0, 3.0, Times);
    ZipPairScalar(1.0, 1.0, 3.0, Times);
  }

  /** `x / 2.0` with `x` of shape (2,): the code as written hands the constant
      a contribution of shape (2,); the intended rule reduces it to a scalar. */
  lemma DivideAsWrittenMisshapes(nm: Numerics)
    ensures var x, c, g := Tensor([2], [1.0, 2.0]), Scalar(2.0), Tensor([2], [1.0, 1.0]);
      && DivideBackwardAsWritten(nm, [x, c], [x, c], g).gb.shape == [2]
      && Backward(nm, Divide, [x, c], [x, c], g).gb.shape == []
  {
    var x, c, g := Tensor([2], [1.0, 2.0]), Scalar(2.0), Tensor([2], [1.0, 1.0]);
    DivideAsWrittenShape(nm, x, c, g);
    DivideIntendedShape(nm, x, c, g);
  }

  lemma DivideAsWrittenShape(nm: Numerics, x: Tensor, c: Tensor, g: Tensor)
    requires x == Tensor([2], [1.0, 2.0]) && c == Scalar(2.0) && g == Tensor([2], [1.0, 1.0])
    ensures DivideBackwardAsWritten(nm, [x, c], [x, c], g).gb.shape == [2]
  {
    SizeOne(2);
    assert Adapted(g, c) == SumAxis0(g);
    SumPair(1.0, 1.0);
    var gb, negX, sq := Scalar(2.0), Map(x, Negate), Map(c, Square);
    assert Valid(negX) && Valid(sq);
    ZipTakesLonger(gb, negX, Times);
    ZipKeepsLonger(Zip(gb, negX, Times), sq, Over(nm));
  }

  lemma DivideIntendedShape(nm: Numerics, x: Tensor, c: Tensor, g: Tensor)
    requires x == Tensor([2], [1.0, 2.0]) && c == Scalar(2.0) && g == Tensor([2], [1.0, 1.0])
    ensures Backward(nm, Divide, [x, c], [x, c], g).gb.shape == []
  {
    SizeOne(2);
    var negX, sq := Map(x, Negate), Map(c, Square);
    assert Valid(g) && Valid(negX) && Valid(sq);
    ZipSameShape(g, negX, Times);
    var intended := Zip(Zip(g, negX, Times), sq, Over(nm));
    ZipKeepsLonger(Zip(g, negX, Times), sq, Over(nm));
    assert Backward(nm, Divide, [x, c], [x, c], g).gb == Adapted(intended, c);
  }

  // ---------------------------------------------------------------------------
  // shapes outside PowerShapes and MatMulShapes

  /** `x ** 2.0` with `x` of shape (2,): the power rule hands the
      zero-dimensional exponent a contribution of shape (2,), which is not its
      shape. */
  lemma PowerScalarExponentMisshapes(nm: Numerics)
    ensures var x, c, g := Tensor([2], [1.0, 2.0]), Scalar(2.0), Tensor([2], [1.0, 1.0]);
      && g.shape == Forward(nm, Power, [x, c]).shape
      && Backward(nm, Power, [x, c], [x, c], g).gb.shape == [2] != c.shape
  {
    var x, c, g := Tensor([2], [1.0, 2.0]), Scalar(2.0), Tensor([2], [1.0, 1.0]);
    SizeOne(2);
    assert IsSuffix(c.shape, x.shape);
    ZipKeepsLonger(x, c, nm.pow);
    var lx := Map(x, nm.ln);
    ZipSameShape(g, lx, Times);
    ZipSameShape(Zip(g, lx, Times), Zip(x, c, nm.pow), Times);
  }

  /** `v @ m` with `v` of shape (2,) and `m` of shape (2, 2): the product is
      of shape (2,), and the matmul rule hands `m` the inner product
      `v.T @ grad`, a zero-dimensional array. */
  lemma MatMulVectorLeftMisshapes(nm: Numerics)
    ensures var v, m, g := Tensor([2], [1.0, 2.0]), Tensor([2, 2], [1.0, 0.0, 0.0, 1.0]), Tensor([2], [1.0, 1.0]);
      && g.shape == Forward(nm, MatMul, [v, m]).shape
      && Backward(nm, MatMul, [v, m], [v, m], g).gb.shape == [] != m.shape
  {
    var v, m, g := Tensor([2], [1.0, 2.0]), Tensor([2, 2], [1.0, 0.0, 0.0, 1.0]), Tensor([2], [1.0, 1.0]);
    SizeOne(2);
    SizeTwo(2, 2);
    assert Valid(v) && Valid(m) && Valid(g);
    assert Transposed(v) == v;
    assert AsMatrix(v.shape, true) == (1, 2);
    assert AsMatrix(m.shape, false) == (2, 2);
    assert AsMatrix(g.shape, false) == (2, 1);
  }
}
