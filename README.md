# tensorflood engine in Dafny

This project models the reverse-mode automatic-differentiation engine of
tensorflood (`tensorflood/engine`) and proves properties of it. The engine works like this:

- A computation graph is built from `Constant`, `Variable` and ten operator
  variants.
- Each operator caches its `forward` value once, when it is built.
- `Node.backward` sorts the dependency closure of a node topologically,
  sets the node's gradient to 1, and sweeps the order backwards. Each node's
  `backward_` contributions are added into the `grad` of its inputs.

The modules follow the source:

| module | file | models |
|---|---|---|
| `Tensors` | tensors.dfy | the numpy arrays the engine uses: shape plus row-major values over `real`, with leading-axis broadcasting, `sum(axis=0)`, `np.sum`, `@` and `.T` |
| `Operators` | operators.dfy | `adapt_grad_shape`, as a function and as the loop the source runs, and `forward` and `backward_` of the ten variants |
| `Nodes` | nodes.dfy | node records in a store indexed by id; default names `<prefix>/<count>`; `__repr__` |
| `TopoSort` | toposort.dfy | `topological_sort` and its recursive `_dfs`: as functions over an explicit walk state, and as a class whose method mutates `visited` and `res` |
| `Adjoint` | adjoint.dfy | the `for node in reversed(order)` accumulation of `Node.backward`, over any gradient type, and the adjoint equations it establishes |
| `Backprop` | backprop.dfy | `Node.backward` as a function of the node store, and its properties |
| `Registry` | registry.dfy | the constructors, `OperatorBinder.bind_`, the operator table of `bind`, the `data` setter and `reset_counts`, as transitions of one state value |
| `Engine` | engine.dfy | the mutable objects: `Runtime` holds the nodes, the per-class counters and the active graph; `Graph` holds its three node sets |

How the state is represented:

- Node identity is an id handed out in creation order.
- An operator's inputs exist before it is built, so every input id is smaller
  than its consumer's id. The graph is therefore a DAG by construction.
- The per-class `count` attributes form one map from node kind to counter,
  shared by every graph, just as class attributes are.
- `GlobalState.graph` is the nullable field `Runtime.active`.

## Model

| member | source | states |
|---|---|---|
| Tensors.SumAxis0 | tensorflood/engine/Operator.py:12 | `sum(axis=0)` drops the leading axis, keeps the trailing shape and keeps the total of the entries |
| Tensors.SumBlocksAt | tensorflood/engine/Operator.py:12 | entry j of the sum of n row-major blocks of m entries is the sum of column j, the j-th entry of every block |
| Tensors.SumAxis0At | tensorflood/engine/Operator.py:12 | entry j of `t.sum(axis=0)` is the sum over i of entry j of the slice `t[i]` |
| Tensors.ZipAt | tensorflood/engine/Operator.py:50 | broadcasting elementwise arithmetic: the result has the broadcast shape, and element i combines the operands' elements at i modulo their sizes |
| Tensors.ZipSameShape | tensorflood/engine/Operator.py:69 | arithmetic on two arrays of one shape is element by element and keeps the shape |
| Tensors.ZipShape | tensorflood/engine/Operator.py:50 | elementwise arithmetic has the broadcast shape, and operands that do not broadcast are refused |
| Tensors.MatProduct | tensorflood/engine/Operator.py:127 | `a @ b` of an n-by-k and a k-by-m matrix has shape (n, m); matrices whose inner sizes differ are refused |
| Tensors.MatProductAt | tensorflood/engine/Operator.py:127 | entry (i, j) of `a @ b` is the dot product of row i of `a` with column j of `b`, the column being the entries (t, j) of `b` for t below the inner size |
| Tensors.Transposed | tensorflood/engine/Operator.py:131 | `.T` of a matrix swaps its two dimensions, and leaves a 0-d or 1-d array as it is |
| Tensors.TransposedAt | tensorflood/engine/Operator.py:131 | entry (j, i) of `t.T` is entry (i, j) of `t` |
| Operators.SumLeading | tensorflood/engine/Operator.py:11-12 | summing away k leading axes leaves the shape without its first k dimensions and keeps the total |
| Operators.Adapted | tensorflood/engine/Operator.py:7-13 | the adapted gradient drops exactly max(0, grad.ndim - data.ndim) leading axes, keeps the trailing shape and the total of the entries, and is the gradient itself when it has no more axes than the data |
| Operators.AdaptGradShape | tensorflood/engine/Operator.py:7-13 | the loop that reassigns `grad` computes `Adapted` |
| Operators.AdaptedIdempotent | tensorflood/engine/Operator.py:11-12 | adapting an adapted gradient again changes nothing |
| Operators.AdaptedToSuffix | tensorflood/engine/Operator.py:8-12 | a gradient whose shape ends in the data's shape is brought to exactly the data's shape |
| Operators.ForwardShapes | tensorflood/engine/Operator.py:49-217 | `forward` of add, multiply, divide and power has the broadcast shape and fails on shapes that do not broadcast; neg, log, relu and sigmoid keep the input's shape; `sum` is a zero-dimensional total; matmul of n-by-k and k-by-m matrices is n-by-m and fails on differing inner sizes |
| Operators.Backward | tensorflood/engine/Operator.py:52-222 | the intended `backward_` (multiply and divide reduce each contribution to its own input's shape): a one-input variant returns one array and a two-input variant a pair |
| Operators.BackwardAsWritten | tensorflood/engine/Operator.py:52-222 | `backward_` as the code computes it: multiply and divide by their written rules, every other variant as `Backward`, one array for a one-input variant and a pair otherwise |
| Operators.BackwardShapes | tensorflood/engine/Operator.py:52-222 | for well-shaped inputs and a gradient shaped like the forward value, every variant returns one contribution per input, shaped like that input |
| Operators.ElementwiseShapes | tensorflood/engine/Operator.py:52-95 | add, multiply and divide reduce each contribution to its input's shape, for any broadcastable pair of inputs |
| Operators.AddShapes | tensorflood/engine/Operator.py:52-55 | add's two contributions have the shapes of its two inputs when each input's shape ends the gradient's |
| Operators.MultiplyShapes | tensorflood/engine/Operator.py:71-75 | the intended multiply contributions have the shapes of the two inputs |
| Operators.DivideShapes | tensorflood/engine/Operator.py:91-95 | the intended divide contributions have the shapes of the two inputs |
| Operators.PowerShapes | tensorflood/engine/Operator.py:111-113 | power, with no adaptation, returns contributions shaped like its equally-shaped inputs |
| Operators.MatMulShapes | tensorflood/engine/Operator.py:129-131 | `grad @ b.T` and `a.T @ grad` have the shapes of `a` and `b` |
| Operators.UnaryShapes | tensorflood/engine/Operator.py:147-222 | neg, log, sum, relu and sigmoid return a contribution shaped like their input |
| Operators.AddBackwardPassesGradient | tensorflood/engine/Operator.py:52-55 | add passes the gradient to both inputs with its total unchanged, and unchanged when no axes are summed away |
| Operators.NegBackwardNegates | tensorflood/engine/Operator.py:147-149 | `-grad * ones_like(a)` has a's shape and holds the negated, broadcast gradient |
| Operators.SumBackwardSpreads | tensorflood/engine/Operator.py:183-185 | `grad * ones_like(a)` spreads the scalar gradient over every element of `a` |
| Operators.ReluForwardPositivePart | tensorflood/engine/Operator.py:198-199 | `a * (a > 0)` is the positive part of `a`, never negative |
| Operators.ReluBackwardMasks | tensorflood/engine/Operator.py:201-203 | the contribution is the gradient where `a > 0` and 0 where `a <= 0` |
| Operators.MultiplyBackwardSameShape | tensorflood/engine/Operator.py:71-75 | with equal shapes the written rule and the corrected rule agree, and give `(g * b, g * a)` element by element |
| Operators.DivideBackwardSameShape | tensorflood/engine/Operator.py:91-95 | with equal shapes the written rule and the corrected rule agree, and give `(g / b, -g * a / b**2)` element by element |
| Operators.WrittenAgreesWithoutBroadcast | tensorflood/engine/Operator.py:52-131 | when both operands and the gradient share one shape, every two-input variant's written rule equals the intended one |
| Operators.LogBackwardDivides | tensorflood/engine/Operator.py:165-167 | log's contribution is `1/a * grad` element by element |
| Operators.SigmoidBackwardDerivative | tensorflood/engine/Operator.py:216-222 | sigmoid's contribution is `grad * s * (1 - s)`, with `s` the forward value |
| Operators.MultiplyBackwardAsWritten | tensorflood/engine/Operator.py:71-75 | multiply's rule as written: each input gets the gradient adapted to the other input, times the other input |
| Operators.DivideBackwardAsWritten | tensorflood/engine/Operator.py:91-95 | divide's rule as written: each gradient is adapted before it is combined with the operands |
| Operators.MultiplyAsWrittenMisshapes | tensorflood/engine/Operator.py:71-75 | for `x * 3.0` with `x = [1, 2]`, the written rule hands `x` the scalar 6; the corrected rule hands it `[3, 3]` |
| Operators.DivideAsWrittenMisshapes | tensorflood/engine/Operator.py:91-95 | for `x / 2.0` with `x` of shape (2,), the written rule hands the scalar divisor a gradient of shape (2,); the corrected rule hands it a scalar |
| Operators.PowerScalarExponentMisshapes | tensorflood/engine/Operator.py:111-113 | for `x ** 2.0` with `x` of shape (2,), the zero-dimensional exponent receives a contribution of shape (2,) |
| Operators.MatMulVectorLeftMisshapes | tensorflood/engine/Operator.py:129-131 | for a vector of shape (2,) times a 2-by-2 matrix, the matrix receives the zero-dimensional inner product `a.T @ grad` |
| Nodes.AddNodeKeepsWellFormed | tensorflood/engine/Operator.py:25-26 | adding a node whose inputs are already stored keeps every input older than its consumer |
| Nodes.NatToString | tensorflood/engine/Constant.py:17 | `'{}'.format(n)` is a non-empty string of digits, with one digit exactly when n < 10 |
| Nodes.ParseNatToString | tensorflood/engine/Constant.py:17 | the decimal text of a counter reads back as the counter |
| Nodes.KindOfPrefixInverts | tensorflood/engine/Operator.py:45 | each class's name prefix is different from every other class's, and none contains `/` |
| Nodes.DefaultNameInjective | tensorflood/engine/Variable.py:17 | two default names are equal only for the same class and the same counter value |
| Nodes.Repr | tensorflood/engine/Constant.py:21-24 | `__repr__` starts with the class header and the name; for a leaf holding a one-dimensional array it continues with `=` and the data's text, and otherwise it is just the header and the name |
| TopoSort.TopologicalOrder | tensorflood/engine/utils.py:3-16 | the result lists only stored nodes |
| TopoSort.VisitFacts | tensorflood/engine/utils.py:7-13 | one `_dfs` call appends exactly the unvisited part of the node's closure, keeps the list duplicate-free with inputs first, and marks the whole closure visited |
| TopoSort.VisitAllFacts | tensorflood/engine/utils.py:10-12 | the loop over `input_nodes` does the same for the closure of all the inputs |
| TopoSort.TopologicalOrderSound | tensorflood/engine/utils.py:3-16 | every node of the dependency closure appears exactly once, after all of its inputs, and nothing else appears |
| TopoSort.TopologicalOrderEndsAtStart | tensorflood/engine/utils.py:13-15 | the start node is the last element |
| TopoSort.TopologicalOrderOfLeaf | tensorflood/engine/utils.py:10-13 | a leaf start node yields a one-element list |
| TopoSort.TopologicalOrderInputsFirst | tensorflood/engine/utils.py:10-13 | a node that some listed node transitively depends on is listed no later than it |
| TopoSort.TopologicalOrderFirstInputFirst | tensorflood/engine/utils.py:11-12 | inputs are explored in listed order: the order of the first input is a prefix of the whole result |
| TopoSort.Sorter.constructor | tensorflood/engine/utils.py:4-5 | the walk starts with an empty `visited` set and an empty `res` |
| TopoSort.Sorter.Dfs | tensorflood/engine/utils.py:7-13 | the recursive method that mutates `visited` and `res` performs exactly the walk `Visit` describes |
| TopoSort.TopologicalSort | tensorflood/engine/utils.py:3-16 | the method returns `TopologicalOrder` |
| Adjoint.AddTo | tensorflood/engine/Node.py:25 | `+=` changes the addressed gradient by one addition and no other gradient |
| Adjoint.AccumulateAt | tensorflood/engine/Node.py:23-25 | after a node's contributions are added, each gradient has received exactly the contributions addressed to it, in order, including two addressed to the same input |
| Adjoint.StepKeeps | tensorflood/engine/Node.py:17-25 | processing a node that passes nothing to `x` leaves `x`'s gradient as it was |
| Adjoint.SweepKeeps | tensorflood/engine/Node.py:17-25 | a sweep over nodes none of which passes anything to `x` leaves `x`'s gradient as it was |
| Adjoint.SettledWhenProcessed | tensorflood/engine/Node.py:17-18 | in reverse topological order a node's gradient is final when its `backward_` is called |
| Adjoint.SweepAdjoint | tensorflood/engine/Node.py:17-25 | every gradient ends as its start value plus every contribution its consumers pass to it, each computed from the consumer's final gradient |
| Backprop.OperatorRule | tensorflood/engine/Operator.py:52-222 | the intended `backward_` of the operator variants, as `Operators.Backward` |
| Backprop.WrittenRule | tensorflood/engine/Node.py:18 | `node.backward_(node.grad)` is the operator variant's rule as the code computes it (`Operators.BackwardAsWritten`) |
| Backprop.WrittenRuleWithoutBroadcast | tensorflood/engine/Operator.py:52-131 | without broadcasting the written rule and the intended rule give the same contributions |
| Backprop.InputValues | tensorflood/engine/Operator.py:26 | the snapshot holds each input node's `data`, in input order |
| Backprop.Contributions | tensorflood/engine/Node.py:20-25 | the pairs the `zip` walks are addressed to the node's inputs, one per input, in order |
| Backprop.ContributionsIgnoreGrads | tensorflood/engine/Node.py:18 | what a node passes on depends on its own gradient only, not on the other nodes' gradients |
| Backprop.PassesOnlyToInputs | tensorflood/engine/Node.py:23 | a node passes contributions to its own inputs only |
| Backprop.OrderedUpstream | tensorflood/engine/Node.py:13-17 | in the topological order no node passes anything to itself or to a node listed after it |
| Backprop.BackwardResult | tensorflood/engine/Node.py:12-25 | `backward` changes nothing but `grad` attributes |
| Backprop.BackwardAdjoint | tensorflood/engine/Node.py:12-25 | each node's final gradient is its old gradient (1 for the start node) plus every contribution from its consumers in the closure, summed in processing order |
| Backprop.ClosureDoesNotReadStart | tensorflood/engine/Node.py:13 | no node of the start node's closure has the start node as an input |
| Backprop.BackwardRootIsOne | tensorflood/engine/Node.py:15 | the start node's gradient ends at exactly 1 |
| Backprop.BackwardOutsideClosure | tensorflood/engine/Node.py:13-25 | nodes outside the start node's dependency closure are unchanged |
| Backprop.LeafPassesNothing | tensorflood/engine/Node.py:9-10 | a leaf, with the default `backward_`, passes nothing on |
| Backprop.SquareReceivesBoth | tensorflood/engine/Node.py:23-25 | for `x * x` both contributions are addressed to `x`, and both are added |
| Backprop.ZeroAll | tensorflood/engine/Constant.py:34-35 | zeroing every node sets every gradient to 0 and changes nothing else |
| Backprop.ZeroAllForgetsGrads | tensorflood/engine/Variable.py:26-27 | after zeroing, earlier gradients leave no trace |
| Backprop.ZeroThenBackwardRepeats | tensorflood/engine/Node.py:15-25 | zeroing every gradient and calling `backward` again reproduces the first result |
| Registry.NewLeafKeeps | tensorflood/engine/Constant.py:9-19 | building a leaf keeps the state well formed and every earlier node |
| Registry.NewOperatorKeeps | tensorflood/engine/Operator.py:18-30 | building an operator keeps the state well formed and every earlier node |
| Registry.AddNodeKeepsValid | tensorflood/engine/Operator.py:25 | a new node with stored inputs, under a fresh id, keeps the state well formed |
| Registry.NewLeafFacts | tensorflood/engine/Constant.py:9-19 | a leaf fails without an active graph and then changes nothing. Otherwise it joins `constants` (resp. `variables`) under a fresh id, with the given data, `grad` 0, no inputs and the name given or `<prefix>/<count before>`. Its own counter rises by exactly 1 and no other changes |
| Registry.NewOperatorFacts | tensorflood/engine/Operator.py:18-30 | an operator joins `operators` before `forward` runs. With the wrong number of inputs it stays registered, but no node is stored and no counter moves. Without an active graph nothing changes |
| Registry.NewOperatorNode | tensorflood/engine/Operator.py:18-47 | a node results exactly when a graph is active and the arity matches. It then holds its inputs, their data at construction time, `forward` of that data, `grad` 0 and the given or default name, and its class counter rises by 1 |
| Registry.NegatedFacts | tensorflood/engine/Operator.py:239 | negating the operand of `-` keeps the state well formed; anything but a node or a number is refused and changes nothing |
| Registry.BindNumber | tensorflood/engine/Operator.py:231-232 | a number operand becomes a new scalar constant, built before the operator, whose inputs are the left node and that constant |
| Registry.BindOtherFails | tensorflood/engine/Operator.py:233 | an operand that is neither a node nor a number raises `TypeError` and changes nothing |
| Registry.BindFacts | tensorflood/engine/Operator.py:228-233 | binding keeps the state well formed and every earlier node |
| Registry.ApplyInfixFacts | tensorflood/engine/Operator.py:237-244 | every binary operator keeps the state well formed and every earlier node |
| Registry.MinusFacts | tensorflood/engine/Operator.py:239 | `x - y` keeps the state well formed and every earlier node |
| Registry.RMinusFacts | tensorflood/engine/Operator.py:240 | `c - x` keeps the state well formed and every earlier node |
| Registry.MinusIsAddOfNeg | tensorflood/engine/Operator.py:239 | `x - y` builds `neg(y)` and then `add(x, neg(y))`; there is no subtraction variant |
| Registry.MinusBuildsNegFirst | tensorflood/engine/Operator.py:239 | `x - y` is `add` applied to `x` and the freshly built `neg(y)` |
| Registry.ReflectedMinusNegatesSelf | tensorflood/engine/Operator.py:240 | `c - x` for a number c builds `neg(x)`, then the constant c, then their sum |
| Registry.ReflectedMinusBuildsNegFirst | tensorflood/engine/Operator.py:240 | `c - x` is `bind_(add, -x, c)` once `neg(x)` is built |
| Registry.SetDataFacts | tensorflood/engine/Constant.py:30-32 | assigning `data` fails exactly for a constant, whose data stays unchanged; a variable's data becomes the new value |
| Registry.ResetCountsZeroesFrontier | tensorflood/engine/Graph.py:18-23 | `reset_counts` zeroes the counter of every class reached without passing a counted class, and no other counter |
| Registry.NodeClassesFrontier | tensorflood/engine/Graph.py:19-23 | from `Node`, every counted class is reached: Constant, Variable and the ten operator variants |
| Registry.ResetAllCounters | tensorflood/engine/Graph.py:31 | `reset_counts(Node)` sets every class counter to 0 |
| Registry.DefaultNamesRestartAfterReset | tensorflood/engine/Graph.py:33-34 | after a reset the next auto-named constant or variable is `<prefix>/0` |
| Registry.OperatorNamesRestartAfterReset | tensorflood/engine/Graph.py:33-34 | after a reset the next auto-named operator of each variant is `<prefix>/0` |
| Engine.Runtime.constructor | tensorflood/engine/Constant.py:7 | the program starts with no nodes, every counter at 0 and no active graph |
| Engine.Runtime.NewConstant | tensorflood/engine/Constant.py:9-19 | `Constant(data, name)` performs `NewLeaf` on the state in place and keeps it valid |
| Engine.Runtime.NewVariable | tensorflood/engine/Variable.py:9-19 | `Variable(data, name)` performs `NewLeaf` on the state in place and keeps it valid |
| Engine.Runtime.NewOperator | tensorflood/engine/Operator.py:18-47 | an operator's constructor performs `Registry.NewOperator` in place and keeps the state valid |
| Engine.Runtime.Bind | tensorflood/engine/Operator.py:228-233 | `bind_` performs `Registry.Bind` in place |
| Engine.Runtime.Infix | tensorflood/engine/Operator.py:237-244 | each binary operator performs `ApplyInfix` in place |
| Engine.Runtime.Subtract | tensorflood/engine/Operator.py:239 | `self - other` performs the `-` entry of the table in place |
| Engine.Runtime.SubtractFrom | tensorflood/engine/Operator.py:240 | `other - self` performs the reflected `-` entry in place |
| Engine.Runtime.Unary | tensorflood/engine/Operator.py:246-251 | `-x`, `log`, `sum`, `relu` and `sigmoid` build the one-input variant in place |
| Engine.Runtime.SetData | tensorflood/engine/Variable.py:14 | assigning `data` performs `Registry.SetData` in place |
| Engine.Runtime.ZeroGrad | tensorflood/engine/Variable.py:26-27 | `zero_grad` sets one gradient to 0 and changes nothing else |
| Engine.Runtime.AddGrads | tensorflood/engine/Node.py:23-25 | the `input_node.grad += grad` loop changes only gradients, and as `Accumulate` says |
| Engine.Runtime.SweepOrder | tensorflood/engine/Node.py:17-25 | the loop over `reversed(order)` changes only gradients, and as `Sweep` says |
| Engine.Runtime.Backward | tensorflood/engine/Node.py:12-25 | `node.backward()` leaves the store equal to `BackwardResult` under the rules as written (`Backprop.WrittenRule`) |
| Engine.SeedFacts | tensorflood/engine/Node.py:15 | setting the start node's gradient to 1 in place is `Seed` |
| Engine.AddGradFacts | tensorflood/engine/Node.py:25 | one `+=` in place is `AddTo` on the gradients |
| Engine.Graph.constructor | tensorflood/engine/Graph.py:9-14 | a new graph becomes the active graph with three empty node sets; nodes and counters are untouched |
| Engine.Graph.ResetCounts | tensorflood/engine/Graph.py:18-23 | the recursive method sets the counters as `Registry.ResetCounts` says and changes nothing else |
| Engine.Graph.Enter | tensorflood/engine/Graph.py:25-26 | `__enter__` returns the graph itself |
| Engine.Graph.Exit | tensorflood/engine/Graph.py:28-31 | `__exit__` unsets the active graph, whether or not one is set, and zeroes every counter; nodes stay |
| Engine.Graph.Reset | tensorflood/engine/Graph.py:33-37 | `reset` zeroes every counter and empties this graph's three node sets |

## Left out

- Floating point: array elements are `real`. No rounding, overflow, infinity or NaN is modelled. The one exception is the value of a division by zero, which `Numerics.overZero` supplies.
- `np.log`, `np.exp` and `**` on arrays are uninterpreted functions (fields of `Numerics`). No claim is made about their values.
- Tensors.Zip: broadcasting is limited to one shape being a suffix of the other, which covers the leading-axis reduction the engine undoes. Shapes numpy broadcasts otherwise, and shapes numpy refuses with an exception, both yield the value `ShapeError`. `ShapeError` is the empty one-dimensional array, so a refused operation cannot be told apart from a legitimate empty result such as `[] + []`; the lemmas that mention `ShapeError` state the refusal through their conditions on the operands' shapes.
- Tensors.MatProduct: one- and two-dimensional operands are multiplied as numpy's `matmul` does, with the axis added to a one-dimensional operand dropped from the result. Operands of zero or more than two dimensions, which numpy refuses or multiplies as stacks, yield `ShapeError`. `Tensors.Transposed` likewise yields `ShapeError` for more than two dimensions, where numpy's `.T` reverses all the axes; the model uses it only in matmul's backward rule, and an operand of more than two dimensions already makes the forward `MatProduct` yield `ShapeError`.
- Tensors.Valid: a datatype value whose element count does not match its shape is not a numpy array. The operations return `ShapeError` for it, and the lemmas require valid arrays.
- numpy's in-place `+=` on `grad` is modelled as a broadcasting addition that may change the gradient's shape. numpy refuses to grow the left operand; this refusal and array aliasing are not modelled.
- Backprop.Contributions: a one-input operator always adds its whole result to its input, and a two-input operator adds its two results. In the source, the `zip` of Node.py line 23 iterates over the first axis of a one-input operator's result array: when that array is 0-d (for example `Variable(2.0).log().backward()` or `x.sum().sigmoid().backward()`), `zip` raises TypeError because a 0-d array is not iterable; when its first axis is empty, nothing is added. The model has no error path here, so `Engine.Runtime.Backward` always completes.
- Python's int `0` for `grad` is the 0-d array 0. `np.array(data)` conversion is not modelled: data is given as an array.
- The monkey-patching in `OperatorBinder.bind` and in `Graph.__init__`'s call to it is left out. The table it installs is the dispatch `ApplyInfix` / `Engine.Runtime.Infix` over the `Infix` datatype, plus `Engine.Runtime.Unary`.
- `GlobalState` (tensorflood/engine/GlobalState.py) is not part of this model. Its `graph` is the nullable field `Runtime.active`, and a missing graph is the error `NoActiveGraph`.
- Exceptions are `Err` results. Of the exceptions numpy can raise inside `forward`, only the wrong number of inputs is modelled; shape errors become `ShapeError` values.
- Node objects are ids, and the graph's sets hold ids. Python object identity and hashing are not modelled.
- Engine.Runtime.Backward: the result is stated on the node store (`nodes == BackwardResult(...)`); the state value `World()` does not appear in the postcondition. Counters and the active graph are outside its `modifies` frame, so they are unchanged.
- Engine.Runtime.SetData: the `Constant.data` getter is the plain read `Runtime.Data`. The guarantee that it always returns the construction-time value comes from `Extends` in `Registry.SetDataFacts`.
- Nodes.Repr: numpy's text for an array is a parameter `show`.
- Operators.PowerShapes: requires both operands of one shape. Power's rule does not adapt its contributions, so with an exponent of fewer axes (`x ** 2.0` with `x` of shape (2,)) the exponent receives a contribution of the base's shape; `Operators.PowerScalarExponentMisshapes` shows it.
- Operators.MatMulShapes: requires two two-dimensional operands. With a one-dimensional left operand, `a.T @ grad` is an inner product, so the matrix receives a zero-dimensional contribution (`Operators.MatMulVectorLeftMisshapes`), and numpy raises `ValueError` when the sizes differ. A one-dimensional right operand is not covered either.
- TopoSort.Visit: `_dfs` (tensorflood/engine/utils.py:7-13) recurses once per level of the graph, so Python raises `RecursionError` on chains deeper than its recursion limit. `Visit` and `Sorter.Dfs` always return.
- Backprop.Seed: the start node's gradient is the real 1. The source's seed `np.array(1)` (tensorflood/engine/Node.py:15) is an integer array, and numpy refuses an in-place float addition into an integer array under its `same_kind` casting rule. No node of the start node's closure has the start node as an input (`Backprop.ClosureDoesNotReadStart`), so the `+=` of line 25 never targets the seed. Its integer type is not modelled.
- `to_graphviz` (tensorflood/engine/utils.py:18-31) uses the external graphviz library. tensorflood/nn and examples are consumers of the engine and are not part of this model.

## Findings

| source | as written | input that shows it | evidently intended | confidence | as-written member | corrected member |
|---|---|---|---|---|---|---|
| tensorflood/engine/Operator.py:71-75 | `multiply.backward_` returns `(adapt(g, b) * b, adapt(g, a) * a)`: each input's contribution is reduced to the OTHER input's shape | `x * 3.0` with `x = [1, 2]` and incoming gradient `[1, 1]`: `x` receives the scalar 6 instead of `[3, 3]` | `(adapt(g * b, a), adapt(g * a, b))`, each contribution shaped like its own input | not executed | Operators.MultiplyAsWrittenMisshapes | Operators.ElementwiseShapes |
| tensorflood/engine/Operator.py:91-95 | `divide.backward_` adapts the gradient first and then multiplies by `-a / b**2`, which broadcasts it back to the larger shape | `x / 2.0` with `x` of shape (2,): the scalar divisor receives a gradient of shape (2,) | `adapt(g * -a / b**2, b)`, a scalar for a scalar divisor | not executed | Operators.DivideAsWrittenMisshapes | Operators.ElementwiseShapes |

The as-written rules are `Operators.MultiplyBackwardAsWritten` and
`Operators.DivideBackwardAsWritten`; `Operators.Backward` holds the corrected
rules. `Node.backward` as the code runs it (`Engine.Runtime.Backward`) applies
the written rules (`Backprop.WrittenRule`). The `Backprop` lemmas hold for any
rule, so they apply to the written and the corrected rule alike. When all
shapes agree, the two rules give the same result
(`Operators.WrittenAgreesWithoutBroadcast`).
