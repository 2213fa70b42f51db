/** The state the engine's constructors and `Graph` act on, as a value: the
    node store, the per-class `count` attributes, and the three sets of the
    active graph (`GlobalState.graph`, absent when no graph is active).  Each
    operation of tensorflood/engine/Constant.py, Variable.py, Operator.py
    (construction and `OperatorBinder`) and Graph.py is a function from one
    such value to the next; the classes of module `Engine` are proved to
    perform exactly these transitions. */
module Registry {
  import opened Tensors
  import opened Operators
  import opened Nodes
  import opened Backprop

  datatype Error =
    | NoActiveGraph           // AttributeError: no `GlobalState.graph`
    | ArityMismatch           // TypeError: `forward` called with the wrong number of inputs
    | IncompatibleTypes       // TypeError('Incompatible types') from `bind_`
    | CannotReassignConstant  // ValueError('Cannot reassign constant')

  datatype Result<T> = Ok(value: T) | Err(error: Error)

  /** The `operators`, `constants` and `variables` sets of a graph. */
  datatype Sets = Sets(operators: set<nat>, constants: set<nat>, variables: set<nat>)

  /** Ids `0 .. nextId-1` have been handed out; `counts` holds the `count`
      attribute of each node class. */
  datatype World = World(nodes: Store, nextId: nat, counts: map<NodeKind, nat>, graph: Option<Sets>)

  const AllKinds: set<NodeKind> :=
    {Const, Var, Op(Add), Op(Multiply), Op(Divide), Op(Power), Op(MatMul),
     Op(Neg), Op(Log), Op(Sum), Op(Relu), Op(Sigmoid)}

  lemma AllKindsComplete(k: NodeKind)
    ensures k in AllKinds
  {
    match k
    case Const =>
    case Var =>
    case Op(op) =>
      match op
      case Add => case Multiply => case Divide => case Power => case MatMul =>
      case Neg => case Log => case Sum => case Relu => case Sigmoid =>
  }

  /** Every class starts with `count = 0`. */
  const InitialCounts: map<NodeKind, nat> := map k | k in AllKinds :: 0

  /** A store built by the constructors: ids below `nextId`, inputs older
      than their consumers, a counter for every class. */
  ghost predicate ValidWorld(w: World)
  {
    && WellFormed(w.nodes)
    && (forall id :: id in w.nodes ==> id < w.nextId)
    && (forall k: NodeKind :: k in w.counts)
  }

  /** `b` keeps every node of `a`, and every constant with the data it had. */
  predicate Extends(a: Store, b: Store)
  {
    && a.Keys <= b.Keys
    && forall id :: id in a && a[id].kind == Const ==> b[id].kind == Const && b[id].data == a[id].data
  }

  function NameOr(name: Option<string>, k: NodeKind, count: nat): string
  {
    if name.Some? then name.value else DefaultName(k, count)
  }

  // ---------------------------------------------------------------------------
  // constructors

  /** `Constant(data, name)` (k = Const) and `Variable(data, name)` (k = Var):
      join the active graph's `constants` or `variables`, store the data with
      `grad = 0`, take the default name from the class counter, and bump it. */
  function NewLeaf(w: World, k: NodeKind, data: Tensor, name: Option<string>): (World, Result<nat>)
    requires k == Const || k == Var
    requires k in w.counts
  {
    if w.graph.None? then (w, Err(NoActiveGraph))
    else
      var id := w.nextId;
      var g := w.graph.value;
      var g' := if k == Const then g.(constants := g.constants + {id}) else g.(variables := g.variables + {id});
      var rec := NodeRec(k, NameOr(name, k, w.counts[k]), [], [], data, ZeroGrad);
      (World(w.nodes[id := rec], id + 1, w.counts[k := w.counts[k] + 1], Some(g')), Ok(id))
  }

  /** `<variant>(input_nodes, name)`: join the active graph's `operators`
      first; then snapshot the inputs' data and compute `forward` once, which
      fails when the number of inputs does not match the variant (the object
      stays registered, no node results and no counter moves); otherwise
      store the node with `grad = 0`, name it from the class counter and bump
      the counter. */
  function NewOperator(nm: Numerics, w: World, op: OpKind, inputs: seq<nat>, name: Option<string>): (World, Result<nat>)
    requires forall k :: 0 <= k < |inputs| ==> inputs[k] in w.nodes
    requires Op(op) in w.counts
  {
    if w.graph.None? then (w, Err(NoActiveGraph))
    else
      var id := w.nextId;
      var g := w.graph.value.(operators := w.graph.value.operators + {id});
      if |inputs| != Arity(op) then (w.(nextId := id + 1, graph := Some(g)), Err(ArityMismatch))
      else
        var xs := InputValues(w.nodes, inputs);
        var rec := NodeRec(Op(op), NameOr(name, Op(op), w.counts[Op(op)]), inputs, xs, Forward(nm, op, xs), ZeroGrad);
        (World(w.nodes[id := rec], id + 1, w.counts[Op(op) := w.counts[Op(op)] + 1], Some(g)), Ok(id))
  }

  /** The right-hand operand of an arithmetic operator. */
  datatype Operand = NodeOperand(id: nat) | Number(x: real) | Other

  predicate OperandIn(w: World, x: Operand)
  {
    x.NodeOperand? ==> x.id in w.nodes
  }

  /** `OperatorBinder.bind_(method, lhs, rhs)`: a node is used as it is, a
      number is first wrapped in a new `Constant`, anything else is refused. */
  function Bind(nm: Numerics, w: World, op: OpKind, lhs: nat, rhs: Operand): (World, Result<nat>)
    requires ValidWorld(w) && lhs in w.nodes && OperandIn(w, rhs)
  {
    match rhs
    case NodeOperand(id) => NewOperator(nm, w, op, [lhs, id], None)
    case Number(x) =>
      var (w1, c) := NewLeaf(w, Const, Scalar(x), None);
      if c.Err? then (w1, c)
      else
        NewLeafKeeps(w, Const, Scalar(x), None);
        NewOperator(nm, w1, op, [lhs, c.value], None)
    case Other => (w, Err(IncompatibleTypes))
  }

  /** The binary operators `bind` installs on `Node`. */
  datatype Infix = Plus | RPlus | Minus | RMinus | Star | Slash | StarStar | At

  /** `-x` for an operand: a new `neg` node for a node, the negated number for
      a number; anything else is refused. */
  function Negated(nm: Numerics, w: World, x: Operand): (World, Result<Operand>)
    requires ValidWorld(w) && OperandIn(w, x)
  {
    match x
    case NodeOperand(id) =>
      var (w1, r) := NewOperator(nm, w, Neg, [id], None);
      (w1, if r.Err? then Err(r.error) else Ok(NodeOperand(r.value)))
    case Number(v) => (w, Ok(Number(-v)))
    case Other => (w, Err(IncompatibleTypes))
  }

  /** `self <op> other` through the table of `OperatorBinder.bind`: `+` and
      its reflection build `add(self, other)`, `-` builds `add(self, -other)`,
      its reflection `add(-self, other)` (the `neg` node is built first). */
  function ApplyInfix(nm: Numerics, w: World, i: Infix, self: nat, other: Operand): (World, Result<nat>)
    requires ValidWorld(w) && self in w.nodes && OperandIn(w, other)
  {
    match i
    case Plus => Bind(nm, w, Add, self, other)
    case RPlus => Bind(nm, w, Add, self, other)
    case Minus =>
      var (w1, r) := Negated(nm, w, other);
      if r.Err? then (w1, Err(r.error))
      else
        NegatedFacts(nm, w, other);
        Bind(nm, w1, Add, self, r.value)
    case RMinus =>
      var (w1, r) := NewOperator(nm, w, Neg, [self], None);
      if r.Err? then (w1, r)
      else
        NewOperatorKeeps(nm, w, Neg, [self], None);
        Bind(nm, w1, Add, r.value, other)
    case Star => Bind(nm, w, Multiply, self, other)
    case Slash => Bind(nm, w, Divide, self, other)
    case StarStar => Bind(nm, w, Power, self, other)
    case At => Bind(nm, w, MatMul, self, other)
  }

  // ---------------------------------------------------------------------------
  // node attributes

  /** Assigning `data`: refused for a constant, an ordinary update otherwise. */
  function SetData(w: World, id: nat, v: Tensor): (World, Result<()>)
    requires id in w.nodes
  {
    if w.nodes[id].kind == Const then (w, Err(CannotReassignConstant))
    else (w.(nodes := w.nodes[id := w.nodes[id].(data := v)]), Ok(()))
  }

  // ---------------------------------------------------------------------------
  // properties

  /** A leaf constructor keeps the state valid and extends the store with
      the new node. */
  lemma NewLeafKeeps(w: World, k: NodeKind, data: Tensor, name: Option<string>)
    requires ValidWorld(w) && (k == Const || k == Var)
    ensures var (w', r) := NewLeaf(w, k, data, name);
      ValidWorld(w') && Extends(w.nodes, w'.nodes) && (r.Ok? ==> r.value in w'.nodes)
  {
    if w.graph.Some? {
      var (w', r) := NewLeaf(w, k, data, name);
      AddNodeKeepsValid(w, w'.nodes[w.nextId], k, w'.graph.value);
    }
  }

  /** An operator constructor keeps the state valid and extends the store
      with the new node. */
  lemma NewOperatorKeeps(nm: Numerics, w: World, op: OpKind, inputs: seq<nat>, name: Option<string>)
    requires ValidWorld(w) && forall k :: 0 <= k < |inputs| ==> inputs[k] in w.nodes
    ensures var (w', r) := NewOperator(nm, w, op, inputs, name);
      ValidWorld(w') && Extends(w.nodes, w'.nodes) && (r.Ok? ==> r.value in w'.nodes)
  {
    if w.graph.Some? && |inputs| == Arity(op) {
      var (w', r) := NewOperator(nm, w, op, inputs, name);
      var rec := w'.nodes[w.nextId];
      assert rec.inputs == inputs && |rec.inputData| == |inputs|;
      AddNodeKeepsValid(w, rec, Op(op), w'.graph.value);
    }
  }

  /** Storing a node under the next id, with inputs that already exist, and
      bumping one counter keeps the state valid. */
  lemma AddNodeKeepsValid(w: World, rec: NodeRec, k: NodeKind, g: Sets)
    requires ValidWorld(w) && rec.kind == k
    requires forall i :: 0 <= i < |rec.inputs| ==> rec.inputs[i] in w.nodes
    requires match k
      case Op(op) => |rec.inputs| == Arity(op) && |rec.inputData| == Arity(op)
      case _ => rec.inputs == [] && rec.inputData == []
    ensures var nodes := w.nodes[w.nextId := rec];
      && ValidWorld(World(nodes, w.nextId + 1, w.counts[k := w.counts[k] + 1], Some(g)))
      && Extends(w.nodes, nodes)
  {
    AddNodeKeepsWellFormed(w.nodes, w.nextId, rec);
  }

  /** A leaf constructor keeps the state valid, adds exactly one node, with
      the given data and a zero gradient, registered in the set of its class,
      and bumps its class counter by exactly one whether or not a name is
      given; without an active graph nothing happens. */
  lemma NewLeafFacts(w: World, k: NodeKind, data: Tensor, name: Option<string>)
    requires ValidWorld(w) && (k == Const || k == Var)
    ensures var (w', r) := NewLeaf(w, k, data, name);
      && ValidWorld(w')
      && Extends(w.nodes, w'.nodes)
      && (forall id :: id in w.nodes ==> w'.nodes[id] == w.nodes[id])
      && (w.graph.None? <==> r.Err?)
      && (r.Err? ==> w' == w)
      && (r.Ok? ==>
            && r.value == w.nextId && r.value !in w.nodes
            && w'.nodes.Keys == w.nodes.Keys + {r.value}
            && w'.nodes[r.value].kind == k && w'.nodes[r.value].data == data
            && w'.nodes[r.value].grad == ZeroGrad && w'.nodes[r.value].inputs == []
            && w'.nodes[r.value].name == NameOr(name, k, w.counts[k])
            && w'.counts[k] == w.counts[k] + 1
            && (forall k' :: k' != k ==> w'.counts[k'] == w.counts[k'])
            && w'.graph.Some?
            && (k == Const ==> w'.graph.value.constants == w.graph.value.constants + {r.value})
            && (k == Var ==> w'.graph.value.variables == w.graph.value.variables + {r.value})
            && w'.graph.value.operators == w.graph.value.operators)
  {
    NewLeafKeeps(w, k, data, name);
  }

  /** An operator constructor keeps the state valid and registers the new
      object in the active graph's `operators` before anything can fail. */
  lemma NewOperatorFacts(nm: Numerics, w: World, op: OpKind, inputs: seq<nat>, name: Option<string>)
    requires ValidWorld(w) && forall k :: 0 <= k < |inputs| ==> inputs[k] in w.nodes
    ensures var (w', r) := NewOperator(nm, w, op, inputs, name);
      && ValidWorld(w')
      && Extends(w.nodes, w'.nodes)
      && (forall id :: id in w.nodes ==> w'.nodes[id] == w.nodes[id])
      && (w.graph.None? ==> w' == w && r == Err(NoActiveGraph))
      && (w.graph.Some? ==>
            && w'.nextId == w.nextId + 1
            && w'.graph.Some?
            && w'.graph.value.operators == w.graph.value.operators + {w.nextId}
            && w'.graph.value.constants == w.graph.value.constants
            && w'.graph.value.variables == w.graph.value.variables)
      && (w.graph.Some? && |inputs| != Arity(op) ==>
            r == Err(ArityMismatch) && w'.nodes == w.nodes && w'.counts == w.counts)
      && (r.Ok? ==> r.value == w.nextId && r.value !in w.nodes && w'.nodes.Keys == w.nodes.Keys + {r.value})
  {
    NewOperatorKeeps(nm, w, op, inputs, name);
  }

  /** A built operator caches the inputs' current data and `forward` of it,
      computed once; it starts with a zero gradient, and its class counter
      moves by exactly one whether or not a name is given. */
  lemma NewOperatorNode(nm: Numerics, w: World, op: OpKind, inputs: seq<nat>, name: Option<string>)
    requires ValidWorld(w) && forall k :: 0 <= k < |inputs| ==> inputs[k] in w.nodes
    ensures var (w', r) := NewOperator(nm, w, op, inputs, name);
      && (r.Ok? <==> w.graph.Some? && |inputs| == Arity(op))
      && (r.Ok? ==>
            && r.value in w'.nodes
            && var rec := w'.nodes[r.value];
            && rec.kind == Op(op) && rec.inputs == inputs
            && |rec.inputData| == |inputs|
            && (forall k :: 0 <= k < |inputs| ==> rec.inputData[k] == w.nodes[inputs[k]].data)
            && rec.data == Forward(nm, op, rec.inputData)
            && rec.grad == ZeroGrad
            && rec.name == NameOr(name, Op(op), w.counts[Op(op)])
            && w'.counts[Op(op)] == w.counts[Op(op)] + 1
            && (forall k' :: k' != Op(op) ==> w'.counts[k'] == w.counts[k']))
  {
  }

  lemma NegatedFacts(nm: Numerics, w: World, x: Operand)
    requires ValidWorld(w) && OperandIn(w, x)
    ensures var (w', r) := Negated(nm, w, x);
      ValidWorld(w') && Extends(w.nodes, w'.nodes) && (r.Ok? ==> OperandIn(w', r.value))
      && (x.Other? ==> r.Err? && w' == w)
  {
    if x.NodeOperand? {
      NewOperatorKeeps(nm, w, Neg, [x.id], None);
    }
  }

  lemma ExtendsTrans(a: Store, b: Store, c: Store)
    requires Extends(a, b) && Extends(b, c)
    ensures Extends(a, c)
  {
  }

  /** `bind_` with a number adds a scalar constant holding it and an operator
      reading the left operand and that constant, in that order. */
  lemma BindNumber(nm: Numerics, w: World, op: OpKind, lhs: nat, x: real)
    requires ValidWorld(w) && lhs in w.nodes && w.graph.Some? && Arity(op) == 2
    ensures var (w', r) := Bind(nm, w, op, lhs, Number(x));
      && r == Ok(w.nextId + 1)
      && w'.nodes[lhs] == w.nodes[lhs]
      && w'.nodes[w.nextId].kind == Const && w'.nodes[w.nextId].data == Scalar(x)
      && w'.nodes[w.nextId + 1].kind == Op(op)
      && w'.nodes[w.nextId + 1].inputs == [lhs, w.nextId]
      && w'.graph.value.constants == w.graph.value.constants + {w.nextId}
      && w'.graph.value.operators == w.graph.value.operators + {w.nextId + 1}
  {
    var n := w.nextId;
    var (w1, c) := NewLeaf(w, Const, Scalar(x), None);
    NewLeafKeeps(w, Const, Scalar(x), None);
    assert c == Ok(n) && w1.nextId == n + 1 && w1.nodes[n].data == Scalar(x);
    assert w1.nodes[lhs] == w.nodes[lhs];
    NewOperatorNode(nm, w1, op, [lhs, n], None);
    var (w2, r2) := NewOperator(nm, w1, op, [lhs, n], None);
    assert Bind(nm, w, op, lhs, Number(x)) == (w2, r2);
    assert w2.nodes[n] == w1.nodes[n] && w2.nodes[lhs] == w1.nodes[lhs];
  }

  /** `bind_` with anything but a node or a number fails and changes nothing. */
  lemma BindOtherFails(nm: Numerics, w: World, op: OpKind, lhs: nat)
    requires ValidWorld(w) && lhs in w.nodes
    ensures Bind(nm, w, op, lhs, Other) == (w, Err(IncompatibleTypes))
  {
  }

  /** Every binding keeps the state valid and extends the store. */
  lemma BindFacts(nm: Numerics, w: World, op: OpKind, lhs: nat, rhs: Operand)
    requires ValidWorld(w) && lhs in w.nodes && OperandIn(w, rhs)
    ensures var (w', r) := Bind(nm, w, op, lhs, rhs);
      ValidWorld(w') && Extends(w.nodes, w'.nodes)
  {
    match rhs
    case NodeOperand(id) =>
      NewOperatorKeeps(nm, w, op, [lhs, id], None);
    case Number(x) =>
      NewLeafKeeps(w, Const, Scalar(x), None);
      var (w1, c) := NewLeaf(w, Const, Scalar(x), None);
      if c.Ok? {
        NewOperatorKeeps(nm, w1, op, [lhs, c.value], None);
      }
    case Other =>
  }

  lemma ApplyInfixFacts(nm: Numerics, w: World, i: Infix, self: nat, other: Operand)
    requires ValidWorld(w) && self in w.nodes && OperandIn(w, other)
    ensures var (w', r) := ApplyInfix(nm, w, i, self, other);
      ValidWorld(w') && Extends(w.nodes, w'.nodes)
  {
    match i
    case Minus => MinusFacts(nm, w, self, other);
    case RMinus => RMinusFacts(nm, w, self, other);
    case _ => BindFacts(nm, w, InfixKind(i), self, other);
  }

  lemma MinusFacts(nm: Numerics, w: World, self: nat, other: Operand)
    requires ValidWorld(w) && self in w.nodes && OperandIn(w, other)
    ensures var (w', r) := ApplyInfix(nm, w, Minus, self, other);
      ValidWorld(w') && Extends(w.nodes, w'.nodes)
  {
    NegatedFacts(nm, w, other);
    var (w1, r) := Negated(nm, w, other);
    if r.Ok? {
      BindFacts(nm, w1, Add, self, r.value);
    }
  }

  lemma RMinusFacts(nm: Numerics, w: World, self: nat, other: Operand)
    requires ValidWorld(w) && self in w.nodes && OperandIn(w, other)
    ensures var (w', r) := ApplyInfix(nm, w, RMinus, self, other);
      ValidWorld(w') && Extends(w.nodes, w'.nodes)
  {
    NewOperatorKeeps(nm, w, Neg, [self], None);
    var (w1, r) := NewOperator(nm, w, Neg, [self], None);
    if r.Ok? {
      BindFacts(nm, w1, Add, r.value, other);
    }
  }

  /** The variant each binary operator builds (subtraction builds `add`). */
  function InfixKind(i: Infix): OpKind
  {
    match i
    case Plus | RPlus | Minus | RMinus => Add
    case Star => Multiply
    case Slash => Divide
    case StarStar => Power
    case At => MatMul
  }

  /** There is no subtract variant: `x - y` for nodes is an `add` whose second
      input is a new `neg` node reading `y`. */
  lemma MinusIsAddOfNeg(nm: Numerics, w: World, x: nat, y: nat)
    requires ValidWorld(w) && x in w.nodes && y in w.nodes && w.graph.Some?
    ensures var (w', r) := ApplyInfix(nm, w, Minus, x, NodeOperand(y));
      && r == Ok(w.nextId + 1)
      && w'.nodes[w.nextId].kind == Op(Neg) && w'.nodes[w.nextId].inputs == [y]
      && w'.nodes[w.nextId + 1].kind == Op(Add) && w'.nodes[w.nextId + 1].inputs == [x, w.nextId]
  {
    var n := w.nextId;
    MinusBuildsNegFirst(nm, w, x, y);
    var w1 := NewOperator(nm, w, Neg, [y], None).0;
    var (w2, r2) := NewOperator(nm, w1, Add, [x, n], None);
    NewOperatorNode(nm, w1, Add, [x, n], None);
    assert w2.nodes[n] == w1.nodes[n];
  }

  /** The first half of `x - y`: the `neg` node, after which the subtraction
      is the binding of `add` to `x` and that node. */
  lemma MinusBuildsNegFirst(nm: Numerics, w: World, x: nat, y: nat)
    requires ValidWorld(w) && x in w.nodes && y in w.nodes && w.graph.Some?
    ensures var (w1, r1) := NewOperator(nm, w, Neg, [y], None);
      && r1 == Ok(w.nextId) && w1.nextId == w.nextId + 1
      && ValidWorld(w1) && x in w1.nodes && w.nextId in w1.nodes && w1.graph.Some?
      && w1.nodes[w.nextId].kind == Op(Neg) && w1.nodes[w.nextId].inputs == [y]
      && ApplyInfix(nm, w, Minus, x, NodeOperand(y)) == NewOperator(nm, w1, Add, [x, w.nextId], None)
  {
    var n := w.nextId;
    var (w1, r1) := NewOperator(nm, w, Neg, [y], None);
    NewOperatorNode(nm, w, Neg, [y], None);
    NewOperatorKeeps(nm, w, Neg, [y], None);
    assert Negated(nm, w, NodeOperand(y)) == (w1, Ok(NodeOperand(n)));
  }

  /** The reflected subtraction `c - x` (c a number) builds `neg(x)` first and
      then `add(neg(x), Constant(c))`. */
  lemma ReflectedMinusNegatesSelf(nm: Numerics, w: World, x: nat, c: real)
    requires ValidWorld(w) && x in w.nodes && w.graph.Some?
    ensures var (w', r) := ApplyInfix(nm, w, RMinus, x, Number(c));
      && r == Ok(w.nextId + 2)
      && w'.nodes[w.nextId].kind == Op(Neg) && w'.nodes[w.nextId].inputs == [x]
      && w'.nodes[w.nextId + 1].data == Scalar(c)
      && w'.nodes[w.nextId + 2].inputs == [w.nextId, w.nextId + 1]
  {
    ReflectedMinusBuildsNegFirst(nm, w, x, c);
    BindNumber(nm, NewOperator(nm, w, Neg, [x], None).0, Add, w.nextId, c);
  }

  /** The first half of `c - x`: the `neg` node, after which the subtraction
      is the binding of `add` to that node and the number. */
  lemma ReflectedMinusBuildsNegFirst(nm: Numerics, w: World, x: nat, c: real)
    requires ValidWorld(w) && x in w.nodes && w.graph.Some?
    ensures var (w1, r1) := NewOperator(nm, w, Neg, [x], None);
      && r1 == Ok(w.nextId) && w1.nextId == w.nextId + 1
      && ValidWorld(w1) && w.nextId in w1.nodes && w1.graph.Some?
      && w1.nodes[w.nextId].kind == Op(Neg) && w1.nodes[w.nextId].inputs == [x]
      && ApplyInfix(nm, w, RMinus, x, Number(c)) == Bind(nm, w1, Add, w.nextId, Number(c))
  {
    NewOperatorNode(nm, w, Neg, [x], None);
    NewOperatorKeeps(nm, w, Neg, [x], None);
  }

  /** Assigning data never changes a constant; for any other node it stores
      the value. */
  lemma SetDataFacts(w: World, id: nat, v: Tensor)
    requires ValidWorld(w) && id in w.nodes
    ensures var (w', r) := SetData(w, id, v);
      && ValidWorld(w') && Extends(w.nodes, w'.nodes)
      && (w.nodes[id].kind == Const <==> r.Err?)
      && (r.Ok? ==> w'.nodes[id].data == v)
  {
    var (w', r) := SetData(w, id, v);
    forall j | j in w'.nodes
      ensures WellFormedAt(w'.nodes, j)
    {
      assert WellFormedAt(w.nodes, j);
    }
  }

  // ---------------------------------------------------------------------------
  // the class hierarchy and reset_counts

  /** A class under `Node`: `counter` names the node kind whose `count` it
      carries, if it has one. */
  datatype ClassTree = ClassTree(counter: Option<NodeKind>, subclasses: seq<ClassTree>)

  function Counted(k: NodeKind): ClassTree
  {
    ClassTree(Some(k), [])
  }

  /** `Node` with its subclasses `Constant`, `Variable` and `Operator`, and the
      ten operator variants under `Operator`. */
  const NodeClasses: ClassTree :=
    ClassTree(None, [
      Counted(Const),
      Counted(Var),
      ClassTree(None, [
        Counted(Op(Add)), Counted(Op(Multiply)), Counted(Op(Divide)), Counted(Op(Power)),
        Counted(Op(MatMul)), Counted(Op(Neg)), Counted(Op(Log)), Counted(Op(Sum)),
        Counted(Op(Relu)), Counted(Op(Sigmoid))])])

  /** `reset_counts(root)`: zero the counter of a class that has one and stop
      there; otherwise recurse into the subclasses in order. */
  function ResetCounts(c: map<NodeKind, nat>, t: ClassTree): map<NodeKind, nat>
    decreases t, 1
  {
    if t.counter.Some? then c[t.counter.value := 0] else ResetFrom(c, t, 0)
  }

  function ResetFrom(c: map<NodeKind, nat>, t: ClassTree, i: nat): map<NodeKind, nat>
    requires i <= |t.subclasses|
    decreases t, 0, |t.subclasses| - i
  {
    if i == |t.subclasses| then c else ResetFrom(ResetCounts(c, t.subclasses[i]), t, i + 1)
  }

  /** The counters `reset_counts` reaches: those of the first classes with a
      counter on each path down from `t`. */
  function Frontier(t: ClassTree): set<NodeKind>
    decreases t, 1
  {
    if t.counter.Some? then {t.counter.value} else FrontierFrom(t, 0)
  }

  function FrontierFrom(t: ClassTree, i: nat): set<NodeKind>
    requires i <= |t.subclasses|
    decreases t, 0, |t.subclasses| - i
  {
    if i == |t.subclasses| then {} else Frontier(t.subclasses[i]) + FrontierFrom(t, i + 1)
  }

  /** `reset_counts` zeroes exactly the counters of the frontier and leaves
      every other counter as it was. */
  lemma {:induction false} ResetCountsZeroesFrontier(c: map<NodeKind, nat>, t: ClassTree)
    ensures var r := ResetCounts(c, t);
      && r.Keys == c.Keys + Frontier(t)
      && forall k :: k in r ==> r[k] == if k in Frontier(t) then 0 else c[k]
    decreases t, 1
  {
    if t.counter.None? {
      ResetFromZeroesFrontier(c, t, 0);
    }
  }

  lemma {:induction false} ResetFromZeroesFrontier(c: map<NodeKind, nat>, t: ClassTree, i: nat)
    requires i <= |t.subclasses|
    ensures var r := ResetFrom(c, t, i);
      && r.Keys == c.Keys + FrontierFrom(t, i)
      && forall k :: k in r ==> r[k] == if k in FrontierFrom(t, i) then 0 else c[k]
    decreases t, 0, |t.subclasses| - i
  {
    if i < |t.subclasses| {
      ResetCountsZeroesFrontier(c, t.subclasses[i]);
      ResetFromZeroesFrontier(ResetCounts(c, t.subclasses[i]), t, i + 1);
    }
  }

  /** Every class of the engine is reached from `Node`. */
  lemma NodeClassesFrontier()
    ensures forall k: NodeKind :: k in Frontier(NodeClasses)
  {
    var ops := NodeClasses.subclasses[2];
    assert FrontierFrom(ops, 10) == {};
    assert FrontierFrom(ops, 5) == {Op(Neg), Op(Log), Op(Sum), Op(Relu), Op(Sigmoid)};
    assert FrontierFrom(ops, 0) == {Op(Add), Op(Multiply), Op(Divide), Op(Power), Op(MatMul),
                                    Op(Neg), Op(Log), Op(Sum), Op(Relu), Op(Sigmoid)};
    assert Frontier(NodeClasses) == AllKinds;
    forall k: NodeKind
      ensures k in Frontier(NodeClasses)
    {
      AllKindsComplete(k);
    }
  }

  /** `reset_counts(Node)` sets the counter of every node class to 0. */
  lemma ResetAllCounters(c: map<NodeKind, nat>)
    ensures forall k: NodeKind :: k in ResetCounts(c, NodeClasses) && ResetCounts(c, NodeClasses)[k] == 0
  {
    ResetCountsZeroesFrontier(c, NodeClasses);
    NodeClassesFrontier();
  }

  /** After a reset, the next constant built without a name is `Const/0`,
      and likewise for every other class. */
  lemma DefaultNamesRestartAfterReset(w: World, k: NodeKind, data: Tensor)
    requires ValidWorld(w) && w.graph.Some? && (k == Const || k == Var)
    ensures k in ResetCounts(w.counts, NodeClasses)
    ensures var w0 := w.(counts := ResetCounts(w.counts, NodeClasses));
      var (w', r) := NewLeaf(w0, k, data, None);
      r.Ok? && w'.nodes[r.value].name == Prefix(k) + "/0"
  {
    ResetAllCounters(w.counts);
  }

  /** After a reset, the next operator of each class built without a name is
      named after the class with the number 0 (`add/0`, `matmul/0`, ...). */
  lemma OperatorNamesRestartAfterReset(nm: Numerics, w: World, op: OpKind, inputs: seq<nat>)
    requires ValidWorld(w) && w.graph.Some? && |inputs| == Arity(op)
    requires forall k :: 0 <= k < |inputs| ==> inputs[k] in w.nodes
    ensures Op(op) in ResetCounts(w.counts, NodeClasses)
    ensures var w0 := w.(counts := ResetCounts(w.counts, NodeClasses));
      var (w', r) := NewOperator(nm, w0, op, inputs, None);
      r.Ok? && w'.nodes[r.value].name == Prefix(Op(op)) + "/0"
  {
    ResetAllCounters(w.counts);
    var w0 := w.(counts := ResetCounts(w.counts, NodeClasses));
    assert ValidWorld(w0);
    NewOperatorNode(nm, w0, op, inputs, None);
  }
}
