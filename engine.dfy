/** The engine's objects as the program keeps them: `Runtime` holds what the
    Python program keeps in class attributes and module globals (every node
    object, the `count` attribute of each node class, `GlobalState.graph`),
    and `Graph` is tensorflood/engine/Graph.py.  The constructors and the
    operators say what they do through `World()`, the value of the state that
    module `Registry` describes; `Backward` says what it does to the node
    store through `BackwardResult` of module `Backprop`. */
module Engine {
  import opened Tensors
  import opened Operators
  import opened Nodes
  import opened TopoSort
  import opened Adjoint
  import opened Backprop
  import opened Registry

  class Runtime {
    /** The elementary functions `forward` and `backward_` evaluate. */
    const numerics: Numerics
    /** Every node object, by id. */
    var nodes: Store
    var nextId: nat
    /** The `count` attribute of each node class. */
    var counts: map<NodeKind, nat>
    /** `GlobalState.graph`; null when it is not set. */
    var active: Graph?

    function World(): World
      reads this, active
    {
      Registry.World(nodes, nextId, counts,
        if active == null then None
        else Some(Sets(active.operators, active.constants, active.variables)))
    }

    ghost predicate Valid()
      reads this, active
    {
      ValidWorld(World())
    }

    /** The program before any graph exists: no nodes, every counter 0. */
    constructor(nm: Numerics)
      ensures numerics == nm && nodes == map[] && nextId == 0
      ensures counts == InitialCounts && active == null
      ensures Valid()
    {
      numerics := nm;
      nodes := map[];
      nextId := 0;
      counts := InitialCounts;
      active := null;
      new;
      forall k: NodeKind
        ensures k in counts
      {
        AllKindsComplete(k);
      }
    }

    /** `Constant(data, name)`. */
    method NewConstant(data: Tensor, name: Option<string>) returns (r: Result<nat>)
      requires Valid()
      modifies this, active
      ensures active == old(active)
      ensures (World(), r) == NewLeaf(old(World()), Const, data, name)
      ensures Valid()
    {
      ghost var w0 := World();
      if active == null {
        r := Err(NoActiveGraph);
      } else {
        var id := nextId;
        active.constants := active.constants + {id};
        var n := if name.Some? then name.value else DefaultName(Const, counts[Const]);
        nodes := nodes[id := NodeRec(Const, n, [], [], data, Nodes.ZeroGrad)];
        counts := counts[Const := counts[Const] + 1];
        nextId := nextId + 1;
        r := Ok(id);
      }
      NewLeafKeeps(w0, Const, data, name);
    }

    /** `Variable(data, name)`. */
    method NewVariable(data: Tensor, name: Option<string>) returns (r: Result<nat>)
      requires Valid()
      modifies this, active
      ensures active == old(active)
      ensures (World(), r) == NewLeaf(old(World()), Var, data, name)
      ensures Valid()
    {
      ghost var w0 := World();
      if active == null {
        r := Err(NoActiveGraph);
      } else {
        var id := nextId;
        active.variables := active.variables + {id};
        var n := if name.Some? then name.value else DefaultName(Var, counts[Var]);
        nodes := nodes[id := NodeRec(Var, n, [], [], data, Nodes.ZeroGrad)];
        counts := counts[Var := counts[Var] + 1];
        nextId := nextId + 1;
        r := Ok(id);
      }
      NewLeafKeeps(w0, Var, data, name);
    }

    /** The constructor of an operator variant, `op(input_nodes, name)`. */
    method NewOperator(op: OpKind, inputs: seq<nat>, name: Option<string>) returns (r: Result<nat>)
      requires Valid() && forall k :: 0 <= k < |inputs| ==> inputs[k] in nodes
      modifies this, active
      ensures active == old(active)
      ensures (World(), r) == Registry.NewOperator(numerics, old(World()), op, inputs, name)
      ensures Valid()
    {
      ghost var w0 := World();
      assert Op(op) in counts;
      if active == null {
        r := Err(NoActiveGraph);
      } else {
        var id := nextId;
        active.operators := active.operators + {id};
        nextId := nextId + 1;
        if |inputs| != Arity(op) {
          r := Err(ArityMismatch);
          assert (World(), r) == Registry.NewOperator(numerics, w0, op, inputs, name);
        } else {
          var inputData := InputValues(nodes, inputs);
          var n := if name.Some? then name.value else DefaultName(Op(op), counts[Op(op)]);
          nodes := nodes[id := NodeRec(Op(op), n, inputs, inputData, Forward(numerics, op, inputData), Nodes.ZeroGrad)];
          counts := counts[Op(op) := counts[Op(op)] + 1];
          r := Ok(id);
          assert (World(), r) == Registry.NewOperator(numerics, w0, op, inputs, name);
        }
      }
      NewOperatorKeeps(numerics, w0, op, inputs, name);
    }

    /** `OperatorBinder.bind_(op, lhs, rhs)`. */
    method Bind(op: OpKind, lhs: nat, rhs: Operand) returns (r: Result<nat>)
      requires Valid() && lhs in nodes && OperandIn(World(), rhs)
      modifies this, active
      ensures active == old(active)
      ensures (World(), r) == Registry.Bind(numerics, old(World()), op, lhs, rhs)
      ensures Valid()
    {
      match rhs
      case NodeOperand(id) =>
        r := NewOperator(op, [lhs, id], None);
      case Number(x) =>
        var c := NewConstant(Scalar(x), None);
        if c.Err? {
          return c;
        }
        NewLeafKeeps(old(World()), Const, Scalar(x), None);
        r := NewOperator(op, [lhs, c.value], None);
      case Other =>
        r := Err(IncompatibleTypes);
    }

    /** `self <op> other` for the binary operators `bind` installs. */
    method Infix(i: Infix, self: nat, other: Operand) returns (r: Result<nat>)
      requires Valid() && self in nodes && OperandIn(World(), other)
      modifies this, active
      ensures active == old(active)
      ensures (World(), r) == ApplyInfix(numerics, old(World()), i, self, other)
      ensures Valid()
    {
      match i
      case Minus =>
        r := Subtract(self, other);
      case RMinus =>
        r := SubtractFrom(self, other);
      case _ =>
        r := Bind(InfixKind(i), self, other);
    }

    /** `self - other`: `add(self, -other)`, negating a node operand first. */
    method Subtract(self: nat, other: Operand) returns (r: Result<nat>)
      requires Valid() && self in nodes && OperandIn(World(), other)
      modifies this, active
      ensures active == old(active)
      ensures (World(), r) == ApplyInfix(numerics, old(World()), Minus, self, other)
      ensures Valid()
    {
      var negated: Operand;
      match other {
        case NodeOperand(id) =>
          var n := NewOperator(Neg, [id], None);
          if n.Err? {
            return Err(n.error);
          }
          negated := NodeOperand(n.value);
        case Number(v) =>
          negated := Number(-v);
        case Other =>
          return Err(IncompatibleTypes);
      }
      NegatedFacts(numerics, old(World()), other);
      r := Bind(Add, self, negated);
    }

    /** `other - self` (the reflected `-`): `add(-self, other)`. */
    method SubtractFrom(self: nat, other: Operand) returns (r: Result<nat>)
      requires Valid() && self in nodes && OperandIn(World(), other)
      modifies this, active
      ensures active == old(active)
      ensures (World(), r) == ApplyInfix(numerics, old(World()), RMinus, self, other)
      ensures Valid()
    {
      var n := NewOperator(Neg, [self], None);
      if n.Err? {
        return n;
      }
      NewOperatorKeeps(numerics, old(World()), Neg, [self], None);
      r := Bind(Add, n.value, other);
    }

    /** `-x`, `x.log()`, `x.sum()`, `x.relu()` and `x.sigmoid()`. */
    method Unary(op: OpKind, self: nat) returns (r: Result<nat>)
      requires Valid() && self in nodes && Arity(op) == 1
      modifies this, active
      ensures active == old(active)
      ensures (World(), r) == Registry.NewOperator(numerics, old(World()), op, [self], None)
      ensures Valid()
    {
      r := NewOperator(op, [self], None);
    }

    /** Assigning `x.data`; the property setter of `Constant` refuses it. */
    method SetData(id: nat, v: Tensor) returns (r: Result<()>)
      requires Valid() && id in nodes
      modifies this`nodes
      ensures (World(), r) == Registry.SetData(old(World()), id, v)
      ensures Valid()
    {
      SetDataFacts(World(), id, v);
      if nodes[id].kind == Const {
        return Err(CannotReassignConstant);
      }
      nodes := nodes[id := nodes[id].(data := v)];
      r := Ok(());
    }

    /** The `data` of a node (for a constant, the property getter). */
    function Data(id: nat): Tensor
      requires id in nodes
      reads this
    {
      nodes[id].data
    }

    /** `zero_grad()`. */
    method ZeroGrad(id: nat)
      requires Valid() && id in nodes
      modifies this`nodes
      ensures World() == old(World()).(nodes := old(nodes)[id := old(nodes)[id].(grad := Nodes.ZeroGrad)])
      ensures Valid()
    {
      SameButGradsWellFormed(nodes, nodes[id := nodes[id].(grad := Nodes.ZeroGrad)]);
      nodes := nodes[id := nodes[id].(grad := Nodes.ZeroGrad)];
    }

    /** The `zip(node.input_nodes, grads)` loop of `backward`:
        `input_node.grad += grad` for each pair in turn. */
    method AddGrads(cs: seq<(nat, Tensor)>)
      requires forall k :: 0 <= k < |cs| ==> cs[k].0 in nodes
      modifies this`nodes
      ensures SameButGrads(old(nodes), nodes)
      ensures GradsOf(nodes) == Accumulate(GradAdd, GradsOf(old(nodes)), cs)
    {
      ghost var s0 := nodes;
      var k := 0;
      while k < |cs|
        invariant 0 <= k <= |cs|
        invariant SameButGrads(s0, nodes)
        invariant Accumulate(GradAdd, GradsOf(nodes), cs[k..]) == Accumulate(GradAdd, GradsOf(s0), cs)
      {
        var (x, t) := cs[k];
        AccumulateFrom(GradAdd, GradsOf(nodes), cs, k);
        AddGradFacts(nodes, x, t);
        nodes := nodes[x := nodes[x].(grad := GradAdd(nodes[x].grad, t))];
        k := k + 1;
      }
      assert cs[k..] == [];
    }

    /** `node.backward()`: seed the last node of the topological order with
        gradient 1, then sweep the order. */
    method Backward(n: nat)
      requires Valid() && n in nodes
      modifies this`nodes
      ensures nodes == BackwardResult(WrittenRule(numerics), old(nodes), n)
      ensures Valid()
    {
      ghost var s0 := nodes;
      var order := TopologicalSort(nodes, n);
      TopologicalOrderEndsAtStart(nodes, n);
      var last := order[|order| - 1];
      SeedFacts(nodes, last);
      nodes := nodes[last := nodes[last].(grad := Scalar(1.0))];
      SweepOrder(s0, order);
      SweptIsBackward(WrittenRule(numerics), s0, nodes, n);
    }

    /** The loop over `reversed(order)`: each node, from the last to the
        first, passes its contributions to its inputs.  `s` is the store
        the order was computed on; only gradients differ from it. */
    method SweepOrder(ghost s: Store, order: seq<nat>)
      requires WellFormed(s) && SameButGrads(s, nodes)
      requires forall k :: 0 <= k < |order| ==> order[k] in s
      modifies this`nodes
      ensures SameButGrads(s, nodes)
      ensures GradsOf(nodes) == Sweep(GradAdd, StorePass(WrittenRule(numerics), s), GradsOf(old(nodes)), order)
    {
      ghost var rule := WrittenRule(numerics);
      ghost var g0 := GradsOf(nodes);
      var i := |order|;
      while i > 0
        invariant 0 <= i <= |order|
        invariant SameButGrads(s, nodes)
        invariant GradsOf(nodes) == Sweep(GradAdd, StorePass(rule, s), g0, order[i..])
      {
        i := i - 1;
        var c := order[i];
        assert order[i..][1..] == order[i + 1..] && order[i..][0] == c;
        ContributionsIgnoreGrads(rule, s, nodes, c, nodes[c].grad);
        AddGrads(Contributions(WrittenRule(numerics), nodes, c, nodes[c].grad));
      }
    }
  }

  /** A store that differs from `s` only in holding the swept gradients is
      the result of `backward`. */
  lemma SweptIsBackward(rule: Rule, s: Store, t: Store, n: nat)
    requires WellFormed(s) && n in s && SameButGrads(s, t)
    requires GradsOf(t) == Sweep<Tensor>(GradAdd, StorePass(rule, s), Seed(s, n), TopologicalOrder(s, n))
    ensures t == BackwardResult(rule, s, n)
  {
    WithOwnGrads(s, t);
  }

  /** Setting the start node's gradient in place gives `Seed`. */
  lemma SeedFacts(s: Store, n: nat)
    requires n in s
    ensures SameButGrads(s, s[n := s[n].(grad := Scalar(1.0))])
    ensures GradsOf(s[n := s[n].(grad := Scalar(1.0))]) == Seed(s, n)
  {
  }

  /** Adding to one gradient in place is `AddTo` on the gradient map. */
  lemma AddGradFacts(s: Store, x: nat, t: Tensor)
    requires x in s
    ensures SameButGrads(s, s[x := s[x].(grad := GradAdd(s[x].grad, t))])
    ensures GradsOf(s[x := s[x].(grad := GradAdd(s[x].grad, t))]) == AddTo(GradAdd, GradsOf(s), x, t)
  {
  }

  class Graph {
    var operators: set<nat>
    var constants: set<nat>
    var variables: set<nat>

    /** `Graph()`: becomes the active graph, with empty node sets. */
    constructor(rt: Runtime)
      requires rt.Valid()
      modifies rt
      ensures rt.active == this
      ensures operators == {} && constants == {} && variables == {}
      ensures rt.nodes == old(rt.nodes) && rt.nextId == old(rt.nextId) && rt.counts == old(rt.counts)
      ensures rt.Valid()
    {
      operators := {};
      constants := {};
      variables := {};
      new;
      rt.active := this;
    }

    /** `reset_counts(root)`. */
    method ResetCounts(rt: Runtime, root: ClassTree)
      modifies rt
      ensures rt.counts == Registry.ResetCounts(old(rt.counts), root)
      ensures rt.nodes == old(rt.nodes) && rt.nextId == old(rt.nextId) && rt.active == old(rt.active)
      decreases root
    {
      if root.counter.Some? {
        rt.counts := rt.counts[root.counter.value := 0];
      } else {
        var i := 0;
        while i < |root.subclasses|
          invariant 0 <= i <= |root.subclasses|
          invariant ResetFrom(rt.counts, root, i) == Registry.ResetCounts(old(rt.counts), root)
          invariant rt.nodes == old(rt.nodes) && rt.nextId == old(rt.nextId) && rt.active == old(rt.active)
        {
          ResetCounts(rt, root.subclasses[i]);
          i := i + 1;
        }
      }
    }

    /** `__enter__`. */
    method Enter() returns (g: Graph)
      ensures g == this
    {
      g := this;
    }

    /** `__exit__`: unset the active graph (whichever it is, if any) and reset
      every counter; the node sets stay as they are. */
    method Exit(rt: Runtime)
      requires rt.Valid()
      modifies rt
      ensures rt.active == null
      ensures rt.counts == Registry.ResetCounts(old(rt.counts), NodeClasses)
      ensures forall k: NodeKind :: k in rt.counts && rt.counts[k] == 0
      ensures rt.nodes == old(rt.nodes) && rt.nextId == old(rt.nextId)
      ensures rt.Valid()
    {
      rt.active := null;
      ResetCounts(rt, NodeClasses);
      ResetAllCounters(old(rt.counts));
    }

    /** `reset()`: reset every counter and empty this graph's node sets. */
    method Reset(rt: Runtime)
      requires rt.Valid()
      modifies this, rt
      ensures operators == {} && constants == {} && variables == {}
      ensures rt.counts == Registry.ResetCounts(old(rt.counts), NodeClasses)
      ensures forall k: NodeKind :: k in rt.counts && rt.counts[k] == 0
      ensures rt.nodes == old(rt.nodes) && rt.nextId == old(rt.nextId) && rt.active == old(rt.active)
      ensures rt.Valid()
    {
      ResetCounts(rt, NodeClasses);
      ResetAllCounters(old(rt.counts));
      operators := {};
      constants := {};
      variables := {};
    }
  }
}
