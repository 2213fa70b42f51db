/** `Node.backward` (tensorflood/engine/Node.py) as a function of the node
    store: seed the start node's gradient with 1, then visit the topological
    order from its end, and add what each operator's `backward_` returns for
    its inputs into those inputs' `grad`.

    Backward changes nothing but `grad` attributes, so the sweep is stated on
    the map from node ids to gradients, read against the unchanging rest of
    the store, with the generic sweep of module `Adjoint`;
    `BackwardResult` writes the final gradients back.

    The main theorem, `BackwardAdjoint`, states the final gradient of every
    node as its gradient before the call plus, in processing order, every
    contribution its consumers pass to it, each computed from the consumer's
    final gradient. */
module Backprop {
  import opened Tensors
  import opened Operators
  import opened Nodes
  import opened TopoSort
  import opened Adjoint

  /** A node's `backward_`: from its operator, the input data it captured
      when it was built, its inputs' current data and its own gradient, the
      gradients it passes to its inputs: one for a one-input operator, two
      for a two-input one. */
  type Rule = rule: (OpKind, seq<Tensor>, seq<Tensor>, Tensor) -> Grads
    | forall op, d, c, g :: rule(op, d, c, g).Single? <==> Arity(op) == 1
    witness (op: OpKind, d: seq<Tensor>, c: seq<Tensor>, g: Tensor) => if Arity(op) == 1 then Single(g) else Pair(g, g)

  /** The `backward_` of the operator classes as intended (multiply and
      divide reduce each contribution to its input's shape); the arity guard
      never fails on the nodes of a well-formed store. */
  function OperatorRule(nm: Numerics): (r: Rule)
    ensures forall op, d, c, g :: |d| == Arity(op) && |c| == Arity(op) ==> r(op, d, c, g) == Backward(nm, op, d, c, g)
  {
    (op: OpKind, d: seq<Tensor>, c: seq<Tensor>, g: Tensor) =>
      if |d| == Arity(op) && |c| == Arity(op) then Backward(nm, op, d, c, g)
      else if Arity(op) == 1 then Single(g) else Pair(g, g)
  }

  /** The `backward_` of the operator classes as the code computes it; this
      is the rule `Node.backward` applies. */
  function WrittenRule(nm: Numerics): (r: Rule)
    ensures forall op, d, c, g :: |d| == Arity(op) && |c| == Arity(op) ==> r(op, d, c, g) == BackwardAsWritten(nm, op, d, c, g)
  {
    (op: OpKind, d: seq<Tensor>, c: seq<Tensor>, g: Tensor) =>
      if |d| == Arity(op) && |c| == Arity(op) then BackwardAsWritten(nm, op, d, c, g)
      else if Arity(op) == 1 then Single(g) else Pair(g, g)
  }

  /** Where nothing is broadcast the written rule is the intended one. */
  lemma WrittenRuleWithoutBroadcast(nm: Numerics, op: OpKind, a: Tensor, b: Tensor, g: Tensor)
    requires Arity(op) == 2 && a.shape == b.shape == g.shape && Valid(a) && Valid(b) && Valid(g)
    ensures WrittenRule(nm)(op, [a, b], [a, b], g) == OperatorRule(nm)(op, [a, b], [a, b], g)
  {
    WrittenAgreesWithoutBroadcast(nm, op, a, b, g);
  }

  /** The `grad` attribute of every node. */
  type GradMap = map<nat, Tensor>

  function GradsOf(s: Store): (g: GradMap)
    ensures g.Keys == s.Keys
    ensures forall x :: x in s ==> g[x] == s[x].grad
  {
    map x | x in s :: s[x].grad
  }

  /** The store with its gradients replaced by `g`. */
  function WithGrads(s: Store, g: GradMap): (r: Store)
    requires g.Keys == s.Keys
    ensures SameButGrads(s, r) && GradsOf(r) == g
    ensures forall x :: x in s ==> r[x] == s[x].(grad := g[x])
  {
    map x | x in s :: s[x].(grad := g[x])
  }

  /** A store is its own structure with its own gradients. */
  lemma WithOwnGrads(s: Store, t: Store)
    requires SameButGrads(s, t)
    ensures WithGrads(s, GradsOf(t)) == t
  {
    var r := WithGrads(s, GradsOf(t));
    forall x | x in r
      ensures r[x] == t[x]
    {
    }
  }

  /** The `data` of the given nodes, as an operator's `input_nodes` hold it now. */
  function InputValues(s: Store, ins: seq<nat>): (r: seq<Tensor>)
    requires forall k :: 0 <= k < |ins| ==> ins[k] in s
    ensures |r| == |ins|
    ensures forall k :: 0 <= k < |ins| ==> r[k] == s[ins[k]].data
  {
    if ins == [] then [] else [s[ins[0]].data] + InputValues(s, ins[1..])
  }

  /** The pairs the `zip(node.input_nodes, grads)` loop walks for node `c`
      with gradient `v`: the two results of a two-input operator, the whole
      result of a one-input operator (the `grad = grads` of Node.py line 24),
      and nothing for a leaf. */
  function Contributions(rule: Rule, s: Store, c: nat, v: Tensor): (r: seq<(nat, Tensor)>)
    requires WellFormed(s) && c in s
    ensures |r| == |s[c].inputs|
    ensures forall k :: 0 <= k < |r| ==> r[k].0 == s[c].inputs[k]
  {
    var rec := s[c];
    assert WellFormedAt(s, c);
    if IsLeaf(rec) then []
    else
      var d := rule(rec.kind.op, rec.inputData, InputValues(s, rec.inputs), v);
      if d.Single? then [(rec.inputs[0], d.g)]
      else [(rec.inputs[0], d.ga), (rec.inputs[1], d.gb)]
  }

  /** Changing gradients changes no node's contributions. */
  lemma ContributionsIgnoreGrads(rule: Rule, s: Store, t: Store, c: nat, v: Tensor)
    requires WellFormed(s) && SameButGrads(s, t) && c in s
    ensures WellFormed(t) && Contributions(rule, s, c, v) == Contributions(rule, t, c, v)
  {
    SameButGradsWellFormed(s, t);
    assert InputValues(s, s[c].inputs) == InputValues(t, t[c].inputs);
  }

  /** `input_node.grad += grad`, numpy's broadcasting addition. */
  function GradAdd(a: Tensor, b: Tensor): Tensor
  {
    Zip(a, b, Plus)
  }

  /** What each node of the store passes on when processed. */
  function StorePass(rule: Rule, s: Store): (r: Pass<Tensor>)
    requires WellFormed(s)
    ensures forall c, v :: c in s ==> r(c, v) == Contributions(rule, s, c, v)
  {
    (c: nat, v: Tensor) => if c in s then Contributions(rule, s, c, v) else []
  }

  /** A node passes contributions to its inputs only. */
  lemma PassesOnlyToInputs(rule: Rule, s: Store, c: nat, x: nat)
    requires WellFormed(s) && c in s && x !in s[c].inputs
    ensures NeverPasses(StorePass(rule, s), c, x)
  {
  }

  /** In an order without repeats that lists inputs first, no node passes
      anything to itself or to a later node. */
  lemma OrderedUpstream(rule: Rule, s: Store, o: seq<nat>)
    requires WellFormed(s) && Ordered(s, o) && Distinct(o)
    ensures Upstream(StorePass(rule, s), o)
  {
    forall j, k | 0 <= j <= k < |o|
      ensures NeverPasses(StorePass(rule, s), o[j], o[k])
    {
      PassesOnlyToInputs(rule, s, o[j], o[k]);
    }
  }

  /** The gradients once `order[-1].grad = np.array(1)` has run. */
  function Seed(s: Store, n: nat): (g: GradMap)
    requires n in s
    ensures g.Keys == s.Keys
  {
    GradsOf(s)[n := Scalar(1.0)]
  }

  /** `n.backward()`. */
  function BackwardResult(rule: Rule, s: Store, n: nat): (r: Store)
    requires WellFormed(s) && n in s
    ensures SameButGrads(s, r) && WellFormed(r)
  {
    var r := WithGrads(s, Sweep<Tensor>(GradAdd, StorePass(rule, s), Seed(s, n), TopologicalOrder(s, n)));
    SameButGradsWellFormed(s, r);
    r
  }

  // ---------------------------------------------------------------------------
  // properties of backward

  /** The adjoint equations: after `n.backward()`, every node holds the
      gradient it held before (1 for `n`) plus every contribution its
      consumers in `n`'s closure pass to it, each computed from the
      consumer's own final gradient, added in the order they are processed:
      gradients are never cleared. */
  lemma BackwardAdjoint(rule: Rule, s: Store, n: nat, x: nat)
    requires WellFormed(s) && n in s && x in s
    ensures var r := BackwardResult(rule, s, n);
      r[x].grad == AddAll<Tensor>(GradAdd, if x == n then Scalar(1.0) else s[x].grad,
                          Inflow(StorePass(rule, s), GradsOf(r), TopologicalOrder(s, n), x))
  {
    var o := TopologicalOrder(s, n);
    TopologicalOrderSound(s, n);
    OrderedUpstream(rule, s, o);
    SweepAdjoint<Tensor>(GradAdd, StorePass(rule, s), Seed(s, n), o, x);
  }

  /** Every node of `n`'s closure, `n` included, lies at or below `n`, and
      no node of the closure reads `n`. */
  lemma ClosureDoesNotReadStart(s: Store, n: nat)
    requires WellFormed(s) && n in s
    ensures var o := TopologicalOrder(s, n);
      forall k :: 0 <= k < |o| ==> o[k] in s && n !in s[o[k]].inputs
  {
    var o := TopologicalOrder(s, n);
    TopologicalOrderSound(s, n);
    ClosureBelow(s, n);
    forall k | 0 <= k < |o|
      ensures o[k] in s && n !in s[o[k]].inputs
    {
      assert o[k] in Closure(s, n);
      assert WellFormedAt(s, o[k]);
    }
  }

  /** The start node ends with gradient exactly 1, whatever it held before:
      no node it depends on consumes it. */
  lemma BackwardRootIsOne(rule: Rule, s: Store, n: nat)
    requires WellFormed(s) && n in s
    ensures BackwardResult(rule, s, n)[n] == s[n].(grad := Scalar(1.0))
  {
    var o := TopologicalOrder(s, n);
    ClosureDoesNotReadStart(s, n);
    forall k | 0 <= k < |o|
      ensures NeverPasses(StorePass(rule, s), o[k], n)
    {
      PassesOnlyToInputs(rule, s, o[k], n);
    }
    SweepKeeps<Tensor>(GradAdd, StorePass(rule, s), Seed(s, n), o, n);
  }

  /** Nodes outside the start node's dependency closure are left untouched. */
  lemma BackwardOutsideClosure(rule: Rule, s: Store, n: nat, x: nat)
    requires WellFormed(s) && n in s && x in s && x !in Closure(s, n)
    ensures BackwardResult(rule, s, n)[x] == s[x]
  {
    var o := TopologicalOrder(s, n);
    TopologicalOrderSound(s, n);
    OrderedClosed(s, o);
    forall k | 0 <= k < |o|
      ensures NeverPasses(StorePass(rule, s), o[k], x)
    {
      assert o[k] in o;
      PassesOnlyToInputs(rule, s, o[k], x);
    }
    assert n in Closure(s, n);
    SweepKeeps<Tensor>(GradAdd, StorePass(rule, s), Seed(s, n), o, x);
  }

  /** A leaf passes nothing on. */
  lemma LeafPassesNothing(rule: Rule, s: Store, c: nat, v: Tensor)
    requires WellFormed(s) && c in s && IsLeaf(s[c])
    ensures Contributions(rule, s, c, v) == []
  {
    assert WellFormedAt(s, c);
  }

  /** For `x * x` both contributions reach `x` and are both added. */
  lemma SquareReceivesBoth(rule: Rule, s: Store, g: GradMap, c: nat, x: nat)
    requires WellFormed(s) && c in s && x in s && c in g && s[c].kind == Op(Multiply) && s[c].inputs == [x, x]
    ensures var d := rule(Multiply, s[c].inputData, [s[x].data, s[x].data], g[c]);
      Received(StorePass(rule, s), g, c, x) == [d.ga, d.gb]
  {
    assert WellFormedAt(s, c) && s[c].inputs[0] == x;
    var vals := InputValues(s, [x, x]);
    assert vals == [s[x].data, s[x].data];
    var d := rule(Multiply, s[c].inputData, vals, g[c]);
    var cs: seq<(nat, Tensor)> := [(x, d.ga), (x, d.gb)];
    assert Contributions(rule, s, c, g[c]) == cs;
    assert |cs[1..][1..]| == 0;
    assert Filter(cs[1..], x) == [d.gb] + Filter(cs[1..][1..], x);
    assert Filter(cs, x) == [d.ga] + Filter(cs[1..], x);
  }

  /** Every gradient set to 0, as calling `zero_grad` on every node does. */
  function ZeroAll(s: Store): (r: Store)
    ensures SameButGrads(s, r)
    ensures forall x :: x in r ==> r[x].grad == ZeroGrad
  {
    map x | x in s :: s[x].(grad := ZeroGrad)
  }

  /** Zeroing forgets every gradient. */
  lemma ZeroAllForgetsGrads(s: Store, t: Store)
    requires SameButGrads(s, t)
    ensures ZeroAll(s) == ZeroAll(t)
  {
    var a, b := ZeroAll(s), ZeroAll(t);
    forall x | x in a
      ensures a[x] == b[x]
    {
    }
  }

  /** `zero_grad` on every node followed by `backward` gives the same store
      every time: all that `backward` leaves behind is undone by zeroing. */
  lemma ZeroThenBackwardRepeats(rule: Rule, s: Store, n: nat)
    requires WellFormed(s) && n in s
    ensures var s1 := BackwardResult(rule, ZeroAll(s), n);
      WellFormed(ZeroAll(s1)) && n in s1 && BackwardResult(rule, ZeroAll(s1), n) == s1
  {
    SameButGradsWellFormed(s, ZeroAll(s));
    var s1 := BackwardResult(rule, ZeroAll(s), n);
    SameButGradsTrans(s, ZeroAll(s), s1);
    ZeroAllForgetsGrads(s, s1);
  }
}
