/** `topological_sort` (tensorflood/engine/utils.py): a depth-first walk from
    a start node over `input_nodes` that appends a node to the result after all
    its inputs, skipping nodes already in the `visited` set.

    `Visit` and `VisitAll` state the walk as functions over the pair
    (`visited`, `res`); the class `Sorter` is the walk itself, with the two
    variables as fields its recursive method updates, proved to compute
    exactly what `Visit` describes. */
module TopoSort {
  import opened Nodes

  /** The state `_dfs` threads through its calls. */
  datatype Walk = Walk(visited: set<nat>, order: seq<nat>)

  predicate InputsBelow(s: Store, ins: seq<nat>, bound: nat)
  {
    forall k :: 0 <= k < |ins| ==> ins[k] in s && ins[k] < bound
  }

  lemma InputsOf(s: Store, n: nat)
    requires WellFormed(s) && n in s
    ensures InputsBelow(s, s[n].inputs, n)
  {
    assert WellFormedAt(s, n);
  }

  /** `_dfs(n)`: nothing if `n` is visited; otherwise mark it, walk its
      inputs in their listed order, then append it. */
  function Visit(s: Store, n: nat, w: Walk): Walk
    requires WellFormed(s) && n in s
    decreases n, 1
  {
    if n in w.visited then w
    else
      InputsOf(s, n);
      var w1 := VisitAll(s, s[n].inputs, n, Walk(w.visited + {n}, w.order));
      Walk(w1.visited, w1.order + [n])
  }

  /** The `for input_node in node.input_nodes` loop of `_dfs`. */
  function VisitAll(s: Store, ins: seq<nat>, bound: nat, w: Walk): Walk
    requires WellFormed(s) && InputsBelow(s, ins, bound)
    decreases bound, 0, |ins|
  {
    if ins == [] then w else VisitAll(s, ins[1..], bound, Visit(s, ins[0], w))
  }

  /** `topological_sort(n)`. */
  function TopologicalOrder(s: Store, n: nat): (r: seq<nat>)
    requires WellFormed(s) && n in s
    ensures forall k :: 0 <= k < |r| ==> r[k] in s
  {
    VisitFacts(s, n, Walk({}, []));
    Visit(s, n, Walk({}, [])).order
  }

  // ---------------------------------------------------------------------------
  // dependency closure

  /** `n` and every node reachable from it through `input_nodes`. */
  function Closure(s: Store, n: nat): set<nat>
    requires WellFormed(s) && n in s
    decreases n, 1
  {
    InputsOf(s, n);
    {n} + ClosureAll(s, s[n].inputs, n)
  }

  function ClosureAll(s: Store, ins: seq<nat>, bound: nat): set<nat>
    requires WellFormed(s) && InputsBelow(s, ins, bound)
    decreases bound, 0, |ins|
  {
    if ins == [] then {} else Closure(s, ins[0]) + ClosureAll(s, ins[1..], bound)
  }

  /** Every node of the closure is stored and no newer than `n`. */
  lemma {:induction false} ClosureBelow(s: Store, n: nat)
    requires WellFormed(s) && n in s
    ensures forall y :: y in Closure(s, n) ==> y in s && y <= n
    decreases n, 1
  {
    InputsOf(s, n);
    ClosureAllBelow(s, s[n].inputs, n);
  }

  lemma {:induction false} ClosureAllBelow(s: Store, ins: seq<nat>, bound: nat)
    requires WellFormed(s) && InputsBelow(s, ins, bound)
    ensures forall y :: y in ClosureAll(s, ins, bound) ==> y in s && y < bound
    decreases bound, 0, |ins|
  {
    if ins != [] {
      assert ins[0] in ins;
      ClosureBelow(s, ins[0]);
      ClosureAllBelow(s, ins[1..], bound);
    }
  }

  /** The closure of a list of inputs contains each input. */
  lemma {:induction false} ClosureAllHas(s: Store, ins: seq<nat>, bound: nat, k: nat)
    requires WellFormed(s) && InputsBelow(s, ins, bound) && k < |ins|
    ensures ins[k] in ClosureAll(s, ins, bound)
    decreases |ins|
  {
    if k > 0 {
      ClosureAllHas(s, ins[1..], bound, k - 1);
    }
  }

  /** A set of stored nodes that contains the inputs of each of its members. */
  predicate Closed(s: Store, m: set<nat>)
  {
    forall x :: x in m ==> x in s && forall j :: j in s[x].inputs ==> j in m
  }

  lemma {:induction false} ClosureWithin(s: Store, m: set<nat>, n: nat)
    requires WellFormed(s) && Closed(s, m) && n in m
    ensures Closure(s, n) <= m
    decreases n, 1
  {
    InputsOf(s, n);
    ClosureAllWithin(s, m, s[n].inputs, n);
  }

  lemma {:induction false} ClosureAllWithin(s: Store, m: set<nat>, ins: seq<nat>, bound: nat)
    requires WellFormed(s) && Closed(s, m) && InputsBelow(s, ins, bound)
    requires forall j :: j in ins ==> j in m
    ensures ClosureAll(s, ins, bound) <= m
    decreases bound, 0, |ins|
  {
    if ins != [] {
      assert ins[0] in ins;
      ClosureWithin(s, m, ins[0]);
      ClosureAllWithin(s, m, ins[1..], bound);
    }
  }

  // ---------------------------------------------------------------------------
  // what the walk keeps true

  /** Each node in the list comes after all its inputs. */
  predicate Ordered(s: Store, o: seq<nat>)
  {
    forall k :: 0 <= k < |o| ==> o[k] in s && forall j :: j in s[o[k]].inputs ==> j in o[..k]
  }

  predicate Distinct(o: seq<nat>)
  {
    forall p, q :: 0 <= p < q < |o| ==> o[p] != o[q]
  }

  /** The list holds no node twice, lists inputs first and only visited nodes. */
  predicate Good(s: Store, w: Walk)
  {
    && Ordered(s, w.order)
    && Distinct(w.order)
    && forall x :: x in w.order ==> x in w.visited
  }

  /** Visited but not yet appended: the nodes whose `_dfs` call is still open. */
  function Pending(w: Walk): set<nat>
  {
    set x | x in w.visited && x !in w.order
  }

  lemma OrderedClosed(s: Store, o: seq<nat>)
    requires Ordered(s, o)
    ensures Closed(s, set x | x in o)
  {
    forall x | x in o
      ensures x in s && forall j :: j in s[x].inputs ==> j in o
    {
      var k :| 0 <= k < |o| && o[k] == x;
      forall j | j in s[x].inputs
        ensures j in o
      {
        assert j in o[..k];
      }
    }
  }

  lemma OrderedAppend(s: Store, o: seq<nat>, n: nat)
    requires Ordered(s, o) && n in s
    requires forall j :: j in s[n].inputs ==> j in o
    ensures Ordered(s, o + [n])
  {
    var o' := o + [n];
    forall k | 0 <= k < |o'|
      ensures o'[k] in s && forall j :: j in s[o'[k]].inputs ==> j in o'[..k]
    {
      if k < |o| {
        assert o'[..k] == o[..k];
      } else {
        assert o'[..k] == o;
      }
    }
  }

  lemma OrderedPrefix(s: Store, o: seq<nat>, p: nat)
    requires Ordered(s, o) && p <= |o|
    ensures Ordered(s, o[..p])
  {
    forall k | 0 <= k < p
      ensures o[..p][k] in s && forall j :: j in s[o[..p][k]].inputs ==> j in o[..p][..k]
    {
      assert o[..p][..k] == o[..k];
    }
  }

  /** The effect of one `_dfs(n)` call on a consistent state, when every open
      call is for a node newer than `n`: the result keeps the old list as a
      prefix and appends exactly the part of `n`'s closure not yet listed. */
  lemma {:induction false} VisitFacts(s: Store, n: nat, w: Walk)
    requires WellFormed(s) && n in s && Good(s, w)
    requires forall v :: v in Pending(w) ==> v > n
    ensures var w' := Visit(s, n, w);
      && Good(s, w')
      && w.order <= w'.order
      && Pending(w') == Pending(w)
      && (forall x :: x in w'.order <==> x in w.order || x in Closure(s, n))
      && w'.visited == w.visited + Closure(s, n)
    decreases n, 1
  {
    var w' := Visit(s, n, w);
    InputsOf(s, n);
    if n in w.visited {
      assert n !in Pending(w);
      OrderedClosed(s, w.order);
      ClosureWithin(s, (set x | x in w.order), n);
    } else {
      var ins := s[n].inputs;
      var w0 := Walk(w.visited + {n}, w.order);
      assert Pending(w0) == Pending(w) + {n};
      VisitAllFacts(s, ins, n, w0);
      var w1 := VisitAll(s, ins, n, w0);
      assert n in Pending(w1);
      forall j | j in ins
        ensures j in w1.order
      {
        var k :| 0 <= k < |ins| && ins[k] == j;
        ClosureAllHas(s, ins, n, k);
      }
      OrderedAppend(s, w1.order, n);
      assert Pending(w') == Pending(w1) - {n};
    }
  }

  lemma {:induction false} VisitAllFacts(s: Store, ins: seq<nat>, bound: nat, w: Walk)
    requires WellFormed(s) && InputsBelow(s, ins, bound) && Good(s, w)
    requires forall v :: v in Pending(w) ==> v >= bound
    ensures var w' := VisitAll(s, ins, bound, w);
      && Good(s, w')
      && w.order <= w'.order
      && Pending(w') == Pending(w)
      && (forall x :: x in w'.order <==> x in w.order || x in ClosureAll(s, ins, bound))
      && w'.visited == w.visited + ClosureAll(s, ins, bound)
    decreases bound, 0, |ins|
  {
    if ins != [] {
      assert ins[0] in ins;
      VisitFacts(s, ins[0], w);
      var w1 := Visit(s, ins[0], w);
      VisitAllFacts(s, ins[1..], bound, w1);
    }
  }

  // ---------------------------------------------------------------------------
  // properties of topological_sort

  /** The result lists exactly the start node's dependency closure, each node
      once, each after all of its inputs. */
  lemma TopologicalOrderSound(s: Store, n: nat)
    requires WellFormed(s) && n in s
    ensures var o := TopologicalOrder(s, n);
      && Distinct(o)
      && Ordered(s, o)
      && (forall x :: x in o <==> x in Closure(s, n))
  {
    VisitFacts(s, n, Walk({}, []));
  }

  /** The start node is the last element. */
  lemma TopologicalOrderEndsAtStart(s: Store, n: nat)
    requires WellFormed(s) && n in s
    ensures var o := TopologicalOrder(s, n);
      |o| >= 1 && o[|o| - 1] == n
  {
  }

  /** A leaf start node yields a one-element list. */
  lemma TopologicalOrderOfLeaf(s: Store, n: nat)
    requires WellFormed(s) && n in s && s[n].inputs == []
    ensures TopologicalOrder(s, n) == [n]
  {
    assert {} + {n} == {n} && [] + [n] == [n];
    assert VisitAll(s, [], n, Walk({n}, [])) == Walk({n}, []);
    assert Visit(s, n, Walk({}, [])) == Walk({n}, [n]);
  }

  /** A node precedes every node whose closure contains it: the transitive
      inputs of each listed node come before it. */
  lemma TopologicalOrderInputsFirst(s: Store, n: nat, p: nat, q: nat)
    requires WellFormed(s) && n in s
    requires p < |TopologicalOrder(s, n)| && q < |TopologicalOrder(s, n)|
    ensures var o := TopologicalOrder(s, n);
      o[p] in s && (o[q] in Closure(s, o[p]) ==> q <= p)
  {
    var o := TopologicalOrder(s, n);
    TopologicalOrderSound(s, n);
    var x := o[p];
    OrderedPrefix(s, o, p);
    OrderedClosed(s, o[..p]);
    var m := set y | y in o[..p];
    InputsOf(s, x);
    forall j | j in s[x].inputs
      ensures j in m
    {
      assert j in o[..p];
    }
    ClosureAllWithin(s, m, s[x].inputs, x);
    if q != p && o[q] in Closure(s, x) {
      assert o[q] in m;
      var r :| 0 <= r < p && o[..p][r] == o[q];
      assert o[r] == o[q];
    }
  }

  /** `_dfs` with extra visited nodes that lie outside the walk's reach (all
      newer than the node visited) lists the same nodes. */
  lemma {:induction false} VisitIgnoresNewer(s: Store, n: nat, w: Walk, extra: set<nat>)
    requires WellFormed(s) && n in s
    requires forall e :: e in extra ==> e > n
    ensures var r := Visit(s, n, w);
      Visit(s, n, Walk(w.visited + extra, w.order)) == Walk(r.visited + extra, r.order)
    decreases n, 1
  {
    if n !in w.visited {
      InputsOf(s, n);
      VisitAllIgnoresNewer(s, s[n].inputs, n, Walk(w.visited + {n}, w.order), extra);
      assert w.visited + extra + {n} == w.visited + {n} + extra;
    }
  }

  lemma {:induction false} VisitAllIgnoresNewer(s: Store, ins: seq<nat>, bound: nat, w: Walk, extra: set<nat>)
    requires WellFormed(s) && InputsBelow(s, ins, bound)
    requires forall e :: e in extra ==> e >= bound
    ensures var r := VisitAll(s, ins, bound, w);
      VisitAll(s, ins, bound, Walk(w.visited + extra, w.order)) == Walk(r.visited + extra, r.order)
    decreases bound, 0, |ins|
  {
    if ins != [] {
      assert ins[0] in ins;
      assert InputsBelow(s, ins[1..], bound) by {
        forall j | j in ins[1..] ensures j in ins { }
      }
      VisitIgnoresNewer(s, ins[0], w, extra);
      VisitAllIgnoresNewer(s, ins[1..], bound, Visit(s, ins[0], w), extra);
    }
  }

  /** Inputs are explored in their listed order: the sort of a node's first
      input is the beginning of the node's own sort. */
  lemma TopologicalOrderFirstInputFirst(s: Store, n: nat)
    requires WellFormed(s) && n in s && s[n].inputs != []
    ensures s[n].inputs[0] in s
    ensures TopologicalOrder(s, s[n].inputs[0]) <= TopologicalOrder(s, n)
  {
    InputsOf(s, n);
    var ins := s[n].inputs;
    var w0 := Walk({n}, []);
    VisitIgnoresNewer(s, ins[0], Walk({}, []), {n});
    assert {} + {n} == {n};
    var w1 := Visit(s, ins[0], w0);
    assert w1.order == TopologicalOrder(s, ins[0]);
    assert Pending(w0) == {n};
    VisitFacts(s, ins[0], w0);
    VisitAllFacts(s, ins[1..], n, w1);
    var wA := VisitAll(s, ins, n, w0);
    assert wA == VisitAll(s, ins[1..], n, w1);
    assert Visit(s, n, Walk({}, [])) == Walk(wA.visited, wA.order + [n]);
    assert w1.order <= wA.order;
  }

  // ---------------------------------------------------------------------------
  // the walk as written

  /** The `visited` set and `res` list of one `topological_sort` call, and the
      nested function `_dfs` that updates them. */
  class Sorter {
    const store: Store
    var visited: set<nat>
    var res: seq<nat>

    constructor(s: Store)
      ensures store == s && visited == {} && res == []
    {
      store := s;
      visited := {};
      res := [];
    }

    method Dfs(n: nat)
      requires WellFormed(store) && n in store
      modifies this
      ensures Walk(visited, res) == Visit(store, n, old(Walk(visited, res)))
      decreases n
    {
      if n !in visited {
        visited := visited + {n};
        var ins := store[n].inputs;
        InputsOf(store, n);
        ghost var w0 := Walk(visited, res);
        var i := 0;
        while i < |ins|
          invariant 0 <= i <= |ins|
          invariant VisitAll(store, ins[i..], n, Walk(visited, res)) == VisitAll(store, ins, n, w0)
        {
          assert ins[i..][1..] == ins[i + 1..];
          assert ins[i] in ins;
          Dfs(ins[i]);
          i := i + 1;
        }
        res := res + [n];
      }
    }
  }

  /** `topological_sort(start_node)`. */
  method TopologicalSort(s: Store, start: nat) returns (order: seq<nat>)
    requires WellFormed(s) && start in s
    ensures order == TopologicalOrder(s, start)
  {
    var sorter := new Sorter(s);
    sorter.Dfs(start);
    order := sorter.res;
  }
}
