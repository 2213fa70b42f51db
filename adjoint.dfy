/** Reverse-mode accumulation over a list of nodes, independent of what a
    gradient is: gradients of type `G` are kept in a map from node ids,
    `add` is the `+=` on them, and `pass` says what a node processed with
    gradient `v` passes on, as pairs (input id, contribution).

    `Sweep` processes a list from its last element to its first, as the loop
    over `reversed(order)` in `Node.backward` (tensorflood/engine/Node.py)
    does.  `SweepAdjoint` is the main fact: when no node of the list passes
    anything to itself or to a node listed after it, every gradient ends as its start
    value plus every contribution it receives, each computed from the
    sender's final gradient. */
module Adjoint {

  /** What processing node `c` with gradient `v` passes on. */
  type Pass<!G> = (nat, G) -> seq<(nat, G)>

  /** `g[x] += t`; a pair addressed to a node without a gradient is dropped. */
  function AddTo<G(!new)>(add: (G, G) -> G, g: map<nat, G>, x: nat, t: G): (r: map<nat, G>)
    ensures r.Keys == g.Keys
    ensures x in g ==> r[x] == add(g[x], t)
    ensures forall y :: y in g && y != x ==> r[y] == g[y]
  {
    if x in g then g[x := add(g[x], t)] else g
  }

  /** The `+=` of each pair in turn. */
  function Accumulate<G(!new)>(add: (G, G) -> G, g: map<nat, G>, cs: seq<(nat, G)>): (r: map<nat, G>)
    ensures r.Keys == g.Keys
  {
    if cs == [] then g else Accumulate(add, AddTo(add, g, cs[0].0, cs[0].1), cs[1..])
  }

  lemma AccumulateFrom<G(!new)>(add: (G, G) -> G, g: map<nat, G>, cs: seq<(nat, G)>, k: nat)
    requires k < |cs|
    ensures Accumulate(add, g, cs[k..]) == Accumulate(add, AddTo(add, g, cs[k].0, cs[k].1), cs[k + 1..])
  {
    assert cs[k..][1..] == cs[k + 1..];
  }

  /** Processing node `c`: its contributions, computed from its current
      gradient, are added to their targets. */
  function Step<G(!new)>(add: (G, G) -> G, pass: Pass<G>, g: map<nat, G>, c: nat): (r: map<nat, G>)
    ensures r.Keys == g.Keys
  {
    if c in g then Accumulate(add, g, pass(c, g[c])) else g
  }

  /** Processes `p` from its last element to its first. */
  function Sweep<G(!new)>(add: (G, G) -> G, pass: Pass<G>, g: map<nat, G>, p: seq<nat>): (r: map<nat, G>)
    ensures r.Keys == g.Keys
  {
    if p == [] then g else Step(add, pass, Sweep(add, pass, g, p[1..]), p[0])
  }

  /** `v += t` for each `t` in turn. */
  function AddAll<G(!new)>(add: (G, G) -> G, v: G, ts: seq<G>): G
    decreases |ts|
  {
    if ts == [] then v else AddAll(add, add(v, ts[0]), ts[1..])
  }

  /** The contributions in `cs` addressed to `x`, in order. */
  function Filter<G(!new)>(cs: seq<(nat, G)>, x: nat): seq<G>
  {
    if cs == [] then [] else (if cs[0].0 == x then [cs[0].1] else []) + Filter(cs[1..], x)
  }

  /** What node `c` passes to `x` when its gradient is the one in `g`. */
  function Received<G(!new)>(pass: Pass<G>, g: map<nat, G>, c: nat, x: nat): seq<G>
  {
    if c in g then Filter(pass(c, g[c]), x) else []
  }

  /** Everything the nodes of `p` pass to `x`, in processing order (the last
      element of `p` first), each computed from the gradients `g`. */
  function Inflow<G(!new)>(pass: Pass<G>, g: map<nat, G>, p: seq<nat>, x: nat): seq<G>
  {
    if p == [] then [] else Inflow(pass, g, p[1..], x) + Received(pass, g, p[0], x)
  }

  /** Node `c` passes nothing to `x`, whatever its gradient. */
  ghost predicate NeverPasses<G(!new)>(pass: Pass<G>, c: nat, x: nat)
  {
    forall v, i :: 0 <= i < |pass(c, v)| ==> pass(c, v)[i].0 != x
  }

  /** No node of `o` passes anything to itself or to a node listed after it. */
  ghost predicate Upstream<G(!new)>(pass: Pass<G>, o: seq<nat>)
  {
    forall j, k :: 0 <= j <= k < |o| ==> NeverPasses(pass, o[j], o[k])
  }

  lemma {:induction false} AddAllConcat<G(!new)>(add: (G, G) -> G, v: G, a: seq<G>, b: seq<G>)
    ensures AddAll(add, v, a + b) == AddAll(add, AddAll(add, v, a), b)
    decreases |a|
  {
    if a == [] {
      assert a + b == b;
    } else {
      assert (a + b)[0] == a[0] && (a + b)[1..] == a[1..] + b;
      AddAllConcat(add, add(v, a[0]), a[1..], b);
    }
  }

  /** The adds of `Accumulate` reach `x` exactly as the entries addressed to it. */
  lemma {:induction false} AccumulateAt<G(!new)>(add: (G, G) -> G, g: map<nat, G>, cs: seq<(nat, G)>, x: nat)
    requires x in g
    ensures Accumulate(add, g, cs)[x] == AddAll(add, g[x], Filter(cs, x))
    decreases |cs|
  {
    if cs != [] {
      var g1 := AddTo(add, g, cs[0].0, cs[0].1);
      AccumulateAt(add, g1, cs[1..], x);
      if cs[0].0 == x {
        assert Filter(cs, x) == [cs[0].1] + Filter(cs[1..], x);
        AddAllConcat(add, g[x], [cs[0].1], Filter(cs[1..], x));
      } else {
        assert Filter(cs, x) == Filter(cs[1..], x);
      }
    }
  }

  lemma {:induction false} FilterMissing<G(!new)>(cs: seq<(nat, G)>, x: nat)
    requires forall i :: 0 <= i < |cs| ==> cs[i].0 != x
    ensures Filter(cs, x) == []
    decreases |cs|
  {
    if cs != [] {
      FilterMissing(cs[1..], x);
    }
  }

  /** Processing a node that never passes anything to `x` leaves `x`'s
      gradient as it was. */
  lemma StepKeeps<G(!new)>(add: (G, G) -> G, pass: Pass<G>, g: map<nat, G>, c: nat, x: nat)
    requires x in g && NeverPasses(pass, c, x)
    ensures Step(add, pass, g, c)[x] == g[x]
  {
    if c in g {
      var cs := pass(c, g[c]);
      FilterMissing(cs, x);
      AccumulateAt(add, g, cs, x);
    }
  }

  /** A sweep over nodes none of which passes anything to `x` leaves `x`'s
      gradient as it was. */
  lemma {:induction false} SweepKeeps<G(!new)>(add: (G, G) -> G, pass: Pass<G>, g: map<nat, G>, p: seq<nat>, x: nat)
    requires x in g && forall k :: 0 <= k < |p| ==> NeverPasses(pass, p[k], x)
    ensures Sweep(add, pass, g, p)[x] == g[x]
    decreases |p|
  {
    if p != [] {
      SweepKeeps(add, pass, g, p[1..], x);
      StepKeeps(add, pass, Sweep(add, pass, g, p[1..]), p[0], x);
    }
  }

  /** In an upstream list, node `o[k]` receives nothing from the nodes
      before it, which are processed after it: its gradient is final when it
      is processed. */
  lemma {:induction false} SettledWhenProcessed<G(!new)>(add: (G, G) -> G, pass: Pass<G>, g: map<nat, G>, o: seq<nat>, j: nat, k: nat)
    requires Upstream(pass, o) && j <= k < |o| && o[k] in g
    ensures Sweep(add, pass, g, o[j..])[o[k]] == Sweep(add, pass, g, o[k + 1..])[o[k]]
    decreases k - j
  {
    var t := Sweep(add, pass, g, o[j + 1..]);
    assert o[j..][1..] == o[j + 1..] && o[j..][0] == o[j];
    if j < k {
      SettledWhenProcessed(add, pass, g, o, j + 1, k);
    }
    StepKeeps(add, pass, t, o[j], o[k]);
  }

  /** Processing `o[k]` adds to `x` what `o[k]` passes it from its final gradient. */
  lemma SweepOneMore<G(!new)>(add: (G, G) -> G, pass: Pass<G>, g: map<nat, G>, o: seq<nat>, k: nat, x: nat)
    requires Upstream(pass, o) && k < |o| && x in g
    ensures Sweep(add, pass, g, o[k..])[x]
         == AddAll(add, Sweep(add, pass, g, o[k + 1..])[x], Received(pass, Sweep(add, pass, g, o), o[k], x))
  {
    var t := Sweep(add, pass, g, o[k + 1..]);
    assert o[k..][1..] == o[k + 1..] && o[k..][0] == o[k];
    if o[k] in g {
      SettledWhenProcessed(add, pass, g, o, 0, k);
      assert o[0..] == o;
      AccumulateAt(add, t, pass(o[k], t[o[k]]), x);
    }
  }

  /** The gradient of `x` after sweeping the suffix `o[k..]`: its start value
      plus what the swept nodes pass to it, computed from the final gradients. */
  lemma {:induction false} SweepAdjointFrom<G(!new)>(add: (G, G) -> G, pass: Pass<G>, g: map<nat, G>, o: seq<nat>, k: nat, x: nat)
    requires Upstream(pass, o) && k <= |o| && x in g
    ensures Sweep(add, pass, g, o[k..])[x] == AddAll(add, g[x], Inflow(pass, Sweep(add, pass, g, o), o[k..], x))
    decreases |o| - k
  {
    if k == |o| {
      assert o[k..] == [];
    } else {
      var f := Sweep(add, pass, g, o);
      SweepAdjointFrom(add, pass, g, o, k + 1, x);
      SweepOneMore(add, pass, g, o, k, x);
      AddAllConcat(add, g[x], Inflow(pass, f, o[k + 1..], x), Received(pass, f, o[k], x));
      assert o[k..][1..] == o[k + 1..] && o[k..][0] == o[k];
    }
  }

  /** The adjoint equations of a whole upstream list. */
  lemma SweepAdjoint<G(!new)>(add: (G, G) -> G, pass: Pass<G>, g: map<nat, G>, o: seq<nat>, x: nat)
    requires Upstream(pass, o) && x in g
    ensures Sweep(add, pass, g, o)[x] == AddAll(add, g[x], Inflow(pass, Sweep(add, pass, g, o), o, x))
  {
    SweepAdjointFrom(add, pass, g, o, 0, x);
    assert o[0..] == o;
  }
}
