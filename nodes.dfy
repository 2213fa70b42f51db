/** The nodes of a computation graph (tensorflood/engine/Constant.py,
    Variable.py and the attributes an Operator sets in Operator.py): each node
    is a record in a store indexed by a node id.  Ids are handed out in
    creation order, and an operator's inputs exist before it is built, so every
    input id is smaller than the id of the node that consumes it. */
module Nodes {
  import opened Tensors
  import opened Operators

  /** Which class a node is an instance of. */
  datatype NodeKind = Const | Var | Op(op: OpKind)

  /** The attributes of a node object.  Leaves (constants and variables) have
      no `input_nodes`: their `inputs` and `inputData` are empty.  An operator
      records its input ids, the input values it read when it was built
      (`input_data`) and its cached `forward` value. */
  datatype NodeRec = NodeRec(
    kind: NodeKind,
    name: string,
    inputs: seq<nat>,
    inputData: seq<Tensor>,
    data: Tensor,
    grad: Tensor)

  type Store = map<nat, NodeRec>

  /** The `grad = 0` every node starts with and `zero_grad` restores. */
  const ZeroGrad: Tensor := Scalar(0.0)

  predicate IsLeaf(r: NodeRec)
  {
    !r.kind.Op?
  }

  /** Node `id` reads only nodes created before it, and an operator has one
      input (and one cached input value) per argument of its `forward`. */
  predicate WellFormedAt(s: Store, id: nat)
    requires id in s
  {
    var r := s[id];
    && (forall k :: 0 <= k < |r.inputs| ==> r.inputs[k] in s && r.inputs[k] < id)
    && (match r.kind
        case Op(op) => |r.inputs| == Arity(op) && |r.inputData| == Arity(op)
        case _ => r.inputs == [] && r.inputData == [])
  }

  predicate WellFormed(s: Store)
  {
    forall id :: id in s ==> WellFormedAt(s, id)
  }

  /** Adding a node whose inputs all exist and are older keeps the store
      well formed. */
  lemma AddNodeKeepsWellFormed(s: Store, id: nat, r: NodeRec)
    requires WellFormed(s) && id !in s
    requires forall k :: 0 <= k < |r.inputs| ==> r.inputs[k] in s && r.inputs[k] < id
    requires match r.kind
      case Op(op) => |r.inputs| == Arity(op) && |r.inputData| == Arity(op)
      case _ => r.inputs == [] && r.inputData == []
    ensures WellFormed(s[id := r])
  {
    var t := s[id := r];
    forall x | x in t
      ensures WellFormedAt(t, x)
    {
      if x != id {
        assert WellFormedAt(s, x);
      }
    }
  }

  /** `b` differs from `a` at most in the `grad` attributes. */
  predicate SameButGrads(a: Store, b: Store)
  {
    && a.Keys == b.Keys
    && forall id :: id in a ==> b[id] == a[id].(grad := b[id].grad)
  }

  lemma SameButGradsWellFormed(a: Store, b: Store)
    requires WellFormed(a) && SameButGrads(a, b)
    ensures WellFormed(b)
  {
    forall id | id in b
      ensures WellFormedAt(b, id)
    {
      assert b[id].inputs == a[id].inputs;
      assert WellFormedAt(a, id);
    }
  }

  lemma SameButGradsTrans(a: Store, b: Store, c: Store)
    requires SameButGrads(a, b) && SameButGrads(b, c)
    ensures SameButGrads(a, c)
  {
  }

  // ---------------------------------------------------------------------------
  // names

  function DigitChar(d: nat): char
    requires d < 10
  {
    ('0' as int + d) as char
  }

  predicate IsDigits(s: string)
  {
    forall i :: 0 <= i < |s| ==> '0' <= s[i] <= '9'
  }

  /** Decimal notation, as `'{}'.format(n)` writes a non-negative int. */
  function NatToString(n: nat): (r: string)
    ensures |r| >= 1 && IsDigits(r)
    ensures n < 10 <==> |r| == 1
  {
    if n < 10 then [DigitChar(n)] else NatToString(n / 10) + [DigitChar(n % 10)]
  }

  /** Reads a string of decimal digits back as a number. */
  function ParseNat(s: string): nat
    requires IsDigits(s)
  {
    if s == [] then 0 else ParseNat(s[..|s| - 1]) * 10 + (s[|s| - 1] as int - '0' as int)
  }

  lemma {:induction false} ParseNatToString(n: nat)
    ensures ParseNat(NatToString(n)) == n
  {
    var r := NatToString(n);
    if n >= 10 {
      var q := NatToString(n / 10);
      assert r[..|r| - 1] == q;
      ParseNatToString(n / 10);
    }
  }

  /** The text before the `/` of a node's default name, per class. */
  function Prefix(k: NodeKind): string
  {
    match k
    case Const => "Const"
    case Var => "Var"
    case Op(op) =>
      match op
      case Add => "add"
      case Multiply => "mul"
      case Divide => "div"
      case Power => "pow"
      case MatMul => "matmul"
      case Neg => "neg"
      case Log => "log"
      case Sum => "sum"
      case Relu => "relu"
      case Sigmoid => "sigmoid"
  }

  /** The class a prefix names, the inverse of `Prefix`. */
  function KindOfPrefix(p: string): Option<NodeKind>
  {
    if p == "Const" then Some(Const)
    else if p == "Var" then Some(Var)
    else if p == "add" then Some(Op(Add))
    else if p == "mul" then Some(Op(Multiply))
    else if p == "div" then Some(Op(Divide))
    else if p == "pow" then Some(Op(Power))
    else if p == "matmul" then Some(Op(MatMul))
    else if p == "neg" then Some(Op(Neg))
    else if p == "log" then Some(Op(Log))
    else if p == "sum" then Some(Op(Sum))
    else if p == "relu" then Some(Op(Relu))
    else if p == "sigmoid" then Some(Op(Sigmoid))
    else None
  }

  datatype Option<T> = None | Some(value: T)

  lemma KindOfPrefixInverts(k: NodeKind)
    ensures KindOfPrefix(Prefix(k)) == Some(k)
    ensures '/' !in Prefix(k)
  {
  }

  /** `'<prefix>/{}'.format(count)`: the name a node gets when none is given. */
  function DefaultName(k: NodeKind, count: nat): string
  {
    Prefix(k) + "/" + NatToString(count)
  }

  lemma SlashAfterPrefix(k: NodeKind, c: nat)
    ensures DefaultName(k, c)[|Prefix(k)|] == '/'
    ensures DefaultName(k, c)[..|Prefix(k)|] == Prefix(k)
    ensures DefaultName(k, c)[|Prefix(k)| + 1..] == NatToString(c)
  {
  }

  /** Two default names are equal only for the same class and counter value,
      so names handed out between two counter resets never collide. */
  lemma DefaultNameInjective(k1: NodeKind, c1: nat, k2: NodeKind, c2: nat)
    requires DefaultName(k1, c1) == DefaultName(k2, c2)
    ensures k1 == k2 && c1 == c2
  {
    var s := DefaultName(k1, c1);
    var p1, p2 := Prefix(k1), Prefix(k2);
    KindOfPrefixInverts(k1);
    KindOfPrefixInverts(k2);
    SlashAfterPrefix(k1, c1);
    SlashAfterPrefix(k2, c2);
    assert |p1| == |p2| by {
      if |p1| < |p2| {
        assert false;
      } else if |p2| < |p1| {
        assert false;
      }
    }
    assert p1 == s[..|p1|] == p2;
    var d1, d2 := NatToString(c1), NatToString(c2);
    assert d1 == s[|p1| + 1..] == d2;
    ParseNatToString(c1);
    ParseNatToString(c2);
  }

  // ---------------------------------------------------------------------------
  // representation

  /** The text `__repr__` starts with, per class. */
  function Header(k: NodeKind): string
  {
    match k
    case Const => "Constant: "
    case Var => "Variable: "
    case Op(_) => "Operator: "
  }

  /** `__repr__`: the class header and the name, followed by `=` and the data
      (as `show` formats it) for a leaf holding a one-dimensional array. */
  function Repr(r: NodeRec, show: Tensor -> string): (t: string)
    ensures Header(r.kind) + r.name <= t
    ensures |t| > |Header(r.kind) + r.name| <==> IsLeaf(r) && |r.data.shape| == 1
    ensures IsLeaf(r) && |r.data.shape| == 1 ==> t[|Header(r.kind) + r.name|..] == "=" + show(r.data)
    ensures !(IsLeaf(r) && |r.data.shape| == 1) ==> t == Header(r.kind) + r.name
  {
    if IsLeaf(r) && |r.data.shape| == 1 then Header(r.kind) + r.name + "=" + show(r.data)
    else Header(r.kind) + r.name
  }
}
