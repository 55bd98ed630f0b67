/** The `Value` class of engine.py as an arena: every `Value` ever built is one
    slot of the arena, addressed by its index, with its operator tag (which fixes
    `prev` and `_backward`), its `data` and its `grad`. Building a node appends a
    slot; the backward side updates `grad` in place. */
module Engine {
  import opened RealPow
  import opened Graph
  import opened ChainRule

  /** The right operand of a binary operator: a `Value` already in the arena, or
      a plain Python number that the operator wraps into a fresh leaf. */
  datatype Operand = Node(index: nat) | Num(value: real)

  /** `n` fresh gradients: `Value.__init__` starts every node at `grad = 0.0`. */
  function Zeros(n: nat): (z: seq<real>)
    ensures |z| == n
    ensures forall k | 0 <= k < n :: z[k] == 0.0
  {
    seq(n, _ => 0.0)
  }

  class Arena {
    /** Operator tag of every node (its `prev` and its `_backward`). */
    var ops: seq<Op>
    /** `data` of every node, fixed when the node is built. */
    var data: seq<real>
    /** `grad` of every node. */
    var grad: seq<real>
    /** The `math.tanh` that `Value.tanh` calls. */
    const tanh: real -> real

    /** The graph without its gradients, as a value. */
    ghost function Snapshot(): Dag
      reads this
    {
      Dag(ops, data, tanh)
    }

    /** Operands predate the nodes built from them, and every node has a gradient. */
    ghost predicate Valid()
      reads this
    {
      Acyclic(Snapshot()) && |grad| == |ops|
    }

    /** `o` is a number or a node of this arena. */
    ghost predicate Holds(o: Operand)
      reads this
    {
      o.Node? ==> o.index < |ops|
    }

    /** The forward value an operand contributes. */
    ghost function ValueOf(o: Operand): real
      reads this
      requires Holds(o) && |data| == |ops|
    {
      if o.Node? then data[o.index] else o.value
    }

    /** The arena is the old one with `newOps` appended, their forward values
        `newData`, and a zero gradient for each. */
    ghost predicate Appended(ops0: seq<Op>, data0: seq<real>, grad0: seq<real>, newOps: seq<Op>, newData: seq<real>)
      reads this
    {
      ops == ops0 + newOps && data == data0 + newData && grad == grad0 + Zeros(|newOps|)
    }

    /** An empty arena that will evaluate `tanh` with the given function. */
    constructor(tanh: real -> real)
      ensures Valid() && ops == [] && data == [] && grad == [] && this.tanh == tanh
    {
      ops, data, grad := [], [], [];
      this.tanh := tanh;
    }

    /** Append node `op` with forward value `x` and gradient 0.0. */
    method Push(op: Op, x: real) returns (v: nat)
      requires Valid() && Below(op, |ops|)
      modifies this
      ensures Valid() && v == |old(ops)|
      ensures Appended(old(ops), old(data), old(grad), [op], [x])
    {
      v := |ops|;
      ops, data, grad := ops + [op], data + [x], grad + [0.0];
      assert forall i | 0 <= i < |ops| :: ops[i] == if i < v then old(ops)[i] else op;
    }

    /** `Value(x)`: a leaf, whose `_backward` does nothing. */
    method Value(x: real) returns (v: nat)
      requires Valid()
      modifies this
      ensures Valid() && v == |old(ops)|
      ensures Appended(old(ops), old(data), old(grad), [Leaf], [x])
      ensures v < |ops| && data[v] == x && grad[v] == 0.0 && Children(ops[v]) == []
    {
      v := Push(Leaf, x);
    }

    /** `other if isinstance(other, Value) else Value(other)`. */
    method Wrap(o: Operand) returns (v: nat)
      requires Valid() && Holds(o)
      modifies this
      ensures Valid() && v < |ops| && data[v] == old(ValueOf(o))
      ensures o.Node? ==> v == o.index && ops == old(ops) && data == old(data) && grad == old(grad)
      ensures o.Num? ==> v == |old(ops)| && Appended(old(ops), old(data), old(grad), [Leaf], [o.value])
    {
      if o.Node? {
        v := o.index;
      } else {
        v := Value(o.value);
      }
    }

    /** `x + other`: the sum, with children `(x, other)`. */
    method Add(x: nat, other: Operand) returns (out: nat)
      requires Valid() && x < |ops| && Holds(other)
      modifies this
      ensures Valid() && out == |ops| - 1
      ensures data[out] == old(data[x] + ValueOf(other))
      ensures other.Node? ==>
        Appended(old(ops), old(data), old(grad), [Op.Add(x, other.index)], [old(data[x] + data[other.index])])
      ensures other.Num? ==>
        Appended(old(ops), old(data), old(grad), [Leaf, Op.Add(x, |old(ops)|)], [other.value, old(data[x]) + other.value])
    {
      var b := Wrap(other);
      out := Push(Op.Add(x, b), data[x] + data[b]);
    }

    /** `x * other`: the product, with children `(x, other)`. */
    method Mul(x: nat, other: Operand) returns (out: nat)
      requires Valid() && x < |ops| && Holds(other)
      modifies this
      ensures Valid() && out == |ops| - 1
      ensures data[out] == old(data[x] * ValueOf(other))
      ensures other.Node? ==>
        Appended(old(ops), old(data), old(grad), [Op.Mul(x, other.index)], [old(data[x] * data[other.index])])
      ensures other.Num? ==>
        Appended(old(ops), old(data), old(grad), [Leaf, Op.Mul(x, |old(ops)|)], [other.value, old(data[x]) * other.value])
    {
      var b := Wrap(other);
      ghost var mid, product := data, data[x] * data[b];
      out := Push(Op.Mul(x, b), data[x] * data[b]);
      assert data == mid + [product];
      if other.Node? {
        assert mid == old(data);
        assert product == old(data[x]) * old(data[other.index]);
      } else {
        assert mid == old(data) + [other.value];
        assert product == old(data[x]) * other.value;
      }
    }

    /** `x ** k` for an integer `k`: the power, with the single child `(x,)`.
        A negative power of zero raises ZeroDivisionError in Python. */
    method Pow(x: nat, k: int) returns (out: nat)
      requires Valid() && x < |ops| && (k >= 0 || data[x] != 0.0)
      modifies this
      ensures Valid() && out == |old(ops)|
      ensures Appended(old(ops), old(data), old(grad), [Op.Pow(x, k)], [Power(old(data[x]), k)])
      ensures Children(ops[out]) == [x]
    {
      out := Push(Op.Pow(x, k), Power(data[x], k));
    }

    /** `x.tanh()`: `math.tanh` of the operand, with the single child `(x,)`. */
    method Tanh(x: nat) returns (out: nat)
      requires Valid() && x < |ops|
      modifies this
      ensures Valid() && out == |old(ops)|
      ensures Appended(old(ops), old(data), old(grad), [Op.Tanh(x)], [tanh(old(data[x]))])
      ensures Children(ops[out]) == [x]
    {
      out := Push(Op.Tanh(x), tanh(data[x]));
    }

    /** `-x`, built as `x * -1`. */
    method Neg(x: nat) returns (out: nat)
      requires Valid() && x < |ops|
      modifies this
      ensures Valid() && out == |ops| - 1
      ensures data[out] == -old(data[x])
      ensures Appended(old(ops), old(data), old(grad), [Leaf, Op.Mul(x, |old(ops)|)], [-1.0, -old(data[x])])
    {
      out := Mul(x, Num(-1.0));
    }

    /** `x - other`, built as `x + (-other)`: a node is negated through `Neg`,
        a number is negated before it is wrapped. */
    method Sub(x: nat, other: Operand) returns (out: nat)
      requires Valid() && x < |ops| && Holds(other)
      modifies this
      ensures Valid() && out == |ops| - 1
      ensures data[out] == old(data[x] - ValueOf(other))
      ensures other.Node? ==>
        var n := |old(ops)|;
        Appended(old(ops), old(data), old(grad), [Leaf, Op.Mul(other.index, n), Op.Add(x, n + 1)],
                 [-1.0, -old(data[other.index]), old(data[x] - data[other.index])])
      ensures other.Num? ==>
        Appended(old(ops), old(data), old(grad), [Leaf, Op.Add(x, |old(ops)|)], [-other.value, old(data[x]) - other.value])
    {
      if other.Node? {
        var negated := Neg(other.index);
        out := Add(x, Node(negated));
      } else {
        out := Add(x, Num(-other.value));
      }
    }

    /** `x / other`, built as `x * other ** -1`: a node gets a `Pow` node, a number
        is inverted before it is wrapped. Python raises ZeroDivisionError on a zero divisor. */
    method Div(x: nat, other: Operand) returns (out: nat)
      requires Valid() && x < |ops| && Holds(other) && ValueOf(other) != 0.0
      modifies this
      ensures Valid() && out == |ops| - 1
      ensures data[out] == old(data[x] / ValueOf(other))
      ensures other.Node? ==>
        var n := |old(ops)|;
        Appended(old(ops), old(data), old(grad), [Op.Pow(other.index, -1), Op.Mul(x, n)],
                 [1.0 / old(data[other.index]), old(data[x] / data[other.index])])
      ensures other.Num? ==>
        Appended(old(ops), old(data), old(grad), [Leaf, Op.Mul(x, |old(ops)|)], [1.0 / other.value, old(data[x]) / other.value])
    {
      var v := ValueOf(other);
      Reciprocal(v);
      if other.Node? {
        var inverse := Pow(other.index, -1);
        out := Mul(x, Node(inverse));
      } else {
        out := Mul(x, Num(Power(other.value, -1)));
      }
    }

    /** `n + x` for a number `n`: Python calls `x.__radd__(n)`, which is `x + n`. */
    method RAdd(x: nat, n: real) returns (out: nat)
      requires Valid() && x < |ops|
      modifies this
      ensures Valid() && out == |ops| - 1
      ensures data[out] == n + old(data[x])
      ensures Appended(old(ops), old(data), old(grad), [Leaf, Op.Add(x, |old(ops)|)], [n, old(data[x]) + n])
    {
      out := Add(x, Num(n));
    }

    /** `n * x` for a number `n`: Python calls `x.__rmul__(n)`, which is `x * n`. */
    method RMul(x: nat, n: real) returns (out: nat)
      requires Valid() && x < |ops|
      modifies this
      ensures Valid() && out == |ops| - 1
      ensures data[out] == n * old(data[x])
      ensures Appended(old(ops), old(data), old(grad), [Leaf, Op.Mul(x, |old(ops)|)], [n, old(data[x]) * n])
    {
      out := Mul(x, Num(n));
    }

    /** `out.backward()`: run the `_backward` closure that built node `i`
        (a leaf's does nothing). */
    method Backward(i: nat)
      requires Valid() && i < |ops| && BackwardDefined(Snapshot(), i)
      modifies this
      ensures Valid() && ops == old(ops) && data == old(data)
      ensures grad == LocalStep(old(Snapshot()), old(grad), i)
    {
      match ops[i]
      case Leaf =>
      case Add(a, b) => AddBackward(i, a, b);
      case Mul(a, b) => MulBackward(i, a, b);
      case Pow(a, k) => PowBackward(i, a, k);
      case Tanh(a) => TanhBackward(i, a);
    }

    /** The closure of `self + other`: both operands gain `out.grad`. */
    method AddBackward(i: nat, a: nat, b: nat)
      requires Valid() && i < |ops| && ops[i] == Op.Add(a, b)
      modifies this
      ensures Valid() && ops == old(ops) && data == old(data)
      ensures grad == LocalStep(old(Snapshot()), old(grad), i)
    {
      grad := grad[a := grad[a] + grad[i]];
      grad := grad[b := grad[b] + grad[i]];
    }

    /** The closure of `self * other`: each operand gains the other's `data`
        times `out.grad`. */
    method MulBackward(i: nat, a: nat, b: nat)
      requires Valid() && i < |ops| && ops[i] == Op.Mul(a, b)
      modifies this
      ensures Valid() && ops == old(ops) && data == old(data)
      ensures grad == LocalStep(old(Snapshot()), old(grad), i)
    {
      grad := grad[a := grad[a] + Scale(grad[i], data[b])];
      grad := grad[b := grad[b] + Scale(grad[i], data[a])];
    }

    /** The closure of `self ** k`: the operand gains `k * self.data ** (k - 1)`
        times `out.grad`. */
    method PowBackward(i: nat, a: nat, k: int)
      requires Valid() && i < |ops| && ops[i] == Op.Pow(a, k) && (k >= 1 || data[a] != 0.0)
      modifies this
      ensures Valid() && ops == old(ops) && data == old(data)
      ensures grad == LocalStep(old(Snapshot()), old(grad), i)
    {
      grad := grad[a := grad[a] + Scale(grad[i], PowSlope(data[a], k))];
    }

    /** The closure of `self.tanh()`: the operand gains `1 - tanh(self.data) ** 2`
        times `out.grad`. */
    method TanhBackward(i: nat, a: nat)
      requires Valid() && i < |ops| && ops[i] == Op.Tanh(a)
      modifies this
      ensures Valid() && ops == old(ops) && data == old(data)
      ensures grad == LocalStep(old(Snapshot()), old(grad), i)
    {
      grad := grad[a := grad[a] + Scale(grad[i], TanhSlope(tanh(data[a])))];
    }

    /** `backward_recursion(node)`: the node's own rule, then each child of `prev`
        in order, recursively. */
    method BackwardRecursion(node: nat)
      requires Valid() && node < |ops| && CanBackprop(Snapshot(), node)
      modifies this
      ensures Valid() && ops == old(ops) && data == old(data)
      ensures grad == Walk(old(Snapshot()), old(grad), node)
      decreases node
    {
      ghost var d := Snapshot();
      Backward(node);
      var cs := Children(ops[node]);
      OperandsBelow(d, node);
      var k := 0;
      while k < |cs|
        invariant 0 <= k <= |cs|
        invariant Valid() && ops == old(ops) && data == old(data)
        invariant WalkAll(d, grad, cs[k..], node) == Walk(d, old(grad), node)
      {
        assert cs[k..][1..] == cs[k + 1..];
        BackwardRecursion(cs[k]);
        k := k + 1;
      }
    }

    /** `root.backprop()`: seed the root's gradient with 1.0, then walk from it.
        The root keeps 1.0; a node the root does not reach keeps its gradient; and
        when only leaves are shared below the root and its other nodes start at
        zero, every other node gains exactly its derivative. */
    method Backprop(root: nat)
      requires Valid() && root < |ops| && CanBackprop(Snapshot(), root)
      modifies this
      ensures Valid() && ops == old(ops) && data == old(data)
      ensures grad == Walk(Snapshot(), old(grad)[root := 1.0], root)
      ensures grad[root] == 1.0
      ensures forall j | 0 <= j < |grad| && j != root && PathCount(Snapshot(), root, j) == 0 ::
        grad[j] == old(grad[j])
      ensures InternalUnshared(Snapshot(), root) && InternalGradsZero(Snapshot(), old(grad), root) ==>
        forall j | 0 <= j < |grad| && j != root :: grad[j] == old(grad[j]) + Derivative(Snapshot(), root, j)
    {
      ghost var d, g := Snapshot(), grad;
      grad := grad[root := 1.0];
      BackwardRecursion(root);
      forall j | 0 <= j < |grad| && j != root && PathCount(d, root, j) == 0
        ensures grad[j] == g[j]
      {
        WalkUnreachable(d, g[root := 1.0], root, j);
      }
      if InternalUnshared(d, root) && InternalGradsZero(d, g, root) {
        BackpropIsChainRule(d, g, root);
      }
    }
  }

  /** `v ** -1` is the reciprocal of `v`. */
  lemma {:induction false} Reciprocal(v: real)
    requires v != 0.0
    ensures Power(v, -1) == 1.0 / v
  {
    assert NatPower(v, 1) == v * NatPower(v, 0);
  }
}
