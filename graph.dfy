/** The expression graph that `Value` objects form, as values: an arena of nodes
    addressed by index, where a node's operands always have smaller indices
    because they exist before the node is built. */
module Graph {
  import opened RealPow

  /** The operator that built a node. It fixes the node's children (`prev`, in order)
      and its local backward rule (the `_backward` closure). Operands are arena indices. */
  datatype Op =
    | Leaf
    | Add(a: nat, b: nat)
    | Mul(a: nat, b: nat)
    | Pow(a: nat, k: int)
    | Tanh(a: nat)

  /** Everything about the graph except the gradients: operator tags, forward
      values, and the `math.tanh` the engine calls. */
  datatype Dag = Dag(ops: seq<Op>, data: seq<real>, tanh: real -> real)

  /** A node's `prev` tuple, in order: at most two operands. A node's operands
      all predate index `i` exactly when each entry of its tuple is below `i`. */
  function Children(op: Op): (cs: seq<nat>)
    ensures |cs| <= 2
    ensures op.Leaf? <==> cs == []
    ensures forall i: nat :: Below(op, i) <==> forall k | 0 <= k < |cs| :: cs[k] < i
  {
    match op
    case Leaf => []
    case Add(a, b) => assert [a, b][0] == a && [a, b][1] == b; [a, b]
    case Mul(a, b) => assert [a, b][0] == a && [a, b][1] == b; [a, b]
    case Pow(a, _) => assert [a][0] == a; [a]
    case Tanh(a) => assert [a][0] == a; [a]
  }

  /** Every operand of `op` was created before index `i`. */
  predicate Below(op: Op, i: nat) {
    match op
    case Leaf => true
    case Add(a, b) => a < i && b < i
    case Mul(a, b) => a < i && b < i
    case Pow(a, _) => a < i
    case Tanh(a) => a < i
  }

  /** Children predate parents, so the graph has no cycle. */
  predicate Acyclic(d: Dag) {
    |d.data| == |d.ops| && forall i | 0 <= i < |d.ops| :: Below(d.ops[i], i)
  }

  /** The local backward rule of node `i` can run: only `Pow` can fail, because
      `k * x ** (k - 1)` divides by zero when `k < 1` and `x == 0`. A power whose
      forward value `x ** k` was defined has a rule that runs, except `x ** 0` at
      `x == 0`: its value is 1, but its rule evaluates `0 ** -1`. */
  predicate BackwardDefined(d: Dag, i: nat): (ok: bool)
    requires Acyclic(d) && i < |d.ops|
    ensures !d.ops[i].Pow? ==> ok
    ensures d.ops[i].Pow? && d.ops[i].k != 0 && (d.ops[i].k >= 0 || d.data[d.ops[i].a] != 0.0) ==> ok
    ensures d.ops[i].Pow? && d.ops[i].k == 0 && d.data[d.ops[i].a] == 0.0 ==> !ok
  {
    match d.ops[i]
    case Pow(a, k) => k >= 1 || d.data[a] != 0.0
    case _ => true
  }

  /** Every local backward rule reachable from `i` can run (the exact statement
      over paths is `ChainRule.CanBackpropReachable`). */
  predicate CanBackprop(d: Dag, i: nat): (ok: bool)
    requires Acyclic(d) && i < |d.ops|
    ensures ok ==> BackwardDefined(d, i)
    ensures d.ops[i].Leaf? ==> ok
    decreases i
  {
    BackwardDefined(d, i) &&
    match d.ops[i]
    case Leaf => true
    case Add(a, b) => CanBackprop(d, a) && CanBackprop(d, b)
    case Mul(a, b) => CanBackprop(d, a) && CanBackprop(d, b)
    case Pow(a, _) => CanBackprop(d, a)
    case Tanh(a) => CanBackprop(d, a)
  }

  /** A gradient `s` weighted by a local partial derivative `w`. */
  function Scale(s: real, w: real): real {
    s * w
  }

  /** d(x ** k)/dx, the weight of the `**` rule: `k * x ** (k - 1)`. It is 0 for
      a constant `x ** 0`, 1 for `x ** 1`, and nonzero for any other power of a
      nonzero base. */
  function PowSlope(x: real, k: int): (w: real)
    requires k >= 1 || x != 0.0
    ensures k == 0 ==> w == 0.0
    ensures k == 1 ==> w == 1.0
    ensures x != 0.0 && k != 0 ==> w != 0.0
  {
    (k as real) * Power(x, k - 1)
  }

  /** d(tanh x)/dx written with `t == tanh(x)`, the weight of the `tanh` rule: `1 - t ** 2`.
      It is at most 1, and positive on the range `-1 < t < 1` of `tanh`. */
  function TanhSlope(t: real): (w: real)
    ensures w <= 1.0
    ensures -1.0 < t < 1.0 ==> 0.0 < w
  {
    1.0 - t * t
  }

  /** The power rule one factor at a time: as `x ** k == x * x ** (k - 1)`, the
      product rule gives d(x ** k)/dx == x ** (k - 1) + x * d(x ** (k - 1))/dx. */
  lemma {:induction false} PowSlopeStep(x: real, k: int)
    requires k >= 2 || x != 0.0
    ensures PowSlope(x, k) == Power(x, k - 1) + x * PowSlope(x, k - 1)
  {
    var p := Power(x, k - 2);
    PowerStep(x, k - 1);
    calc {
      x * PowSlope(x, k - 1);
      x * (((k - 1) as real) * p);
      ((k - 1) as real) * (x * p);
      ((k - 1) as real) * Power(x, k - 1);
    }
  }

  /** The `_backward` closure of node `i`: each `+=` in turn adds a weighted share
      of the node's own gradient into one operand's gradient. Only operands change;
      in particular the node's own gradient does not. */
  function LocalStep(d: Dag, g: seq<real>, i: nat): (g': seq<real>)
    requires Acyclic(d) && |g| == |d.ops| && i < |g| && BackwardDefined(d, i)
    ensures |g'| == |g|
    ensures forall j | 0 <= j < |g| && j !in Children(d.ops[i]) :: g'[j] == g[j]
    ensures g'[i] == g[i]
  {
    match d.ops[i]
    case Leaf => g
    case Add(a, b) =>
      var g1 := g[a := g[a] + g[i]];
      g1[b := g1[b] + g1[i]]
    case Mul(a, b) =>
      var g1 := g[a := g[a] + Scale(g[i], d.data[b])];
      g1[b := g1[b] + Scale(g1[i], d.data[a])]
    case Pow(a, k) =>
      g[a := g[a] + Scale(g[i], PowSlope(d.data[a], k))]
    case Tanh(a) =>
      g[a := g[a] + Scale(g[i], TanhSlope(d.tanh(d.data[a])))]
  }

  /** When one node is both operands (`x + x`, `x * x`), both `+=` statements hit
      it: it gains `2 * out.grad`, or `2 * x.data * out.grad`. */
  lemma {:induction false} SameOperandStep(d: Dag, g: seq<real>, i: nat, a: nat)
    requires Acyclic(d) && |g| == |d.ops| && i < |g|
    ensures d.ops[i] == Op.Add(a, a) ==> LocalStep(d, g, i)[a] == g[a] + 2.0 * g[i]
    ensures d.ops[i] == Op.Mul(a, a) ==> LocalStep(d, g, i)[a] == g[a] + 2.0 * Scale(g[i], d.data[a])
  {
  }

  /** `backward_recursion(i)`: run node `i`'s rule, then recurse into each child in
      order. There is no seen-set: a node reached along several paths is walked
      once per path. Nodes created after `i` keep their gradients. */
  function Walk(d: Dag, g: seq<real>, i: nat): (r: seq<real>)
    requires Acyclic(d) && |g| == |d.ops| && i < |g| && CanBackprop(d, i)
    ensures |r| == |g|
    ensures forall j | i <= j < |g| :: r[j] == g[j]
    decreases i, 1, 0
  {
    WalkAll(d, LocalStep(d, g, i), Children(d.ops[i]), i)
  }

  /** The `for node in parent_node.prev` loop: walk each of `cs` in turn. */
  function WalkAll(d: Dag, g: seq<real>, cs: seq<nat>, bound: nat): (r: seq<real>)
    requires Acyclic(d) && |g| == |d.ops| && bound <= |g|
    requires forall k | 0 <= k < |cs| :: cs[k] < bound && CanBackprop(d, cs[k])
    ensures |r| == |g|
    ensures forall j | bound <= j < |g| :: r[j] == g[j]
    decreases bound, 0, |cs|
  {
    if cs == [] then g else WalkAll(d, Walk(d, g, cs[0]), cs[1..], bound)
  }

  /** Number of distinct paths from `i` down to `j` (1 when `i == j`). */
  function PathCount(d: Dag, i: nat, j: nat): nat
    requires Acyclic(d) && i < |d.ops|
    decreases i
  {
    if i == j then 1
    else
      var cs := Children(d.ops[i]);
      if |cs| == 0 then 0
      else if |cs| == 1 then PathCount(d, cs[0], j)
      else PathCount(d, cs[0], j) + PathCount(d, cs[1], j)
  }

  /** The operands of a node whose backward pass can run predate it, and their
      backward passes can run too. */
  lemma {:induction false} OperandsBelow(d: Dag, i: nat)
    requires Acyclic(d) && i < |d.ops| && CanBackprop(d, i)
    ensures forall k | 0 <= k < |Children(d.ops[i])| ::
      Children(d.ops[i])[k] < i && CanBackprop(d, Children(d.ops[i])[k])
  {
  }

  /** Walking a leaf changes nothing: its rule is a no-op and it has no children. */
  lemma {:induction false} WalkLeaf(d: Dag, g: seq<real>, i: nat)
    requires Acyclic(d) && |g| == |d.ops| && i < |g| && CanBackprop(d, i)
    requires Children(d.ops[i]) == []
    ensures Walk(d, g, i) == g
  {
  }

  /** The walk of a one-operand node is its rule followed by the walk of its operand. */
  lemma {:induction false} WalkUnary(d: Dag, g: seq<real>, i: nat, a: nat)
    requires Acyclic(d) && |g| == |d.ops| && i < |g| && CanBackprop(d, i)
    requires Children(d.ops[i]) == [a]
    ensures a < i && CanBackprop(d, a)
    ensures Walk(d, g, i) == Walk(d, LocalStep(d, g, i), a)
  {
    var g1 := LocalStep(d, g, i);
    assert WalkAll(d, g1, [a], i) == WalkAll(d, Walk(d, g1, a), [], i);
  }

  /** The walk of a two-operand node is its rule, then the walk of its first
      operand (giving `g2`), then the walk of its second. */
  lemma {:induction false} WalkBinary(d: Dag, g: seq<real>, i: nat, a: nat, b: nat, g2: seq<real>)
    requires Acyclic(d) && |g| == |d.ops| && i < |g| && CanBackprop(d, i)
    requires Children(d.ops[i]) == [a, b] && g2 == Walk(d, LocalStep(d, g, i), a)
    ensures b < i && CanBackprop(d, b)
    ensures Walk(d, g, i) == Walk(d, g2, b)
  {
    var g1 := LocalStep(d, g, i);
    assert [a, b][1..] == [b];
    assert WalkAll(d, g1, [a, b], i) == WalkAll(d, g2, [b], i);
    assert WalkAll(d, g2, [b], i) == WalkAll(d, Walk(d, g2, b), [], i);
  }

  /** A node that `i` does not reach keeps its gradient through the walk from `i`. */
  lemma {:induction false} WalkUnreachable(d: Dag, g: seq<real>, i: nat, j: nat)
    requires Acyclic(d) && |g| == |d.ops| && i < |g| && CanBackprop(d, i)
    requires j < |g| && PathCount(d, i, j) == 0
    ensures Walk(d, g, i)[j] == g[j]
    decreases i
  {
    var cs := Children(d.ops[i]);
    var g1 := LocalStep(d, g, i);
    if |cs| == 0 {
      WalkLeaf(d, g, i);
    } else if |cs| == 1 {
      WalkUnary(d, g, i, cs[0]);
      WalkUnreachable(d, g1, cs[0], j);
    } else {
      var g2 := Walk(d, g1, cs[0]);
      WalkBinary(d, g, i, cs[0], cs[1], g2);
      WalkUnreachable(d, g1, cs[0], j);
      WalkUnreachable(d, g2, cs[1], j);
    }
  }
}
