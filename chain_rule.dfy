/** What the recursive backward pass computes, compared with the chain rule.
    `ChainSum` is the reference: a seed is carried from node `i` down every path
    to node `j`, multiplied by the local partial derivative of each step, and
    the arrivals are summed; with seed 1.0 that is d(node i)/d(node j). The naive
    walk agrees with it when no node other than a leaf is reached along two
    paths. */
module ChainRule {
  import opened RealPow
  import opened Graph

  /** The local partial derivative of node `i` with respect to its operand in
      position `slot` of `prev`: the table of derivative rules. */
  function Partial(d: Dag, i: nat, slot: nat): real
    requires Acyclic(d) && i < |d.ops| && BackwardDefined(d, i)
  {
    match d.ops[i]
    case Leaf => 0.0
    case Add(_, _) => 1.0
    case Mul(a, b) => if slot == 0 then d.data[b] else d.data[a]
    case Pow(a, k) => PowSlope(d.data[a], k)
    case Tanh(a) => TanhSlope(d.tanh(d.data[a]))
  }

  /** `s` times d(node i)/d(node j) by the multivariate chain rule: the seed `s`
      is carried down every path from `i` to `j`, multiplied by each local partial
      derivative on the way, and the arrivals are summed. */
  function ChainSum(d: Dag, i: nat, j: nat, s: real): real
    requires Acyclic(d) && i < |d.ops| && CanBackprop(d, i)
    decreases i
  {
    if i == j then s
    else
      var cs := Children(d.ops[i]);
      if |cs| == 0 then 0.0
      else if |cs| == 1 then ChainSum(d, cs[0], j, Scale(s, Partial(d, i, 0)))
      else ChainSum(d, cs[0], j, Scale(s, Partial(d, i, 0))) + ChainSum(d, cs[1], j, Scale(s, Partial(d, i, 1)))
  }

  /** d(node i)/d(node j). */
  function Derivative(d: Dag, i: nat, j: nat): real
    requires Acyclic(d) && i < |d.ops| && CanBackprop(d, i)
  {
    ChainSum(d, i, j, 1.0)
  }

  /** `ChainSum` at a node with one operand `a`. */
  lemma {:induction false} ChainSumUnary(d: Dag, i: nat, j: nat, s: real, a: nat)
    requires Acyclic(d) && i < |d.ops| && CanBackprop(d, i) && i != j
    requires Children(d.ops[i]) == [a] && a < i && CanBackprop(d, a)
    ensures ChainSum(d, i, j, s) == ChainSum(d, a, j, Scale(s, Partial(d, i, 0)))
  {
  }

  /** `ChainSum` at a node with operands `a` and `b`. */
  lemma {:induction false} ChainSumBinary(d: Dag, i: nat, j: nat, s: real, a: nat, b: nat)
    requires Acyclic(d) && i < |d.ops| && CanBackprop(d, i) && i != j
    requires Children(d.ops[i]) == [a, b] && a < i && CanBackprop(d, a) && b < i && CanBackprop(d, b)
    ensures ChainSum(d, i, j, s) == ChainSum(d, a, j, Scale(s, Partial(d, i, 0))) + ChainSum(d, b, j, Scale(s, Partial(d, i, 1)))
  {
  }

  /** The seed factors out of the chain rule: a seed `s` times `t` yields `s`
      times what the seed `t` alone yields. */
  lemma {:induction false} ChainSumLinear(d: Dag, i: nat, j: nat, s: real, t: real)
    requires Acyclic(d) && i < |d.ops| && CanBackprop(d, i)
    ensures ChainSum(d, i, j, Scale(s, t)) == Scale(s, ChainSum(d, i, j, t))
    decreases i
  {
    if i != j {
      var cs := Children(d.ops[i]);
      OperandsBelow(d, i);
      if |cs| == 1 {
        var a, w := cs[0], Partial(d, i, 0);
        assert cs == [a];
        ChainSumUnary(d, i, j, Scale(s, t), a);
        ChainSumUnary(d, i, j, t, a);
        ScaleAssociates(s, t, w);
        ChainSumLinear(d, a, j, s, Scale(t, w));
      } else if |cs| == 2 {
        var a, b, w0, w1 := cs[0], cs[1], Partial(d, i, 0), Partial(d, i, 1);
        assert cs == [a, b];
        ChainSumBinary(d, i, j, Scale(s, t), a, b);
        ChainSumBinary(d, i, j, t, a, b);
        ScaleAssociates(s, t, w0);
        ScaleAssociates(s, t, w1);
        ChainSumLinear(d, a, j, s, Scale(t, w0));
        ChainSumLinear(d, b, j, s, Scale(t, w1));
        ScaleDistributes(s, ChainSum(d, a, j, Scale(t, w0)), ChainSum(d, b, j, Scale(t, w1)));
      }
    }
  }

  /** Any seed `s` yields `s` times the derivative. */
  lemma {:induction false} SeedTimesDerivative(d: Dag, i: nat, j: nat, s: real)
    requires Acyclic(d) && i < |d.ops| && CanBackprop(d, i)
    ensures ChainSum(d, i, j, s) == Scale(s, Derivative(d, i, j))
  {
    ChainSumLinear(d, i, j, s, 1.0);
    assert Scale(s, 1.0) == s;
  }

  lemma {:induction false} ScaleAssociates(x: real, y: real, z: real)
    ensures Scale(Scale(x, y), z) == Scale(x, Scale(y, z))
  {
    assert (x * y) * z == x * (y * z);
  }

  lemma {:induction false} ScaleDistributes(x: real, y: real, z: real)
    ensures Scale(x, y + z) == Scale(x, y) + Scale(x, z)
  {
    assert x * (y + z) == x * y + x * z;
  }

  /** The textbook chain rule: away from `j`, the derivative of a node is the sum
      over its operands of the local partial times the operand's derivative. */
  lemma {:induction false} ChainRuleRecursion(d: Dag, i: nat, j: nat)
    requires Acyclic(d) && i < |d.ops| && CanBackprop(d, i) && i != j
    ensures var cs := Children(d.ops[i]);
      && (|cs| == 0 ==> Derivative(d, i, j) == 0.0)
      && (|cs| == 1 ==> Derivative(d, i, j) == Scale(Partial(d, i, 0), Derivative(d, cs[0], j)))
      && (|cs| == 2 ==>
            Derivative(d, i, j) == Scale(Partial(d, i, 0), Derivative(d, cs[0], j)) + Scale(Partial(d, i, 1), Derivative(d, cs[1], j)))
  {
    var cs := Children(d.ops[i]);
    OperandsBelow(d, i);
    if |cs| == 1 {
      assert cs == [cs[0]];
      DerivativeUnary(d, i, j, cs[0]);
    } else if |cs| == 2 {
      assert cs == [cs[0], cs[1]];
      DerivativeBinary(d, i, j, cs[0], cs[1]);
    }
  }

  lemma {:induction false} DerivativeUnary(d: Dag, i: nat, j: nat, a: nat)
    requires Acyclic(d) && i < |d.ops| && CanBackprop(d, i) && i != j
    requires Children(d.ops[i]) == [a] && a < i && CanBackprop(d, a)
    ensures Derivative(d, i, j) == Scale(Partial(d, i, 0), Derivative(d, a, j))
  {
    var w := Partial(d, i, 0);
    ChainSumUnary(d, i, j, 1.0, a);
    assert Scale(1.0, w) == w;
    SeedTimesDerivative(d, a, j, w);
  }

  lemma {:induction false} DerivativeBinary(d: Dag, i: nat, j: nat, a: nat, b: nat)
    requires Acyclic(d) && i < |d.ops| && CanBackprop(d, i) && i != j
    requires Children(d.ops[i]) == [a, b] && a < i && CanBackprop(d, a) && b < i && CanBackprop(d, b)
    ensures Derivative(d, i, j) == Scale(Partial(d, i, 0), Derivative(d, a, j)) + Scale(Partial(d, i, 1), Derivative(d, b, j))
  {
    var w0, w1 := Partial(d, i, 0), Partial(d, i, 1);
    ChainSumBinary(d, i, j, 1.0, a, b);
    assert Scale(1.0, w0) == w0 && Scale(1.0, w1) == w1;
    SeedTimesDerivative(d, a, j, w0);
    SeedTimesDerivative(d, b, j, w1);
  }

  /** Each `_backward` closure adds exactly its partial derivatives, times the
      node's gradient, into its operands; an operand used twice gets both. */
  lemma {:induction false} LocalStepAddsPartials(d: Dag, g: seq<real>, i: nat)
    requires Acyclic(d) && |g| == |d.ops| && i < |g| && BackwardDefined(d, i)
    ensures var cs := Children(d.ops[i]); var g' := LocalStep(d, g, i);
      && (|cs| == 1 ==> g'[cs[0]] == g[cs[0]] + Scale(g[i], Partial(d, i, 0)))
      && (|cs| == 2 && cs[0] != cs[1] ==>
            g'[cs[0]] == g[cs[0]] + Scale(g[i], Partial(d, i, 0)) &&
            g'[cs[1]] == g[cs[1]] + Scale(g[i], Partial(d, i, 1)))
      && (|cs| == 2 && cs[0] == cs[1] ==>
            g'[cs[0]] == g[cs[0]] + Scale(g[i], Partial(d, i, 0)) + Scale(g[i], Partial(d, i, 1)))
  {
  }

  /** No node other than a leaf is reached from `i` along two different paths. */
  predicate InternalUnshared(d: Dag, i: nat)
    requires Acyclic(d) && i < |d.ops|
  {
    forall m | 0 <= m < i && !d.ops[m].Leaf? :: PathCount(d, i, m) <= 1
  }

  /** Every node other than a leaf that `i` reaches starts with a zero gradient. */
  predicate InternalGradsZero(d: Dag, g: seq<real>, i: nat)
    requires Acyclic(d) && i < |d.ops| && |g| == |d.ops|
  {
    forall m | 0 <= m < i && !d.ops[m].Leaf? && PathCount(d, i, m) > 0 :: g[m] == 0.0
  }

  /** The conditions under which the walk from `i` follows the chain rule. */
  predicate Ready(d: Dag, g: seq<real>, i: nat) {
    && Acyclic(d) && |g| == |d.ops| && i < |g| && CanBackprop(d, i)
    && InternalUnshared(d, i) && InternalGradsZero(d, g, i)
  }

  /** A node never reaches a node created after it. */
  lemma {:induction false} PathCountAbove(d: Dag, i: nat, j: nat)
    requires Acyclic(d) && i < |d.ops| && i < j
    ensures PathCount(d, i, j) == 0
    decreases i
  {
    var cs := Children(d.ops[i]);
    if |cs| >= 1 {
      PathCountAbove(d, cs[0], j);
    }
    if |cs| == 2 {
      PathCountAbove(d, cs[1], j);
    }
  }

  /** The backward pass from `i` can run exactly when the rule of every node
      that `i` reaches can run. */
  lemma {:induction false} CanBackpropReachable(d: Dag, i: nat)
    requires Acyclic(d) && i < |d.ops|
    ensures CanBackprop(d, i) <==>
      forall j | 0 <= j < |d.ops| && PathCount(d, i, j) > 0 :: BackwardDefined(d, j)
    decreases i
  {
    var cs := Children(d.ops[i]);
    assert Below(d.ops[i], i);
    assert PathCount(d, i, i) == 1;
    forall k | 0 <= k < |cs| {
      CanBackpropReachable(d, cs[k]);
    }
    forall k, j | 0 <= k < |cs| && 0 <= j < |d.ops| && PathCount(d, cs[k], j) > 0
      ensures PathCount(d, i, j) > 0
    {
      if j == i {
        PathCountAbove(d, cs[k], j);
      }
    }
    if CanBackprop(d, i) {
      OperandsBelow(d, i);
      forall j | 0 <= j < |d.ops| && PathCount(d, i, j) > 0
        ensures BackwardDefined(d, j)
      {
        if j != i && PathCount(d, cs[0], j) == 0 {
          assert PathCount(d, cs[1], j) > 0;
        }
      }
    } else {
      if BackwardDefined(d, i) {
        var k :| 0 <= k < |cs| && !CanBackprop(d, cs[k]);
      }
    }
  }

  /** Without a path nothing arrives. */
  lemma {:induction false} ChainSumUnreached(d: Dag, i: nat, j: nat, s: real)
    requires Acyclic(d) && i < |d.ops| && CanBackprop(d, i)
    requires PathCount(d, i, j) == 0
    ensures ChainSum(d, i, j, s) == 0.0
    decreases i
  {
    var cs := Children(d.ops[i]);
    OperandsBelow(d, i);
    if i == j {
    } else if |cs| == 1 {
      assert cs == [cs[0]];
      ChainSumUnary(d, i, j, s, cs[0]);
      ChainSumUnreached(d, cs[0], j, Scale(s, Partial(d, i, 0)));
    } else if |cs| == 2 {
      assert cs == [cs[0], cs[1]];
      ChainSumBinary(d, i, j, s, cs[0], cs[1]);
      ChainSumUnreached(d, cs[0], j, Scale(s, Partial(d, i, 0)));
      ChainSumUnreached(d, cs[1], j, Scale(s, Partial(d, i, 1)));
    }
  }

  /** An operand `c` of a ready node `i` passes on only what `i` gives it: its own
      starting gradient either does not reach `j`, or is zero because `c` is not a leaf. */
  lemma {:induction false} OperandStartsSilent(d: Dag, g: seq<real>, i: nat, c: nat, j: nat, x: real)
    requires Ready(d, g, i) && c < i && PathCount(d, i, c) > 0 && CanBackprop(d, c) && j != c
    ensures ChainSum(d, c, j, g[c] + x) == ChainSum(d, c, j, x)
  {
    if PathCount(d, c, j) == 0 {
      ChainSumUnreached(d, c, j, g[c] + x);
      ChainSumUnreached(d, c, j, x);
    } else {
      assert Children(d.ops[c]) != [];
      assert g[c] + x == x;
    }
  }

  /** The walk from a ready node adds to every other node `j` exactly what the
      node's gradient, as a seed, passes on to `j` by the chain rule. */
  lemma {:induction false} WalkAt(d: Dag, g: seq<real>, i: nat, j: nat)
    requires Ready(d, g, i) && j < |g| && j != i
    ensures Walk(d, g, i)[j] == g[j] + ChainSum(d, i, j, g[i])
    decreases i, 2
  {
    var cs := Children(d.ops[i]);
    if |cs| == 0 {
      WalkLeaf(d, g, i);
    } else if |cs| == 1 {
      UnaryAt(d, g, i, j);
    } else if cs[0] == cs[1] {
      SameOperandsAt(d, g, i, j);
    } else {
      BinaryAt(d, g, i, j);
    }
  }

  /** The step for a one-operand node (`**`, `tanh`). */
  lemma {:induction false} UnaryAt(d: Dag, g: seq<real>, i: nat, j: nat)
    requires Ready(d, g, i) && j < |g| && j != i && |Children(d.ops[i])| == 1
    ensures Walk(d, g, i)[j] == g[j] + ChainSum(d, i, j, g[i])
    decreases i, 1
  {
    var a := Children(d.ops[i])[0];
    assert Children(d.ops[i]) == [a];
    var x := Scale(g[i], Partial(d, i, 0));
    WalkUnary(d, g, i, a);
    LocalStepAddsPartials(d, g, i);
    var g1 := LocalStep(d, g, i);
    assert g1[a] == g[a] + x;
    ChainSumUnary(d, i, j, g[i], a);
    forall m | 0 <= m < a && !d.ops[m].Leaf? && PathCount(d, a, m) > 0
      ensures g1[m] == 0.0
    {
      assert PathCount(d, i, m) > 0;
    }
    assert Ready(d, g1, a);
    if j == a {
      assert Walk(d, g1, a)[a] == g1[a];
    } else {
      WalkAt(d, g1, a, j);
      OperandStartsSilent(d, g, i, a, j, x);
    }
  }

  /** The step for `x + x` or `x * x`: the operand is a leaf, and both `+=` hit it. */
  lemma {:induction false} SameOperandsAt(d: Dag, g: seq<real>, i: nat, j: nat)
    requires Ready(d, g, i) && j < |g| && j != i
    requires |Children(d.ops[i])| == 2 && Children(d.ops[i])[0] == Children(d.ops[i])[1]
    ensures Walk(d, g, i)[j] == g[j] + ChainSum(d, i, j, g[i])
  {
    var a := Children(d.ops[i])[0];
    assert Children(d.ops[i]) == [a, a];
    LocalStepAddsPartials(d, g, i);
    var g1 := LocalStep(d, g, i);
    var g2 := Walk(d, g1, a);
    WalkBinary(d, g, i, a, a, g2);
    ChainSumBinary(d, i, j, g[i], a, a);
    assert PathCount(d, i, a) == 2;
    assert d.ops[a].Leaf?;
    WalkLeaf(d, g1, a);
    WalkLeaf(d, g2, a);
  }

  /** The step for a two-operand node with distinct operands `a`, `b`: walk `a`, then `b`. */
  lemma {:induction false} BinaryAt(d: Dag, g: seq<real>, i: nat, j: nat)
    requires Ready(d, g, i) && j < |g| && j != i
    requires |Children(d.ops[i])| == 2 && Children(d.ops[i])[0] != Children(d.ops[i])[1]
    ensures Walk(d, g, i)[j] == g[j] + ChainSum(d, i, j, g[i])
    decreases i, 1
  {
    var a, b := Children(d.ops[i])[0], Children(d.ops[i])[1];
    assert Children(d.ops[i]) == [a, b];
    var g1 := LocalStep(d, g, i);
    FirstOperandReady(d, g, i, a, b, g1);
    var g2 := Walk(d, g1, a);
    WalkBinary(d, g, i, a, b, g2);
    SecondOperandReady(d, g, i, a, b, g1, g2);
    FirstWalkAt(d, g, i, a, b, g1, g2, b);
    ChainSumBinary(d, i, j, g[i], a, b);
    if j == b {
      assert Walk(d, g2, b)[b] == g2[b];
    } else {
      WalkAt(d, g2, b, j);
      FirstWalkAt(d, g, i, a, b, g1, g2, j);
      SecondOperandShare(d, g, i, a, b, j, g2[b]);
    }
  }

  /** After node `i`'s rule (`g1`) and the walk of its first operand `a` (`g2`),
      every node other than `i` holds its start value plus what `a` passes on,
      and `b` also its own share. */
  lemma {:induction false} FirstWalkAt(d: Dag, g: seq<real>, i: nat, a: nat, b: nat,
                                       g1: seq<real>, g2: seq<real>, j: nat)
    requires Ready(d, g, i) && Children(d.ops[i]) == [a, b] && a != b && j < |g| && j != i
    requires g1 == LocalStep(d, g, i) && a < i && CanBackprop(d, a) && g2 == Walk(d, g1, a)
    ensures j == b ==>
      g2[j] == g[j] + Scale(g[i], Partial(d, i, 1)) + ChainSum(d, a, j, Scale(g[i], Partial(d, i, 0)))
    ensures j != b ==> g2[j] == g[j] + ChainSum(d, a, j, Scale(g[i], Partial(d, i, 0)))
    decreases i, 0
  {
    LocalStepAddsPartials(d, g, i);
    FirstOperandReady(d, g, i, a, b, g1);
    if j == a {
      assert g2[a] == g1[a];
    } else {
      WalkAt(d, g1, a, j);
      OperandStartsSilent(d, g, i, a, j, Scale(g[i], Partial(d, i, 0)));
    }
  }

  /** Before the first operand is walked, the nodes below it that are not leaves are still at zero. */
  lemma {:induction false} FirstOperandReady(d: Dag, g: seq<real>, i: nat, a: nat, b: nat, g1: seq<real>)
    requires Ready(d, g, i) && Children(d.ops[i]) == [a, b] && a != b && g1 == LocalStep(d, g, i)
    ensures a < i && CanBackprop(d, a) && Ready(d, g1, a)
  {
    forall m | 0 <= m < a && !d.ops[m].Leaf? && PathCount(d, a, m) > 0
      ensures g1[m] == 0.0
    {
      assert PathCount(d, i, m) == PathCount(d, a, m) + PathCount(d, b, m);
      assert m != b;
    }
  }

  /** After the first operand's walk, the nodes below the second operand that are not leaves are still at zero. */
  lemma {:induction false} SecondOperandReady(d: Dag, g: seq<real>, i: nat, a: nat, b: nat,
                                              g1: seq<real>, g2: seq<real>)
    requires Ready(d, g, i) && Children(d.ops[i]) == [a, b] && a != b
    requires g1 == LocalStep(d, g, i) && a < i && CanBackprop(d, a) && g2 == Walk(d, g1, a)
    ensures b < i && CanBackprop(d, b) && Ready(d, g2, b)
    decreases i, 0
  {
    FirstOperandReady(d, g, i, a, b, g1);
    forall m | 0 <= m < b && !d.ops[m].Leaf? && PathCount(d, b, m) > 0
      ensures g2[m] == 0.0
    {
      assert PathCount(d, i, m) > 0;
      assert PathCount(d, a, m) == 0;
      ChainSumUnreached(d, a, m, g1[a]);
      WalkAt(d, g1, a, m);
    }
  }

  /** What the second operand passes on to `j`: `b`'s gradient after the first
      walk acts as exactly its share from `i`, whenever `b` reaches `j` at all. */
  lemma {:induction false} SecondOperandShare(d: Dag, g: seq<real>, i: nat, a: nat, b: nat, j: nat, gb: real)
    requires Ready(d, g, i) && Children(d.ops[i]) == [a, b] && a != b && j != b
    requires gb == g[b] + Scale(g[i], Partial(d, i, 1)) + ChainSum(d, a, b, Scale(g[i], Partial(d, i, 0)))
    ensures ChainSum(d, b, j, gb) == ChainSum(d, b, j, Scale(g[i], Partial(d, i, 1)))
  {
    if PathCount(d, b, j) == 0 {
      ChainSumUnreached(d, b, j, gb);
      ChainSumUnreached(d, b, j, Scale(g[i], Partial(d, i, 1)));
    } else {
      assert Children(d.ops[b]) != [];
      assert PathCount(d, i, b) == PathCount(d, a, b) + 1;
      ChainSumUnreached(d, a, b, Scale(g[i], Partial(d, i, 0)));
      assert gb == Scale(g[i], Partial(d, i, 1));
    }
  }

  /** Over all nodes: the walk from a ready node `i` adds `g[i]` times the
      chain-rule derivative to every other node. */
  lemma {:induction false} WalkIsChainRule(d: Dag, g: seq<real>, i: nat)
    requires Ready(d, g, i)
    ensures forall j | 0 <= j < |g| && j != i :: Walk(d, g, i)[j] == g[j] + g[i] * Derivative(d, i, j)
  {
    forall j | 0 <= j < |g| && j != i
      ensures Walk(d, g, i)[j] == g[j] + g[i] * Derivative(d, i, j)
    {
      WalkAt(d, g, i, j);
      SeedTimesDerivative(d, i, j, g[i]);
    }
  }

  /** `backprop` seeds the root with 1.0 and walks it: when only leaves are shared
      and the other nodes below the root start at zero, every other node gains
      exactly its derivative, and the root keeps 1.0. */
  lemma {:induction false} BackpropIsChainRule(d: Dag, g: seq<real>, root: nat)
    requires Acyclic(d) && |g| == |d.ops| && root < |g| && CanBackprop(d, root)
    requires InternalUnshared(d, root) && InternalGradsZero(d, g, root)
    ensures Walk(d, g[root := 1.0], root)[root] == 1.0
    ensures forall j | 0 <= j < |g| && j != root ::
      Walk(d, g[root := 1.0], root)[j] == g[j] + Derivative(d, root, j)
  {
    var g0 := g[root := 1.0];
    forall j | 0 <= j < |g| && j != root
      ensures Walk(d, g0, root)[j] == g[j] + Derivative(d, root, j)
    {
      WalkAt(d, g0, root, j);
    }
  }
}
