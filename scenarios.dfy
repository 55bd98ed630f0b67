/** Small expressions worked through the model: what `backprop` leaves in the
    gradients, and where the naive walk departs from the chain rule. */
module Scenarios {
  import opened RealPow
  import opened Graph
  import opened ChainRule
  import opened Engine

  /** `y = x * x` over a fresh leaf `x`. */
  function SquareGraph(x: real, tanh: real -> real): (d: Dag)
    ensures |d.ops| == 2 && Acyclic(d) && CanBackprop(d, 1)
  {
    Dag([Leaf, Mul(0, 0)], [x, x * x], tanh)
  }

  /** `y.backprop()` on `y = x * x` leaves `x.grad == 2 * x.data`. */
  lemma {:induction false} SquareGradient(x: real, tanh: real -> real)
    ensures Walk(SquareGraph(x, tanh), [0.0, 1.0], 1) == [2.0 * x, 1.0]
  {
    var d := SquareGraph(x, tanh);
    var g1 := LocalStep(d, [0.0, 1.0], 1);
    assert g1 == [2.0 * x, 1.0];
    WalkBinary(d, [0.0, 1.0], 1, 0, 0, g1);
    WalkLeaf(d, g1, 0);
  }

  /** `u = x * x; y = u + u`: the internal node `u` is reached along two paths. */
  function SharedGraph(x: real, tanh: real -> real): (d: Dag)
    ensures |d.ops| == 3 && Acyclic(d) && CanBackprop(d, 2)
  {
    Dag([Leaf, Mul(0, 0), Add(1, 1)], [x, x * x, x * x + x * x], tanh)
  }

  /** The naive walk over-accumulates through a shared internal node: `y = 2 x ** 2`
      has derivative `4 x`, but `backprop` leaves `8 x` in `x.grad`, because `u`'s
      rule runs once per path and the second run sees the gradient the first
      already passed on. */
  lemma {:induction false} SharedSubtermOverAccumulates(x: real, tanh: real -> real)
    ensures Derivative(SharedGraph(x, tanh), 2, 0) == 4.0 * x
    ensures Walk(SharedGraph(x, tanh), [0.0, 0.0, 1.0], 2)[0] == 8.0 * x
  {
    var d := SharedGraph(x, tanh);
    var g1 := LocalStep(d, [0.0, 0.0, 1.0], 2);
    assert g1 == [0.0, 2.0, 1.0];
    // first path through `u`: its rule passes 2 * 2x to `x`
    var g2 := LocalStep(d, g1, 1);
    assert g2 == [4.0 * x, 2.0, 1.0];
    WalkLeaf(d, g2, 0);
    WalkBinary(d, g1, 1, 0, 0, g2);
    WalkBinary(d, [0.0, 0.0, 1.0], 2, 1, 1, g2);
    // second path: `u.grad` is still 2, so `x` gains 4x again
    var g3 := LocalStep(d, g2, 1);
    assert g3 == [8.0 * x, 2.0, 1.0];
    WalkLeaf(d, g3, 0);
    WalkBinary(d, g2, 1, 0, 0, g3);
    DerivativeBinary(d, 2, 0, 1, 1);
    DerivativeBinary(d, 1, 0, 0, 0);
  }

  /** `y = tanh(x)`. */
  function TanhGraph(x: real, tanh: real -> real): (d: Dag)
    ensures |d.ops| == 2 && Acyclic(d) && CanBackprop(d, 1)
  {
    Dag([Leaf, Tanh(0)], [x, tanh(x)], tanh)
  }

  /** `y.backprop()` on `y = tanh(x)` leaves `x.grad == 1 - tanh(x) ** 2`. */
  lemma {:induction false} TanhGradient(x: real, tanh: real -> real)
    ensures Walk(TanhGraph(x, tanh), [0.0, 1.0], 1) == [1.0 - tanh(x) * tanh(x), 1.0]
  {
    var d := TanhGraph(x, tanh);
    var g1 := LocalStep(d, [0.0, 1.0], 1);
    var t := tanh(x);
    assert Scale(1.0, TanhSlope(t)) == 1.0 - t * t;
    assert g1 == [1.0 - t * t, 1.0];
    WalkUnary(d, [0.0, 1.0], 1, 0);
    WalkLeaf(d, g1, 0);
  }

  /** The arena after `a = Value(-4.0); b = Value(2.0); c = a + b;
      d = a * b + b ** 3; e = c - d`, where `c - d` adds the leaf `-1` and the
      nodes `d * -1` and `c + (d * -1)`. */
  function ComposedGraph(tanh: real -> real): (d: Dag)
    ensures |d.ops| == 9 && Acyclic(d) && CanBackprop(d, 8)
  {
    Dag([Leaf, Leaf, Op.Add(0, 1), Op.Mul(0, 1), Op.Pow(1, 3), Op.Add(3, 4), Leaf, Op.Mul(5, 6), Op.Add(2, 7)],
        [-4.0, 2.0, -2.0, -8.0, 8.0, 0.0, -1.0, 0.0, -2.0], tanh)
  }

  /** `e.backprop()` on the composed expression: the walk visits every node once
      (only the leaves `a` and `b` are shared), and leaves `a.grad == 1 - b == -1`
      and `b.grad == 1 - a - 3 * b ** 2 == -7`. */
  lemma {:induction false} ComposedGradients(tanh: real -> real)
    ensures Walk(ComposedGraph(tanh), Zeros(9)[8 := 1.0], 8) == [-1.0, -7.0, 1.0, -1.0, -1.0, -1.0, 0.0, 1.0, 1.0]
  {
    ComposedFirstOperand(tanh);
    ComposedSecondOperand(tanh);
  }

  /** The rule of `e = c + (d * -1)` and the walk of `c = a + b`. */
  lemma {:induction false} ComposedFirstOperand(tanh: real -> real)
    ensures Walk(ComposedGraph(tanh), Zeros(9)[8 := 1.0], 8)
         == Walk(ComposedGraph(tanh), [1.0, 1.0, 1.0, 0.0, 0.0, 0.0, 0.0, 1.0, 1.0], 7)
  {
    var d := ComposedGraph(tanh);
    var g0 := Zeros(9)[8 := 1.0];
    assert g0 == [0.0, 0.0, 0.0, 0.0, 0.0, 0.0, 0.0, 0.0, 1.0];
    // e = c + (d * -1): both operands gain 1
    var s8 := LocalStep(d, g0, 8);
    assert s8 == [0.0, 0.0, 1.0, 0.0, 0.0, 0.0, 0.0, 1.0, 1.0];
    // c = a + b: both leaves gain 1
    var s2 := LocalStep(d, s8, 2);
    assert s2 == [1.0, 1.0, 1.0, 0.0, 0.0, 0.0, 0.0, 1.0, 1.0];
    WalkLeaf(d, s2, 0);
    WalkLeaf(d, s2, 1);
    WalkBinary(d, s8, 2, 0, 1, s2);
    WalkBinary(d, g0, 8, 2, 7, s2);
  }

  /** The walk of `d * -1`, which walks `d = a * b + b ** 3`. */
  lemma {:induction false} ComposedSecondOperand(tanh: real -> real)
    ensures Walk(ComposedGraph(tanh), [1.0, 1.0, 1.0, 0.0, 0.0, 0.0, 0.0, 1.0, 1.0], 7)
         == [-1.0, -7.0, 1.0, -1.0, -1.0, -1.0, 0.0, 1.0, 1.0]
  {
    var d := ComposedGraph(tanh);
    var s2 := [1.0, 1.0, 1.0, 0.0, 0.0, 0.0, 0.0, 1.0, 1.0];
    // d * -1: d gains -1, the leaf -1 gains d.data == 0
    var s7 := LocalStep(d, s2, 7);
    assert s7 == [1.0, 1.0, 1.0, 0.0, 0.0, -1.0, 0.0, 1.0, 1.0];
    // d = a * b + b ** 3: both operands gain -1
    var s5 := LocalStep(d, s7, 5);
    assert s5 == [1.0, 1.0, 1.0, -1.0, -1.0, -1.0, 0.0, 1.0, 1.0];
    var s3 := ComposedProduct(tanh, s5);
    WalkBinary(d, s7, 5, 3, 4, s3);
    var s4 := ComposedCube(tanh, s3);
    WalkBinary(d, s2, 7, 5, 6, s4);
    WalkLeaf(d, s4, 6);
  }

  /** The walk of `a * b` with `(a * b).grad == -1`: `a` gains `b * -1`, `b` gains `a * -1`. */
  lemma {:induction false} ComposedProduct(tanh: real -> real, s5: seq<real>) returns (s3: seq<real>)
    requires s5 == [1.0, 1.0, 1.0, -1.0, -1.0, -1.0, 0.0, 1.0, 1.0]
    ensures s3 == [-1.0, 5.0, 1.0, -1.0, -1.0, -1.0, 0.0, 1.0, 1.0]
    ensures Walk(ComposedGraph(tanh), s5, 3) == s3
  {
    var d := ComposedGraph(tanh);
    s3 := LocalStep(d, s5, 3);
    assert s3 == [-1.0, 5.0, 1.0, -1.0, -1.0, -1.0, 0.0, 1.0, 1.0];
    WalkLeaf(d, s3, 0);
    WalkLeaf(d, s3, 1);
    WalkBinary(d, s5, 3, 0, 1, s3);
  }

  /** The walk of `b ** 3` with `(b ** 3).grad == -1`: `b` gains `3 * b ** 2 * -1 == -12`. */
  lemma {:induction false} ComposedCube(tanh: real -> real, s3: seq<real>) returns (s4: seq<real>)
    requires s3 == [-1.0, 5.0, 1.0, -1.0, -1.0, -1.0, 0.0, 1.0, 1.0]
    ensures s4 == [-1.0, -7.0, 1.0, -1.0, -1.0, -1.0, 0.0, 1.0, 1.0]
    ensures Walk(ComposedGraph(tanh), s3, 4) == s4
  {
    var d := ComposedGraph(tanh);
    assert PowSlope(2.0, 3) == 12.0 by {
      assert Power(2.0, 2) == 4.0;
    }
    s4 := LocalStep(d, s3, 4);
    assert s4 == [-1.0, -7.0, 1.0, -1.0, -1.0, -1.0, 0.0, 1.0, 1.0];
    WalkUnary(d, s3, 4, 1);
    WalkLeaf(d, s4, 1);
  }

  /** `a = Value(-4.0); b = Value(2.0); c = a + b; d = a * b + b ** 3; e = c - d`
      in a fresh arena. */
  method BuildComposed(tanh: real -> real) returns (arena: Arena, a: nat, b: nat, e: nat)
    ensures fresh(arena) && arena.Valid() && arena.tanh == tanh
    ensures arena.Snapshot() == ComposedGraph(tanh) && arena.grad == Zeros(9)
    ensures a == 0 && b == 1 && e == 8
  {
    arena := new Arena(tanh);
    a := arena.Value(-4.0);
    b := arena.Value(2.0);
    var c := arena.Add(a, Node(b));
    assert arena.ops == [Leaf, Leaf, Op.Add(0, 1)] && arena.data == [-4.0, 2.0, -2.0];
    var d := BuildRightSide(arena);
    e := arena.Sub(c, Node(d));
    assert arena.ops == ComposedGraph(tanh).ops;
    assert arena.data == ComposedGraph(tanh).data;
  }

  /** `d = a * b + b ** 3` on top of `a`, `b` and `c`. */
  method BuildRightSide(arena: Arena) returns (d: nat)
    requires arena.Valid() && arena.ops == [Leaf, Leaf, Op.Add(0, 1)]
    requires arena.data == [-4.0, 2.0, -2.0] && arena.grad == Zeros(3)
    modifies arena
    ensures arena.Valid() && d == 5
    ensures arena.ops == [Leaf, Leaf, Op.Add(0, 1), Op.Mul(0, 1), Op.Pow(1, 3), Op.Add(3, 4)]
    ensures arena.data == [-4.0, 2.0, -2.0, -8.0, 8.0, 0.0] && arena.grad == Zeros(6)
  {
    var ab := arena.Mul(0, Node(1));
    assert Power(2.0, 3) == 8.0;
    var b3 := arena.Pow(1, 3);
    d := arena.Add(ab, Node(b3));
  }

  /** The composed expression built and differentiated through the arena's
      operators: `e.data == -2`, `a.grad == -1`, `b.grad == -7`. */
  method ComposedExample(tanh: real -> real) returns (eData: real, aGrad: real, bGrad: real)
    ensures eData == -2.0 && aGrad == -1.0 && bGrad == -7.0
  {
    var arena, a, b, e := BuildComposed(tanh);
    arena.Backprop(e);
    ComposedGradients(tanh);
    eData, aGrad, bGrad := arena.data[e], arena.grad[a], arena.grad[b];
  }
}
