# Scalar reverse-mode autodiff engine (`engine.py`), modelled in Dafny

`engine.py` defines `Value`, a scalar node of an expression graph. Each
operator (`+`, `-`, `*`, `/`, `**`, unary `-`, the reflected `+` and `*`, and
`tanh`) builds a new node. It computes the node's `data` from its operands at
once, records the operands as the node's children (`prev`), and attaches a
`_backward` closure. That closure adds the node's `grad`, weighted by the local
partial derivative, into each operand's `grad`. `backprop` sets the root's
`grad` to 1.0 and then recursively runs `backward` on the node and on each
child of `prev`, in order.

The model has five modules:

- `RealPow` (real_pow.dfy) models Python's `**` with an integer exponent over
  the reals.
- `Graph` (graph.dfy) describes the graph as a value.
  - A `Dag` is an arena of nodes addressed by index. Every node carries an `Op`
    tag (`Leaf`, `Add`, `Mul`, `Pow`, `Tanh`) that fixes both its children and
    its backward rule. Operands always have smaller indices than the nodes
    built from them.
  - `LocalStep` is one `_backward` closure.
  - `Walk` and `WalkAll` are `backward_recursion` as written: pre-order,
    children in order, and no record of visited nodes. A node reached along `n`
    paths has its rule run `n` times.
- `ChainRule` (chain_rule.dfy) is the reference the walk is compared with.
  - `Partial` is the table of local derivatives.
  - `ChainSum` carries a seed from a node down every path to another node,
    multiplies it by each local partial on the way, and sums the arrivals.
    `Derivative` is `ChainSum` with seed 1.0.
  - The main theorem, `BackpropIsChainRule`, applies when no node other than a
    leaf is reachable from the root along two paths, and the nodes below the
    root that are not leaves start at gradient 0. Under those conditions,
    `backprop` adds exactly `Derivative(root, j)` to every other node `j`.
- `Engine` (engine.dfy) is the `Value` API as a class `Arena`.
  - The fields `ops`, `data` and `grad` are sequences. They grow by one slot per
    node built, and `grad` is updated in place.
  - There is one method per operator, one per `_backward` closure, and
    `BackwardRecursion` and `Backprop`. Each is proved against the `Graph`
    functions.
- `Scenarios` (scenarios.dfy) holds worked examples: `x * x`, `tanh x`, and the
  composed expression `a + b - (a * b + b ** 3)`, built and differentiated
  through the arena. It also holds the counterexample for shared internal
  nodes.

`engine.py:68-76` is a plain recursion with no set of visited nodes, not a
topologically ordered pass that visits each node once; the model follows the
code. For `u = x * x;
y = u + u`, the code leaves `8 x` in `x.grad`, where the derivative is `4 x`
(`Scenarios.SharedSubtermOverAccumulates`).

`Scale(s, w)` is the product `s * w` of a gradient and a local weight.
`PowSlope` and `TanhSlope` are the weights of the `**` and `tanh` rules. The
model writes these as functions so that equal products stay syntactically equal
across the proofs.

## Model

| member | source | states |
|---|---|---|
| RealPow.Power | engine.py:42 | `x ** k` for an integer `k`: defined when `k >= 0` or `x != 0` (otherwise Python raises ZeroDivisionError); nonzero for a nonzero base; a negative power is the reciprocal of the positive one |
| RealPow.PowerStep | engine.py:45 | `x ** k == x * x ** (k - 1)` wherever both sides are defined; `Graph.PowSlopeStep` builds the power rule on it |
| Graph.Children | engine.py:6 | the `prev` tuple that `__init__` stores and the operators fill at lines 15, 29, 42 and 60: at most two entries, empty exactly for a leaf, and a node's operands all predate index `i` exactly when every entry is below `i` |
| Graph.BackwardDefined | engine.py:45 | only the `**` rule can raise: every other rule runs; a power `x ** k` with `k != 0` whose forward value was defined has a rule that runs; `x ** 0` at `x == 0` has value 1 but its rule evaluates `0 ** -1` and raises ZeroDivisionError |
| Graph.CanBackprop | engine.py:68-76 | a walk that can run needs the root's own rule to run, and a leaf's walk always runs |
| ChainRule.CanBackpropReachable | engine.py:68-76 | `backprop` from `i` runs without ZeroDivisionError exactly when the rule of every node reachable from `i` runs |
| Graph.PowSlope | engine.py:45 | the weight `k * x ** (k - 1)` of the `**` rule: 0 for `x ** 0`, 1 for `x ** 1`, and nonzero for any other power of a nonzero base |
| Graph.PowSlopeStep | engine.py:41-45 | the power rule one factor at a time: d(x ** k)/dx == x ** (k - 1) + x * d(x ** (k - 1))/dx, which is the product rule applied to `x ** k == x * x ** (k - 1)` |
| Graph.TanhSlope | engine.py:63 | the weight `1 - tanh(x) ** 2` of the `tanh` rule: at most 1, and positive for every value `-1 < t < 1` that `tanh` takes |
| Graph.LocalStep | engine.py:17-63 | one `_backward` closure: only the operands' gradients change, and the node's own gradient and everything else stay as they were |
| Graph.SameOperandStep | engine.py:17-33 | when a node is both operands, both `+=` hit it: `x + x` gives it `2 * out.grad` and `x * x` gives it `2 * x.data * out.grad` |
| Graph.Walk | engine.py:71-74 | `backward_recursion(i)` runs the node's rule and then walks each child of `prev` in order; nodes created after `i` keep their gradients |
| Graph.WalkAll | engine.py:73-74 | the `for node in parent_node.prev` loop walks each child in turn; nodes at or above the bound keep their gradients |
| Graph.WalkLeaf | engine.py:8 | a leaf's backward is a no-op and it has no children, so walking it changes nothing |
| Graph.WalkUnary | engine.py:71-74 | walking a one-operand node is its rule followed by the walk of its operand |
| Graph.WalkBinary | engine.py:71-74 | walking a two-operand node is its rule, then the first operand's walk, then the second's |
| Graph.WalkUnreachable | engine.py:71-74 | a node with no path from the walked node keeps its gradient |
| ChainRule.LocalStepAddsPartials | engine.py:17-63 | each closure adds `out.grad` times the local partial derivative into each operand, and into a repeated operand both shares |
| ChainRule.ChainSumLinear | engine.py:68-76 | the chain-rule sum is linear in its seed: a seed `s * t` arrives as `s` times what `t` brings |
| ChainRule.SeedTimesDerivative | engine.py:68-76 | a seed `s` arrives at `j` as `s` times d(node i)/d(node j) |
| ChainRule.ChainRuleRecursion | engine.py:13-66 | the textbook chain rule: a leaf's derivative with respect to another node is 0, and otherwise the derivative is the sum over operands of local partial times the operand's derivative |
| ChainRule.DerivativeUnary | engine.py:41-66 | the chain rule through `**` and `tanh` |
| ChainRule.DerivativeBinary | engine.py:13-36 | the chain rule through `+` and `*` |
| ChainRule.PathCountAbove | engine.py:15 | a node never reaches a node created after it, because children exist before their parents |
| ChainRule.ChainSumUnreached | engine.py:68-76 | nothing arrives at a node that has no path from the seeded one |
| ChainRule.WalkAt | engine.py:71-74 | under the readiness conditions, the walk from `i` adds to each other node exactly what `i`'s gradient passes to it by the chain rule |
| ChainRule.WalkIsChainRule | engine.py:71-74 | under the readiness conditions, the walk from `i` adds `grad[i] * d(node i)/d(node j)` to every other node `j` |
| ChainRule.BackpropIsChainRule | engine.py:68-76 | after `backprop`, the root holds 1.0; when only leaves are shared below the root and the other nodes below it start at 0, every other node gains exactly its derivative with respect to the root |
| Engine.Zeros | engine.py:7 | every new node starts with `grad == 0.0` |
| Engine.Arena.Push | engine.py:4-8 | `Value(data, children)` as the operators call it at lines 15, 29, 42 and 60: appends one node with the given `data` and children and `grad == 0.0`, returns its index, and keeps the arena acyclic |
| Engine.Arena.Value | engine.py:4-8 | `Value(x)` appends a leaf with `data == x`, no children and `grad == 0.0`, and changes nothing else |
| Engine.Arena.Wrap | engine.py:14 | a `Value` operand is used as it is; a number is wrapped in a fresh leaf holding it |
| Engine.Arena.Add | engine.py:13-22 | `x + other` appends a node (after a leaf, for a number) with `data == x.data + other`, children `(x, other)` and gradient 0 |
| Engine.Arena.Mul | engine.py:27-36 | `x * other` appends a node with `data == x.data * other` and children `(x, other)` |
| Engine.Arena.Pow | engine.py:41-48 | `x ** k` appends a node with `data == x.data ** k` and the single child `x` |
| Engine.Arena.Tanh | engine.py:59-66 | `x.tanh()` appends a node with `data == tanh(x.data)` and the single child `x` |
| Engine.Arena.Neg | engine.py:56-57 | `-x` is `x * -1`: the leaf `-1` and a product, with `data == -x.data` |
| Engine.Arena.Sub | engine.py:24-25 | `x - other` is `x + (-other)`, with `data == x.data - other`; a `Value` is negated by `Neg`, a number before it is wrapped |
| Engine.Arena.Div | engine.py:38-39 | `x / other` is `x * other ** -1`, with `data == x.data / other` |
| Engine.Arena.RAdd | engine.py:50-51 | `n + x` is `x + n`, with `data == n + x.data` |
| Engine.Arena.RMul | engine.py:53-54 | `n * x` is `x * n`, with `data == n * x.data` |
| Engine.Arena.Backward | engine.py:72 | `node.backward()` runs the closure that built the node (none for a leaf), giving `LocalStep`; `data` and the graph are unchanged |
| Engine.Arena.AddBackward | engine.py:17-19 | both operands gain `out.grad` |
| Engine.Arena.MulBackward | engine.py:31-33 | `self` gains `other.data * out.grad`, then `other` gains `self.data * out.grad` |
| Engine.Arena.PowBackward | engine.py:44-45 | the operand gains `k * self.data ** (k - 1) * out.grad` |
| Engine.Arena.TanhBackward | engine.py:62-63 | the operand gains `(1 - tanh(self.data) ** 2) * out.grad` |
| Engine.Arena.BackwardRecursion | engine.py:71-74 | the recursive method, with its `for` loop over `prev`, leaves exactly `Walk` in `grad`, and it terminates because children predate parents |
| Engine.Arena.Backprop | engine.py:68-76 | the root's `grad` becomes 1.0, then the walk; unreachable nodes keep their gradients; under the conditions of `BackpropIsChainRule`, every other node gains its derivative |
| Engine.Reciprocal | engine.py:38-39 | `v ** -1 == 1 / v` for `v != 0` |
| Scenarios.SquareGradient | engine.py:27-36 | `y = x * x`, `y.backprop()` leaves `x.grad == 2 * x.data` |
| Scenarios.SharedSubtermOverAccumulates | engine.py:68-76 | for `u = x * x; y = u + u`, the derivative is `4 x` but the naive walk leaves `8 x` |
| Scenarios.TanhGradient | engine.py:59-66 | `y = x.tanh()`, `y.backprop()` leaves `x.grad == 1 - tanh(x) ** 2` |
| Scenarios.ComposedGradients | engine.py:68-76 | for `e = (a + b) - (a * b + b ** 3)` at `a = -4`, `b = 2`, the walk leaves `a.grad == -1`, `b.grad == -7` and the intermediate gradients |
| Scenarios.ComposedExample | engine.py:13-76 | built and differentiated through the arena's operators: `e.data == -2`, `a.grad == -1`, `b.grad == -7` |

## Left out

- nn.py is not part of this model. It holds weight initialisation by `random.uniform`, a forward pass calling a `relu` that `Value` does not define, and list plumbing.
- `__repr__` is not modelled; it only formats text.
- IEEE floating point is not modelled: `data` and `grad` are reals, so rounding, overflow, NaN and infinity are absent.
- `math.tanh` is not computed: the arena takes it as a function parameter `tanh`, and only the shape of the derivative rule depends on it.
- Exponents are integers only. The source never wraps the exponent, so a `Value` exponent or a non-integer exponent would reach Python's float `**`, which the model does not cover.
- `Value(data, children)` with an explicit `children` tuple and the default no-op `backward` is not modelled; only the operators build nodes with children.
- An operand that is neither a `Value` nor a number (Python raises while computing `data`) is not modelled.
- Engine.Arena.Pow: Python's ZeroDivisionError on a negative power of zero is a precondition, not an error result.
- Engine.Arena.Div: the ZeroDivisionError on a zero divisor is a precondition, not an error result.
- Engine.Arena.Backprop: the ZeroDivisionError that the `**` rule raises (for `k < 1` at base 0) partway through a walk is excluded by the precondition `CanBackprop`; the gradients a failed walk would leave half-updated are not modelled.
- Engine.Arena.Backprop: the chain-rule guarantee is proved only when no node other than a leaf is shared below the root. For shared internal nodes the code over-accumulates, and `Scenarios.SharedSubtermOverAccumulates` shows this. A topologically ordered pass is not in the code and is not modelled.
- Engine.Arena.BackwardRecursion (and so Engine.Arena.Backprop and Graph.Walk): Python's recursion limit is not modelled. A graph deeper than about 1000 levels, such as `x = x + 1` repeated 1000 times, makes `backward_recursion` raise RecursionError partway through and leaves the gradients half-updated; the model's recursion always terminates with `grad == Walk(...)`.
- Object identity is represented by arena indices in one arena; `Value` objects spread over unrelated graphs are one arena here.
- `relu`, `__rsub__` and `__rtruediv__` are not defined by the source and are not modelled.
