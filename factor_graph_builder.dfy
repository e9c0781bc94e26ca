/** The factor graph builder: variables and factors are added one at a time,
    every factor-variable edge appends a matching slot at both ends (the
    peer's index, the index of the matching receiver over there, and a pair
    of initial messages), and `build` points every sender at its peer
    receiver. */
module GraphBuilder {
  import opened Slots
  import opened Topology
  import opened Nodes
  import MessagePassing

  /** `FGBuilderError`. */
  datatype FGBuilderError =
    | DegreeError(degree: nat, varIndices: seq<nat>)
    | OutOfRangeVariable(size: nat, index: nat)

  /** `FGBuilderResult<()>`. */
  datatype FGBuilderResult = Ok | Err(error: FGBuilderError)

  /** The builder's graph after an operation, the position the message
      initializer has reached, and the operation's result. The initializer is
      the stream `init`: its n-th call returns `init(n)`. */
  datatype Added<F, V, M> = Added(graph: Graph<F, V, M>, cursor: nat, result: FGBuilderResult)

  // ---------------------------------------------------------------------------
  // The builder's operations on graph values

  /** `new_with_variables(n, _)`: n disconnected variables and no factor. */
  function WithVariables<F, V, M>(variable: V, n: nat): (g: Graph<F, V, M>)
  {
    Graph([], seq(n, _ => Disconnected(variable)))
  }

  /** `add_variable`: one more disconnected variable. */
  function AddVariableSpec<F, V, M>(g: Graph<F, V, M>, variable: V): (h: Graph<F, V, M>)
  {
    g.(variables := g.variables + [Disconnected(variable)])
  }

  /** One pass of the loop of `add_factor`, for the edge between factor f and
      variable v: both get a null sender and a slot naming the other end and
      the receiver index just pushed there; `fm` (the first message drawn)
      becomes the factor's receiver and the variable's message, `vm` the
      factor's message and the variable's receiver. */
  function WireSlot<F, V, M>(g: Graph<F, V, M>, f: nat, v: nat, fm: M, vm: M): (h: Graph<F, V, M>)
    requires f < |g.factors| && v < |g.variables|
    ensures |h.factors| == |g.factors| && |h.variables| == |g.variables|
  {
    var x, y := g.factors[f], g.variables[v];
    var x' := x.(senders := x.senders + [Null], receivers := x.receivers + [fm], messages := x.messages + [vm],
                 peers := x.peers + [v], peerSlots := x.peerSlots + [|y.receivers|]);
    var y' := y.(senders := y.senders + [Null], messages := y.messages + [fm], receivers := y.receivers + [vm],
                 peers := y.peers + [f], peerSlots := y.peerSlots + [|x.receivers|]);
    Graph(g.factors[f := x'], g.variables[v := y'])
  }

  /** The loop of `add_factor` over the variable indices, for factor f, with
      the initializer at `cursor`: it stops with `OutOfRangeVariable` at the
      first index that names no variable, leaving the earlier edges wired. */
  function Wire<F, V, M>(g: Graph<F, V, M>, f: nat, indices: seq<nat>, init: nat -> M, cursor: nat): (w: Added<F, V, M>)
    requires f < |g.factors|
    ensures |w.graph.factors| == |g.factors| && |w.graph.variables| == |g.variables|
    decreases |indices|
  {
    if indices == [] then Added(g, cursor, Ok)
    else if |g.variables| <= indices[0] then Added(g, cursor, Err(OutOfRangeVariable(|g.variables|, indices[0])))
    else Wire(WireSlot(g, f, indices[0], init(cursor), init(cursor + 1)), f, indices[1..], init, cursor + 2)
  }

  /** `add_factor(factor, indices, init)` when the factor's degree is
      `degree`: the degree check comes first and changes nothing; then the
      factor node is pushed and its edges are wired. */
  function AddFactorSpec<F, V, M>(g: Graph<F, V, M>, factor: F, degree: nat, indices: seq<nat>, init: nat -> M, cursor: nat): Added<F, V, M>
  {
    if degree != |indices| then Added(g, cursor, Err(DegreeError(degree, indices)))
    else Wire(g.(factors := g.factors + [Disconnected(factor)]), |g.factors|, indices, init, cursor)
  }

  /** The first k nodes of xs with their senders initialised. */
  function WiredUpTo<K, M>(xs: seq<Node<K, M>>, k: nat): seq<Node<K, M>>
  {
    seq(|xs|, a requires 0 <= a < |xs| => if a < k then WithSenders(xs[a]) else xs[a])
  }

  /** Initialising the senders of node k extends the prefix by one. */
  lemma WiredUpToStep<K, M>(xs: seq<Node<K, M>>, k: nat)
    requires k < |xs|
    ensures WiredUpTo(xs, k)[k := WithSenders(xs[k])] == WiredUpTo(xs, k + 1)
  {
  }

  /** `build`: every factor, then every variable, initialises its senders. */
  function Built<F, V, M>(g: Graph<F, V, M>): Graph<F, V, M>
  {
    Graph(WiredUpTo(g.factors, |g.factors|), WiredUpTo(g.variables, |g.variables|))
  }

  // ---------------------------------------------------------------------------
  // Helpers for stating the outcome of `add_factor`

  /** The position of the first index that is not below n, or |indices|. */
  function FirstOutOfRange(indices: seq<nat>, n: nat): (m: nat)
    ensures m <= |indices|
    ensures forall k :: 0 <= k < m ==> indices[k] < n
    ensures m < |indices| ==> n <= indices[m]
    decreases |indices|
  {
    if indices == [] || n <= indices[0] then 0 else 1 + FirstOutOfRange(indices[1..], n)
  }

  /** How often j occurs in indices. */
  function Count(indices: seq<nat>, j: nat): (c: nat)
    ensures c <= |indices|
    ensures c == 0 <==> forall k :: 0 <= k < |indices| ==> indices[k] != j
    decreases |indices|
  {
    if indices == [] then 0 else (if indices[0] == j then 1 else 0) + Count(indices[1..], j)
  }

  /** n copies of x. */
  function Repeat<T>(x: T, n: nat): (s: seq<T>)
    ensures |s| == n && forall k :: 0 <= k < n ==> s[k] == x
  {
    seq(n, _ => x)
  }

  /** The stream `init` from position `from`, every other element, k times:
      the messages one side of k edges receives. */
  function Drawn<M>(init: nat -> M, from: nat, k: nat): (s: seq<M>)
    ensures |s| == k && forall i :: 0 <= i < k ==> s[i] == init(from + 2 * i)
  {
    seq(k, i requires 0 <= i < k => init(from + 2 * i))
  }

  // ---------------------------------------------------------------------------
  // What the builder keeps

  /** The builder's invariant: square nodes cross-linked both ways, senders
      still null, and every message already in the receiver it is bound for
      (each edge's two messages are handed to both ends at once). */
  ghost predicate Consistent<F, V, M>(g: Graph<F, V, M>)
  {
    Linked(g) && Unwired(g.factors) && Unwired(g.variables) && MessagePassing.Paired(g)
  }

  /** A graph without factors, or without slots, is consistent. */
  lemma WithVariablesConsistent<F, V, M>(variable: V, n: nat)
    ensures Consistent(WithVariables<F, V, M>(variable, n))
  {
    var g := WithVariables<F, V, M>(variable, n);
    assert forall j :: 0 <= j < n ==> g.variables[j] == Disconnected(variable);
  }

  /** `add_variable` keeps the invariant. */
  lemma AddVariableKeeps<F, V, M>(g: Graph<F, V, M>, variable: V)
    requires Consistent(g)
    ensures Consistent(AddVariableSpec(g, variable))
  {
    var h := AddVariableSpec(g, variable);
    assert forall j :: 0 <= j < |g.variables| ==> h.variables[j] == g.variables[j];
    assert h.variables[|g.variables|] == Disconnected(variable);
    assert AllSquare(h.variables);
    forall j, r | 0 <= j < |h.variables| && 0 <= r < |h.variables[j].peers| ensures SlotLinked(h.variables, h.factors, j, r) {
      assert SlotLinked(g.variables, g.factors, j, r);
    }
    forall i, k | 0 <= i < |h.factors| && 0 <= k < |h.factors[i].peers| ensures SlotLinked(h.factors, h.variables, i, k) {
      assert SlotLinked(g.factors, g.variables, i, k);
    }
    forall i, k | 0 <= i < |h.factors| && 0 <= k < |h.factors[i].peers| ensures SlotDelivered(h.factors, h.variables, i, k) {
      assert SlotDelivered(g.factors, g.variables, i, k);
    }
    forall j, r | 0 <= j < |h.variables| && 0 <= r < |h.variables[j].peers| ensures SlotDelivered(h.variables, h.factors, j, r) {
      assert SlotDelivered(g.variables, g.factors, j, r);
    }
  }

  /** Pushing the new factor node, before any edge, keeps the invariant. */
  lemma AddNodeKeeps<F, V, M>(g: Graph<F, V, M>, factor: F)
    requires Consistent(g)
    ensures Consistent(g.(factors := g.factors + [Disconnected(factor)]))
  {
    var h := g.(factors := g.factors + [Disconnected(factor)]);
    assert forall a :: 0 <= a < |g.factors| ==> h.factors[a] == g.factors[a];
    assert h.factors[|g.factors|] == Disconnected(factor);
    assert AllSquare(h.factors);
    forall i, k | 0 <= i < |h.factors| && 0 <= k < |h.factors[i].peers| ensures SlotLinked(h.factors, h.variables, i, k) {
      assert SlotLinked(g.factors, g.variables, i, k);
    }
    forall j, r | 0 <= j < |h.variables| && 0 <= r < |h.variables[j].peers| ensures SlotLinked(h.variables, h.factors, j, r) {
      assert SlotLinked(g.variables, g.factors, j, r);
    }
    forall j, r | 0 <= j < |h.variables| && 0 <= r < |h.variables[j].peers| ensures SlotDelivered(h.variables, h.factors, j, r) {
      assert SlotDelivered(g.variables, g.factors, j, r);
    }
    forall i, k | 0 <= i < |h.factors| && 0 <= k < |h.factors[i].peers| ensures SlotDelivered(h.factors, h.variables, i, k) {
      assert SlotDelivered(g.factors, g.variables, i, k);
    }
  }

  /** A new edge keeps the nodes square and cross-linked: the two new slots
      name each other, and the old slots keep their positions. */
  lemma WireSlotLinked<F, V, M>(g: Graph<F, V, M>, f: nat, v: nat, fm: M, vm: M)
    requires Linked(g) && f < |g.factors| && v < |g.variables|
    ensures Linked(WireSlot(g, f, v, fm, vm))
  {
    var h := WireSlot(g, f, v, fm, vm);
    var x, y := g.factors[f], g.variables[v];
    assert Square(x) && Square(y);
    forall i, k | 0 <= i < |h.factors| && 0 <= k < |h.factors[i].peers| ensures SlotLinked(h.factors, h.variables, i, k) {
      if i != f || k < |x.peers| {
        assert SlotLinked(g.factors, g.variables, i, k);
      }
    }
    forall j, r | 0 <= j < |h.variables| && 0 <= r < |h.variables[j].peers| ensures SlotLinked(h.variables, h.factors, j, r) {
      if j != v || r < |y.peers| {
        assert SlotLinked(g.variables, g.factors, j, r);
      }
    }
  }

  /** A new edge keeps every message in the receiver it is bound for: the
      pair of messages drawn for the edge is placed crosswise. */
  lemma WireSlotPaired<F, V, M>(g: Graph<F, V, M>, f: nat, v: nat, fm: M, vm: M)
    requires Linked(g) && MessagePassing.Paired(g) && f < |g.factors| && v < |g.variables|
    ensures MessagePassing.Paired(WireSlot(g, f, v, fm, vm))
  {
    var h := WireSlot(g, f, v, fm, vm);
    var x, y := g.factors[f], g.variables[v];
    assert Square(x) && Square(y);
    forall i, k | 0 <= i < |h.factors| && 0 <= k < |h.factors[i].peers| ensures SlotDelivered(h.factors, h.variables, i, k) {
      if i != f || k < |x.peers| {
        assert SlotDelivered(g.factors, g.variables, i, k);
      }
    }
    forall j, r | 0 <= j < |h.variables| && 0 <= r < |h.variables[j].peers| ensures SlotDelivered(h.variables, h.factors, j, r) {
      if j != v || r < |y.peers| {
        assert SlotDelivered(g.variables, g.factors, j, r);
      }
    }
  }

  /** A new edge keeps the invariant. */
  lemma WireSlotKeeps<F, V, M>(g: Graph<F, V, M>, f: nat, v: nat, fm: M, vm: M)
    requires Consistent(g) && f < |g.factors| && v < |g.variables|
    ensures Consistent(WireSlot(g, f, v, fm, vm))
  {
    WireSlotLinked(g, f, v, fm, vm);
    WireSlotPaired(g, f, v, fm, vm);
  }

  /** The loop of `add_factor` keeps the invariant, whether it completes or
      stops at an index out of range. */
  lemma {:induction false} WireKeeps<F, V, M>(g: Graph<F, V, M>, f: nat, indices: seq<nat>, init: nat -> M, cursor: nat)
    requires Consistent(g) && f < |g.factors|
    ensures Consistent(Wire(g, f, indices, init, cursor).graph)
    decreases |indices|
  {
    if indices != [] && indices[0] < |g.variables| {
      WireSlotKeeps(g, f, indices[0], init(cursor), init(cursor + 1));
      WireKeeps(WireSlot(g, f, indices[0], init(cursor), init(cursor + 1)), f, indices[1..], init, cursor + 2);
    }
  }

  /** `add_factor` keeps the invariant, on every path. */
  lemma AddFactorKeeps<F, V, M>(g: Graph<F, V, M>, factor: F, degree: nat, indices: seq<nat>, init: nat -> M, cursor: nat)
    requires Consistent(g)
    ensures Consistent(AddFactorSpec(g, factor, degree, indices, init, cursor).graph)
  {
    if degree == |indices| {
      AddNodeKeeps(g, factor);
      WireKeeps(g.(factors := g.factors + [Disconnected(factor)]), |g.factors|, indices, init, cursor);
    }
  }

  /** `build` on a consistent graph leaves what message passing needs: the
      links, every sender pointing at the receiver its slot names, and every
      message in that receiver; it changes nothing but the senders. */
  lemma BuiltReady<F, V, M>(g: Graph<F, V, M>)
    requires Consistent(g)
    ensures var h := Built(g);
      MessagePassing.Ready(h) && MessagePassing.Paired(h) &&
      |h.factors| == |g.factors| && |h.variables| == |g.variables| &&
      (forall a :: 0 <= a < |g.factors| ==> h.factors[a] == g.factors[a].(senders := h.factors[a].senders)) &&
      (forall j :: 0 <= j < |g.variables| ==> h.variables[j] == g.variables[j].(senders := h.variables[j].senders))
  {
    var h := Built(g);
    assert forall a :: 0 <= a < |g.factors| ==> h.factors[a] == WithSenders(g.factors[a]);
    assert forall j :: 0 <= j < |g.variables| ==> h.variables[j] == WithSenders(g.variables[j]);
    forall i | 0 <= i < |h.factors| ensures Square(h.factors[i]) {
      assert Square(g.factors[i]);
    }
    forall j | 0 <= j < |h.variables| ensures Square(h.variables[j]) {
      assert Square(g.variables[j]);
    }
    forall i, k | 0 <= i < |h.factors| && 0 <= k < |h.factors[i].peers| ensures SlotLinked(h.factors, h.variables, i, k) {
      assert SlotLinked(g.factors, g.variables, i, k);
    }
    forall j, r | 0 <= j < |h.variables| && 0 <= r < |h.variables[j].peers| ensures SlotLinked(h.variables, h.factors, j, r) {
      assert SlotLinked(g.variables, g.factors, j, r);
    }
    forall i, k | 0 <= i < |h.factors| && 0 <= k < |h.factors[i].peers| ensures SlotDelivered(h.factors, h.variables, i, k) {
      assert SlotDelivered(g.factors, g.variables, i, k);
    }
    forall j, r | 0 <= j < |h.variables| && 0 <= r < |h.variables[j].peers| ensures SlotDelivered(h.variables, h.factors, j, r) {
      assert SlotDelivered(g.variables, g.factors, j, r);
    }
  }

  // ---------------------------------------------------------------------------
  // What `add_factor` does

  /** One pass of the wiring loop, and what it does to factor f. */
  lemma WireStep<F, V, M>(g: Graph<F, V, M>, f: nat, indices: seq<nat>, init: nat -> M, cursor: nat)
    requires f < |g.factors| && indices != [] && indices[0] < |g.variables|
    ensures var g1 := WireSlot(g, f, indices[0], init(cursor), init(cursor + 1));
      var x, x1 := g.factors[f], g1.factors[f];
      Wire(g, f, indices, init, cursor) == Wire(g1, f, indices[1..], init, cursor + 2) &&
      (forall a :: 0 <= a < |g.factors| && a != f ==> g1.factors[a] == g.factors[a]) &&
      x1.payload == x.payload && x1.peers == x.peers + [indices[0]] &&
      x1.receivers == x.receivers + [init(cursor)] && x1.messages == x.messages + [init(cursor + 1)] &&
      x1.senders == x.senders + [Null]
  {
  }

  /** The wiring loop over indices that all name variables, on the factor
      side: it completes, draws two messages per index, and appends one slot
      per index to factor f, naming that variable, with a null sender; no
      other factor changes. */
  lemma {:induction false} WireFactor<F, V, M>(g: Graph<F, V, M>, f: nat, indices: seq<nat>, init: nat -> M, cursor: nat)
    requires f < |g.factors|
    requires forall k :: 0 <= k < |indices| ==> indices[k] < |g.variables|
    ensures var w := Wire(g, f, indices, init, cursor);
      var x, x' := g.factors[f], w.graph.factors[f];
      w.result == Ok && w.cursor == cursor + 2 * |indices| &&
      (forall a :: 0 <= a < |g.factors| && a != f ==> w.graph.factors[a] == g.factors[a]) &&
      x'.payload == x.payload && x'.peers == x.peers + indices &&
      x'.senders == x.senders + Repeat(Null, |indices|)
    decreases |indices|
  {
    if indices != [] {
      var v, rest := indices[0], indices[1..];
      var g1 := WireSlot(g, f, v, init(cursor), init(cursor + 1));
      WireFactor(g1, f, rest, init, cursor + 2);
      WireStep(g, f, indices, init, cursor);
      assert indices == [v] + rest;
      assert Repeat(Null, |indices|) == [Null] + Repeat(Null, |rest|);
    }
  }

  /** The messages of the wiring loop: factor f receives the first message
      drawn for each edge and keeps the second as its own. */
  lemma {:induction false} WireDraws<F, V, M>(g: Graph<F, V, M>, f: nat, indices: seq<nat>, init: nat -> M, cursor: nat)
    requires f < |g.factors|
    requires forall k :: 0 <= k < |indices| ==> indices[k] < |g.variables|
    ensures var x, x' := g.factors[f], Wire(g, f, indices, init, cursor).graph.factors[f];
      x'.receivers == x.receivers + Drawn(init, cursor, |indices|) &&
      x'.messages == x.messages + Drawn(init, cursor + 1, |indices|)
    decreases |indices|
  {
    if indices != [] {
      var rest := indices[1..];
      var g1 := WireSlot(g, f, indices[0], init(cursor), init(cursor + 1));
      WireDraws(g1, f, rest, init, cursor + 2);
      WireStep(g, f, indices, init, cursor);
      DrawnFirst(init, cursor, |rest|);
      DrawnFirst(init, cursor + 1, |rest|);
      var x, x1 := g.factors[f], g1.factors[f];
      assert x1.receivers + Drawn(init, cursor + 2, |rest|) == x.receivers + ([init(cursor)] + Drawn(init, cursor + 2, |rest|));
      assert x1.messages + Drawn(init, cursor + 3, |rest|) == x.messages + ([init(cursor + 1)] + Drawn(init, cursor + 3, |rest|));
    }
  }

  lemma DrawnFirst<M>(init: nat -> M, from: nat, k: nat)
    ensures Drawn(init, from, k + 1) == [init(from)] + Drawn(init, from + 2, k)
  {
    var s, t := Drawn(init, from, k + 1), [init(from)] + Drawn(init, from + 2, k);
    forall i | 0 < i < k + 1 ensures s[i] == t[i] {
      assert t[i] == Drawn(init, from + 2, k)[i - 1];
      assert from + 2 + 2 * (i - 1) == from + 2 * i;
    }
  }

  /** The wiring loop over indices that all name variables, on the variable
      side: each listed variable gets one slot naming factor f per
      occurrence of its index. */
  lemma {:induction false} WireVariables<F, V, M>(g: Graph<F, V, M>, f: nat, indices: seq<nat>, init: nat -> M, cursor: nat)
    requires f < |g.factors|
    requires forall k :: 0 <= k < |indices| ==> indices[k] < |g.variables|
    ensures var w := Wire(g, f, indices, init, cursor);
      forall j :: 0 <= j < |g.variables| ==>
        w.graph.variables[j].payload == g.variables[j].payload &&
        w.graph.variables[j].peers == g.variables[j].peers + Repeat(f, Count(indices, j))
    decreases |indices|
  {
    if indices != [] {
      var v, rest := indices[0], indices[1..];
      var g1 := WireSlot(g, f, v, init(cursor), init(cursor + 1));
      WireVariables(g1, f, rest, init, cursor + 2);
      WireStep(g, f, indices, init, cursor);
      var w := Wire(g, f, indices, init, cursor);
      forall j | 0 <= j < |g.variables|
        ensures w.graph.variables[j].payload == g.variables[j].payload
        ensures w.graph.variables[j].peers == g.variables[j].peers + Repeat(f, Count(indices, j))
      {
        if j == v {
          assert g1.variables[j].peers == g.variables[j].peers + [f];
          assert Repeat(f, Count(indices, j)) == [f] + Repeat(f, Count(rest, j));
        } else {
          assert g1.variables[j] == g.variables[j];
        }
      }
    }
  }

  /** The wiring loop stops at the first index that names no variable, with
      exactly the edges before it wired. */
  lemma {:induction false} WireOutcome<F, V, M>(g: Graph<F, V, M>, f: nat, indices: seq<nat>, init: nat -> M, cursor: nat)
    requires f < |g.factors|
    ensures var m := FirstOutOfRange(indices, |g.variables|);
      var w, u := Wire(g, f, indices, init, cursor), Wire(g, f, indices[..m], init, cursor);
      w.graph == u.graph && w.cursor == u.cursor &&
      w.result == (if m == |indices| then Ok else Err(OutOfRangeVariable(|g.variables|, indices[m])))
    decreases |indices|
  {
    if indices != [] && indices[0] < |g.variables| {
      var g1 := WireSlot(g, f, indices[0], init(cursor), init(cursor + 1));
      var m := FirstOutOfRange(indices, |g.variables|);
      WireOutcome(g1, f, indices[1..], init, cursor + 2);
      assert indices[..m][1..] == indices[1..][..m - 1];
    }
  }

  /** A degree that differs from the number of indices is rejected with
      `DegreeError` before anything changes, and only such a degree is. */
  lemma AddFactorRejects<F, V, M>(g: Graph<F, V, M>, factor: F, degree: nat, indices: seq<nat>, init: nat -> M, cursor: nat)
    ensures var s := AddFactorSpec(g, factor, degree, indices, init, cursor);
      (s.result == Err(DegreeError(degree, indices)) <==> degree != |indices|) &&
      (degree != |indices| ==> s.graph == g && s.cursor == cursor)
  {
    if degree == |indices| {
      var g' := g.(factors := g.factors + [Disconnected(factor)]);
      WireOutcome(g', |g.factors|, indices, init, cursor);
    }
  }

  /** With the right degree, the factor node is pushed and wired one edge per
      index up to the first index out of range (all of them when there is
      none, and then the result is `Ok`); that index is reported with the
      number of variables. The edges before it stay wired. */
  lemma AddFactorWires<F, V, M>(g: Graph<F, V, M>, factor: F, degree: nat, indices: seq<nat>, init: nat -> M, cursor: nat)
    requires degree == |indices|
    ensures var s, m, f := AddFactorSpec(g, factor, degree, indices, init, cursor), FirstOutOfRange(indices, |g.variables|), |g.factors|;
      (s.result == Ok <==> m == |indices|) &&
      (m < |indices| ==> s.result == Err(OutOfRangeVariable(|g.variables|, indices[m]))) &&
      s.cursor == cursor + 2 * m &&
      |s.graph.factors| == f + 1 && s.graph.factors[..f] == g.factors &&
      s.graph.factors[f].payload == factor && s.graph.factors[f].peers == indices[..m] &&
      s.graph.factors[f].receivers == Drawn(init, cursor, m) &&
      s.graph.factors[f].messages == Drawn(init, cursor + 1, m) &&
      s.graph.factors[f].senders == Repeat(Null, m) &&
      |s.graph.variables| == |g.variables| &&
      (forall j :: 0 <= j < |g.variables| ==>
        s.graph.variables[j].payload == g.variables[j].payload &&
        s.graph.variables[j].peers == g.variables[j].peers + Repeat(f, Count(indices[..m], j)))
  {
    var f := |g.factors|;
    var g' := g.(factors := g.factors + [Disconnected(factor)]);
    var m := FirstOutOfRange(indices, |g.variables|);
    WireOutcome(g', f, indices, init, cursor);
    WireFactor(g', f, indices[..m], init, cursor);
    WireDraws(g', f, indices[..m], init, cursor);
    WireVariables(g', f, indices[..m], init, cursor);
    assert indices[..m] == indices || m < |indices|;
    var s := AddFactorSpec(g, factor, degree, indices, init, cursor);
    assert s.graph.factors[..f] == g.factors by {
      forall a | 0 <= a < f ensures s.graph.factors[a] == g.factors[a] {
        assert g'.factors[a] == g.factors[a];
      }
    }
  }

  /** The factor nodes hold one slot per unit of their factor's degree. */
  ghost predicate DegreesMatch<F, V, M>(g: Graph<F, V, M>, degree: F -> nat)
  {
    forall a :: 0 <= a < |g.factors| ==> |g.factors[a].peers| == degree(g.factors[a].payload)
  }

  /** An `add_factor` that succeeds or fails its degree check keeps the slot
      counts equal to the degrees. */
  lemma AddFactorDegrees<F, V, M>(g: Graph<F, V, M>, factor: F, degree: F -> nat, indices: seq<nat>, init: nat -> M, cursor: nat)
    requires DegreesMatch(g, degree)
    ensures var s := AddFactorSpec(g, factor, degree(factor), indices, init, cursor);
      s.result.Err? && s.result.error.OutOfRangeVariable? <==> !DegreesMatch(s.graph, degree)
  {
    var s := AddFactorSpec(g, factor, degree(factor), indices, init, cursor);
    AddFactorRejects(g, factor, degree(factor), indices, init, cursor);
    if degree(factor) == |indices| {
      AddFactorWires(g, factor, degree(factor), indices, init, cursor);
      var f := |g.factors|;
      assert forall a :: 0 <= a < f ==> s.graph.factors[a] == s.graph.factors[..f][a];
    }
  }

  // ---------------------------------------------------------------------------
  // The builder object

  /** `FactorGraphBuilder`: the factor nodes and the variable nodes added so
      far. `newVariable` is the value `V::new()` gives every new variable
      node. */
  class FactorGraphBuilder<F(!new), V(!new), M(!new)> {
    var factors: seq<FactorNode<F, M>>
    var variables: seq<VariableNode<V, M>>
    const newVariable: V

    ghost function View(): Graph<F, V, M>
      reads this, factors, variables
    {
      Graph(FactorsData(factors), VariablesData(variables))
    }

    /** The nodes are distinct objects and the graph is consistent. */
    ghost predicate Valid()
      reads this, factors, variables
    {
      Distinct(factors) && Distinct(variables) && Consistent(View())
    }

    /** `new`: no factor and no variable. */
    constructor New(newVariable: V)
      ensures Valid() && View() == Graph([], []) && this.newVariable == newVariable
    {
      this.newVariable := newVariable;
      factors, variables := [], [];
      new;
      WithVariablesConsistent<F, V, M>(newVariable, 0);
      assert View() == WithVariables(newVariable, 0);
    }

    /** `new_with_variables(variables_number, factors_capacity)`:
        `variables_number` disconnected variables and no factor; the capacity
        only reserves memory. */
    constructor NewWithVariables(newVariable: V, variablesNumber: nat, factorsCapacity: nat)
      ensures Valid() && View() == WithVariables(newVariable, variablesNumber) && this.newVariable == newVariable
      ensures forall j :: 0 <= j < |variables| ==> fresh(variables[j])
    {
      var vs: seq<VariableNode<V, M>> := [];
      while |vs| < variablesNumber
        invariant |vs| <= variablesNumber && Distinct(vs)
        invariant forall j :: 0 <= j < |vs| ==> fresh(vs[j])
        invariant forall j :: 0 <= j < |vs| ==> vs[j].Data() == Disconnected(newVariable)
      {
        var v := new VariableNode.NewDisconnected(newVariable);
        DistinctPush(vs, v);
        vs := vs + [v];
      }
      assert VariablesData(vs) == WithVariables<F, V, M>(newVariable, variablesNumber).variables;
      this.newVariable := newVariable;
      factors, variables := [], vs;
      new;
      WithVariablesConsistent<F, V, M>(newVariable, variablesNumber);
    }

    /** `add_variable`: one more disconnected variable; nothing else changes. */
    method AddVariable()
      requires Valid()
      modifies this
      ensures Valid() && View() == AddVariableSpec(old(View()), newVariable)
      ensures factors == old(factors)
      ensures |variables| == |old(variables)| + 1 && variables[..|old(variables)|] == old(variables)
      ensures fresh(variables[|old(variables)|])
    {
      ghost var g := View();
      AddVariableKeeps(g, newVariable);
      var v := new VariableNode.NewDisconnected(newVariable);
      DistinctPush(variables, v);
      variables := variables + [v];
      assert VariablesData(variables) == g.variables + [Disconnected(newVariable)];
      assert View() == AddVariableSpec(g, newVariable);
    }

    /** The body of the loop of `add_factor` for the edge between factor f
        and variable v, after the two messages are drawn. */
    method WireEdge(f: nat, v: nat, factorMessage: M, variableMessage: M)
      requires Distinct(factors) && Distinct(variables) && f < |factors| && v < |variables|
      modifies factors[f], variables[v]
      ensures View() == WireSlot(old(View()), f, v, factorMessage, variableMessage)
    {
      ghost var g := View();
      var lastFactor, variable := factors[f], variables[v];
      lastFactor.senders := lastFactor.senders + [Null];
      lastFactor.receivers := lastFactor.receivers + [factorMessage];
      lastFactor.messages := lastFactor.messages + [variableMessage];
      lastFactor.varNodeIndices := lastFactor.varNodeIndices + [v];
      variable.senders := variable.senders + [Null];
      variable.messages := variable.messages + [factorMessage];
      variable.receivers := variable.receivers + [variableMessage];
      variable.facNodeIndices := variable.facNodeIndices + [f];
      var variableReceiversNumber := |variable.receivers|;
      var factorReceiversNumber := |lastFactor.receivers|;
      lastFactor.varNodeReceiverIndices := lastFactor.varNodeReceiverIndices + [variableReceiversNumber - 1];
      variable.facNodeReceiverIndices := variable.facNodeReceiverIndices + [factorReceiversNumber - 1];
      forall a | 0 <= a < |factors| && a != f ensures FactorsData(factors)[a] == g.factors[a] {
        DistinctAt(factors, a, f);
      }
      forall j | 0 <= j < |variables| && j != v ensures VariablesData(variables)[j] == g.variables[j] {
        DistinctAt(variables, j, v);
      }
    }

    /** `add_factor(factor, var_indices, message_initializer)`, where
        `degree` is `Factor::degree` and the initializer is the stream `init`
        read from `cursor` on; returns the result and the initializer's new
        position. */
    method AddFactor(factor: F, degree: F -> nat, varIndices: seq<nat>, init: nat -> M, cursor: nat)
      returns (result: FGBuilderResult, cursor': nat)
      requires Valid()
      modifies this, variables
      ensures Valid() && variables == old(variables)
      ensures |old(factors)| <= |factors| && factors[..|old(factors)|] == old(factors)
      ensures forall a :: |old(factors)| <= a < |factors| ==> fresh(factors[a])
      ensures Added(View(), cursor', result) == AddFactorSpec(old(View()), factor, degree(factor), varIndices, init, cursor)
    {
      ghost var g := View();
      var factorDeg := |varIndices|;
      if degree(factor) != factorDeg {
        return Err(DegreeError(degree(factor), varIndices)), cursor;
      }
      var factorNode := new FactorNode.NewDisconnected(factor);
      AddNodeKeeps(g, factor);
      DistinctPush(factors, factorNode);
      factors := factors + [factorNode];
      var f := |factors| - 1;
      ghost var start := g.(factors := g.factors + [Disconnected(factor)]);
      assert FactorsData(factors) == start.factors;
      assert View() == start;
      assert factors[..f] == old(factors);
      result, cursor' := WireFactor(f, varIndices, init, cursor);
    }

    /** The loop of `add_factor`: factor f is wired to each listed variable
        in turn, two messages being drawn per edge, up to the first index
        out of range, which ends the loop with an error. */
    method WireFactor(f: nat, varIndices: seq<nat>, init: nat -> M, cursor: nat)
      returns (result: FGBuilderResult, cursor': nat)
      requires Distinct(factors) && Distinct(variables) && Consistent(View()) && f < |factors|
      modifies factors[f], variables
      ensures Consistent(View())
      ensures Added(View(), cursor', result) == Wire(old(View()), f, varIndices, init, cursor)
    {
      ghost var target := Wire(View(), f, varIndices, init, cursor);
      assert varIndices[0..] == varIndices;
      cursor' := cursor;
      for k := 0 to |varIndices|
        invariant Consistent(View())
        invariant Wire(View(), f, varIndices[k..], init, cursor') == target
      {
        var index := varIndices[k];
        if |variables| <= index {
          return Err(OutOfRangeVariable(|variables|, index)), cursor';
        }
        var factorMessage := init(cursor');
        var variableMessage := init(cursor' + 1);
        ghost var before := View();
        WireSlotKeeps(before, f, index, factorMessage, variableMessage);
        WireStep(before, f, varIndices[k..], init, cursor');
        WireEdge(f, index, factorMessage, variableMessage);
        assert varIndices[k..][1..] == varIndices[k + 1..];
        cursor' := cursor' + 2;
      }
      return Ok, cursor';
    }

    /** `init_senders` of factor a. */
    method InitFactorSenders(a: nat)
      requires Distinct(factors) && a < |factors|
      modifies factors[a]
      ensures FactorsData(factors) == old(FactorsData(factors))[a := WithSenders(old(factors[a].Data()))]
      ensures VariablesData(variables) == old(VariablesData(variables))
    {
      ghost var before := FactorsData(factors);
      factors[a].InitSenders();
      forall i | 0 <= i < |factors| && i != a ensures FactorsData(factors)[i] == before[i] {
        DistinctAt(factors, i, a);
      }
    }

    /** `init_senders` of variable j. */
    method InitVariableSenders(j: nat)
      requires Distinct(variables) && j < |variables|
      modifies variables[j]
      ensures VariablesData(variables) == old(VariablesData(variables))[j := WithSenders(old(variables[j].Data()))]
      ensures FactorsData(factors) == old(FactorsData(factors))
    {
      ghost var before := VariablesData(variables);
      variables[j].InitSenders();
      forall i | 0 <= i < |variables| && i != j ensures VariablesData(variables)[i] == before[i] {
        DistinctAt(variables, i, j);
      }
    }

    /** `build`: every factor and then every variable points its senders at
        its peer receivers, and the nodes become the factor graph, ready for
        message passing with every message in its peer receiver. */
    method Build() returns (fg: MessagePassing.FactorGraph<F, V, M>)
      requires Valid()
      modifies factors, variables
      ensures fresh(fg) && fg.factors == factors && fg.variables == variables && fg.Valid()
      ensures fg.View() == Built(old(View()))
      ensures MessagePassing.Ready(fg.View()) && MessagePassing.Paired(fg.View())
    {
      ghost var g := View();
      for a := 0 to |factors|
        invariant FactorsData(factors) == WiredUpTo(g.factors, a)
        invariant VariablesData(variables) == g.variables
      {
        assert factors[a].Data() == FactorsData(factors)[a] == g.factors[a];
        InitFactorSenders(a);
        WiredUpToStep(g.factors, a);
      }
      for j := 0 to |variables|
        invariant FactorsData(factors) == WiredUpTo(g.factors, |g.factors|)
        invariant VariablesData(variables) == WiredUpTo(g.variables, j)
      {
        assert variables[j].Data() == VariablesData(variables)[j] == g.variables[j];
        InitVariableSenders(j);
        WiredUpToStep(g.variables, j);
      }
      fg := new MessagePassing.FactorGraph(factors, variables);
      BuiltReady(g);
    }
  }
}
