/** The small builder scenario of the library's own builder test: four
    variables, then factors of degree 3, 2 and 2 on the variables [0, 1, 3],
    [1, 2] and [3, 1]. A factor is its degree, as in that test; `init(n)` is
    the n-th message drawn. */
module BuilderScenario {
  import opened Slots
  import opened Topology
  import opened GraphBuilder

  /** The builder with one more disconnected factor of degree k. */
  function Pushed<V, M>(g: Graph<nat, V, M>, k: nat): Graph<nat, V, M>
  {
    g.(factors := g.factors + [Disconnected(k)])
  }

  // The builder after each edge, in the order `add_factor` wires them.

  function Edge1<V, M>(variable: V, init: nat -> M): Graph<nat, V, M>
  {
    Graph(
      [Node(3, [0], [0], [init(1)], [Null], [init(0)])],
      [Node(variable, [0], [0], [init(0)], [Null], [init(1)]),
       Disconnected(variable), Disconnected(variable), Disconnected(variable)])
  }

  function Edge2<V, M>(variable: V, init: nat -> M): Graph<nat, V, M>
  {
    var g := Edge1(variable, init);
    Graph(
      [Node(3, [0, 1], [0, 0], [init(1), init(3)], [Null, Null], [init(0), init(2)])],
      g.variables[1 := Node(variable, [0], [1], [init(2)], [Null], [init(3)])])
  }

  /** The builder after the first factor, on [0, 1, 3]. */
  function AfterFirst<V, M>(variable: V, init: nat -> M): Graph<nat, V, M>
  {
    var g := Edge2(variable, init);
    Graph(
      [Node(3, [0, 1, 3], [0, 0, 0], [init(1), init(3), init(5)], [Null, Null, Null], [init(0), init(2), init(4)])],
      g.variables[3 := Node(variable, [0], [2], [init(4)], [Null], [init(5)])])
  }

  function Edge4<V, M>(variable: V, init: nat -> M): Graph<nat, V, M>
  {
    var g := AfterFirst(variable, init);
    Graph(
      g.factors + [Node(2, [1], [1], [init(7)], [Null], [init(6)])],
      g.variables[1 := Node(variable, [0, 1], [1, 0], [init(2), init(6)], [Null, Null], [init(3), init(7)])])
  }

  /** The builder after the second factor, on [1, 2]. */
  function AfterSecond<V, M>(variable: V, init: nat -> M): Graph<nat, V, M>
  {
    var g := Edge4(variable, init);
    Graph(
      g.factors[1 := Node(2, [1, 2], [1, 0], [init(7), init(9)], [Null, Null], [init(6), init(8)])],
      g.variables[2 := Node(variable, [1], [1], [init(8)], [Null], [init(9)])])
  }

  function Edge6<V, M>(variable: V, init: nat -> M): Graph<nat, V, M>
  {
    var g := AfterSecond(variable, init);
    Graph(
      g.factors + [Node(2, [3], [1], [init(11)], [Null], [init(10)])],
      g.variables[3 := Node(variable, [0, 2], [2, 0], [init(4), init(10)], [Null, Null], [init(5), init(11)])])
  }

  /** The builder after the third factor, on [3, 1]: every index list,
      receiver index list and message the test asserts, written out. */
  function AfterThird<V, M>(variable: V, init: nat -> M): Graph<nat, V, M>
  {
    Graph(
      [Node(3, [0, 1, 3], [0, 0, 0], [init(1), init(3), init(5)], [Null, Null, Null], [init(0), init(2), init(4)]),
       Node(2, [1, 2], [1, 0], [init(7), init(9)], [Null, Null], [init(6), init(8)]),
       Node(2, [3, 1], [1, 2], [init(11), init(13)], [Null, Null], [init(10), init(12)])],
      [Node(variable, [0], [0], [init(0)], [Null], [init(1)]),
       Node(variable, [0, 1, 2], [1, 0, 1], [init(2), init(6), init(12)], [Null, Null, Null], [init(3), init(7), init(13)]),
       Node(variable, [1], [1], [init(8)], [Null], [init(9)]),
       Node(variable, [0, 2], [2, 0], [init(4), init(10)], [Null, Null], [init(5), init(11)])])
  }

  // One lemma per edge: `WireSlot` takes each state to the next.

  lemma WireEdge1<V, M>(variable: V, init: nat -> M)
    ensures WireSlot(Pushed(WithVariables<nat, V, M>(variable, 4), 3), 0, 0, init(0), init(1)) == Edge1(variable, init)
  {
    var h, e := WireSlot(Pushed(WithVariables<nat, V, M>(variable, 4), 3), 0, 0, init(0), init(1)), Edge1(variable, init);
    assert h.factors[0] == e.factors[0];
    assert h.variables[0] == e.variables[0];
    assert forall j :: 1 <= j < 4 ==> h.variables[j] == e.variables[j];
  }

  lemma WireEdge2<V, M>(variable: V, init: nat -> M)
    ensures WireSlot(Edge1(variable, init), 0, 1, init(2), init(3)) == Edge2(variable, init)
  {
    var h, e := WireSlot(Edge1(variable, init), 0, 1, init(2), init(3)), Edge2(variable, init);
    assert h.factors[0] == e.factors[0];
    assert h.variables[1] == e.variables[1];
    assert forall j :: 0 <= j < 4 && j != 1 ==> h.variables[j] == e.variables[j];
  }

  lemma WireEdge3<V, M>(variable: V, init: nat -> M)
    ensures WireSlot(Edge2(variable, init), 0, 3, init(4), init(5)) == AfterFirst(variable, init)
  {
    var h, e := WireSlot(Edge2(variable, init), 0, 3, init(4), init(5)), AfterFirst(variable, init);
    assert h.factors[0] == e.factors[0];
    assert h.variables[3] == e.variables[3];
    assert forall j :: 0 <= j < 3 ==> h.variables[j] == e.variables[j];
  }

  lemma WireEdge4<V, M>(variable: V, init: nat -> M)
    ensures WireSlot(Pushed(AfterFirst(variable, init), 2), 1, 1, init(6), init(7)) == Edge4(variable, init)
  {
    var h, e := WireSlot(Pushed(AfterFirst(variable, init), 2), 1, 1, init(6), init(7)), Edge4(variable, init);
    assert h.factors[0] == e.factors[0];
    assert h.factors[1] == e.factors[1];
    assert h.variables[1] == e.variables[1];
    assert forall j :: 0 <= j < 4 && j != 1 ==> h.variables[j] == e.variables[j];
  }

  lemma WireEdge5<V, M>(variable: V, init: nat -> M)
    ensures WireSlot(Edge4(variable, init), 1, 2, init(8), init(9)) == AfterSecond(variable, init)
  {
    var h, e := WireSlot(Edge4(variable, init), 1, 2, init(8), init(9)), AfterSecond(variable, init);
    assert h.factors[0] == e.factors[0];
    assert h.factors[1] == e.factors[1];
    assert h.variables[2] == e.variables[2];
    assert forall j :: 0 <= j < 4 && j != 2 ==> h.variables[j] == e.variables[j];
  }

  lemma WireEdge6<V, M>(variable: V, init: nat -> M)
    ensures WireSlot(Pushed(AfterSecond(variable, init), 2), 2, 3, init(10), init(11)) == Edge6(variable, init)
  {
    var h, e := WireSlot(Pushed(AfterSecond(variable, init), 2), 2, 3, init(10), init(11)), Edge6(variable, init);
    assert forall a :: 0 <= a < 2 ==> h.factors[a] == e.factors[a];
    assert h.factors[2] == e.factors[2];
    assert h.variables[3] == e.variables[3];
    assert forall j :: 0 <= j < 3 ==> h.variables[j] == e.variables[j];
  }

  lemma WireEdge7<V, M>(variable: V, init: nat -> M)
    ensures WireSlot(Edge6(variable, init), 2, 1, init(12), init(13)) == AfterThird(variable, init)
  {
    var h, e := WireSlot(Edge6(variable, init), 2, 1, init(12), init(13)), AfterThird(variable, init);
    assert forall a :: 0 <= a < 2 ==> h.factors[a] == e.factors[a];
    assert h.factors[2] == e.factors[2];
    assert h.variables[1] == e.variables[1];
    assert forall j :: 0 <= j < 4 && j != 1 ==> h.variables[j] == e.variables[j];
  }

  // One lemma per `add_factor` call.

  /** `add_factor(FakeFactor(3), &[0, 1, 3], ..)` on four fresh variables. */
  lemma FirstFactor<V, M>(variable: V, init: nat -> M)
    ensures AddFactorSpec(WithVariables<nat, V, M>(variable, 4), 3, 3, [0, 1, 3], init, 0)
         == Added(AfterFirst(variable, init), 6, Ok)
  {
    WireEdge1(variable, init);
    WireEdge2(variable, init);
    WireEdge3(variable, init);
    assert [0, 1, 3][1..] == [1, 3] && [1, 3][1..] == [3] && [3][1..] == [];
    assert Wire(Edge2(variable, init), 0, [3], init, 4) == Added(AfterFirst(variable, init), 6, Ok);
    assert Wire(Edge1(variable, init), 0, [1, 3], init, 2) == Wire(Edge2(variable, init), 0, [3], init, 4);
    assert Wire(Pushed(WithVariables<nat, V, M>(variable, 4), 3), 0, [0, 1, 3], init, 0)
        == Wire(Edge1(variable, init), 0, [1, 3], init, 2);
  }

  /** `add_factor(FakeFactor(2), &[1, 2], ..)` next. */
  lemma SecondFactor<V, M>(variable: V, init: nat -> M)
    ensures AddFactorSpec(AfterFirst(variable, init), 2, 2, [1, 2], init, 6)
         == Added(AfterSecond(variable, init), 10, Ok)
  {
    WireEdge4(variable, init);
    WireEdge5(variable, init);
    assert [1, 2][1..] == [2] && [2][1..] == [];
    assert Wire(Edge4(variable, init), 1, [2], init, 8) == Added(AfterSecond(variable, init), 10, Ok);
    assert Wire(Pushed(AfterFirst(variable, init), 2), 1, [1, 2], init, 6) == Wire(Edge4(variable, init), 1, [2], init, 8);
  }

  /** `add_factor(FakeFactor(2), &[3, 1], ..)` last. */
  lemma ThirdFactor<V, M>(variable: V, init: nat -> M)
    ensures AddFactorSpec(AfterSecond(variable, init), 2, 2, [3, 1], init, 10)
         == Added(AfterThird(variable, init), 14, Ok)
  {
    WireEdge6(variable, init);
    WireEdge7(variable, init);
    assert [3, 1][1..] == [1] && [1][1..] == [];
    assert Wire(Edge6(variable, init), 2, [1], init, 12) == Added(AfterThird(variable, init), 14, Ok);
    assert Wire(Pushed(AfterSecond(variable, init), 2), 2, [3, 1], init, 10) == Wire(Edge6(variable, init), 2, [1], init, 12);
  }

  /** The three calls one after the other all succeed, draw fourteen
      messages, and leave the graph `AfterThird`. */
  lemma SmallFactorGraph<V, M>(variable: V, init: nat -> M)
    ensures var s1 := AddFactorSpec(WithVariables<nat, V, M>(variable, 4), 3, 3, [0, 1, 3], init, 0);
      var s2 := AddFactorSpec(s1.graph, 2, 2, [1, 2], init, s1.cursor);
      var s3 := AddFactorSpec(s2.graph, 2, 2, [3, 1], init, s2.cursor);
      s1.result == Ok && s2.result == Ok && s3.result == Ok && s3.cursor == 14 &&
      s3.graph == AfterThird(variable, init)
  {
    FirstFactor(variable, init);
    SecondFactor(variable, init);
    ThirdFactor(variable, init);
  }

  /** After `build` every sender of that graph points at the receiver the
      test compares it with. */
  lemma SmallFactorGraphSenders<V, M>(variable: V, init: nat -> M)
    ensures var h := Built(AfterThird(variable, init));
      h.factors[0].senders == [Ptr(0, 0), Ptr(1, 0), Ptr(3, 0)] &&
      h.factors[1].senders == [Ptr(1, 1), Ptr(2, 0)] &&
      h.factors[2].senders == [Ptr(3, 1), Ptr(1, 2)] &&
      h.variables[0].senders == [Ptr(0, 0)] &&
      h.variables[1].senders == [Ptr(0, 1), Ptr(1, 0), Ptr(2, 1)] &&
      h.variables[2].senders == [Ptr(1, 1)] &&
      h.variables[3].senders == [Ptr(0, 2), Ptr(2, 0)]
  {
    var g := AfterThird(variable, init);
    assert WithSenders(g.factors[0]).senders == [Ptr(0, 0), Ptr(1, 0), Ptr(3, 0)];
    assert WithSenders(g.factors[1]).senders == [Ptr(1, 1), Ptr(2, 0)];
    assert WithSenders(g.factors[2]).senders == [Ptr(3, 1), Ptr(1, 2)];
    assert WithSenders(g.variables[0]).senders == [Ptr(0, 0)];
    assert WithSenders(g.variables[1]).senders == [Ptr(0, 1), Ptr(1, 0), Ptr(2, 1)];
    assert WithSenders(g.variables[2]).senders == [Ptr(1, 1)];
    assert WithSenders(g.variables[3]).senders == [Ptr(0, 2), Ptr(2, 0)];
  }
}
