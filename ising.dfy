/** The Ising instance of the generic core: messages are single reals, every
    factor couples two spins and carries the magnetic field on each, and the
    message updates of a concrete algorithm (sum-product, max-product) are
    supplied as function values. */
module Ising {
  import opened Topology
  import MessagePassing
  import GraphBuilder

  /** `IsingMessage`: one real number. */
  datatype IsingMessage = IsingMessage(value: real)

  /** `IsingMessage::discrepancy`: the distance between the two values. */
  function Discrepancy(a: IsingMessage, b: IsingMessage): (d: real)
    ensures 0.0 <= d
    ensures d == a.value - b.value || d == b.value - a.value
    ensures d == 0.0 <==> a == b
  {
    if a.value < b.value then b.value - a.value else a.value - b.value
  }

  /** The distance is symmetric. */
  lemma DiscrepancySymmetric(a: IsingMessage, b: IsingMessage)
    ensures Discrepancy(a, b) == Discrepancy(b, a)
  {
  }

  /** `IsingFactor`: exp(coupling * s1 * s2 + firstSpinB * s1 + secondSpinB * s2). */
  datatype IsingFactor = IsingFactor(coupling: real, firstSpinB: real, secondSpinB: real)

  /** `get_coupling`. */
  function GetCoupling(factor: IsingFactor): real
  {
    factor.coupling
  }

  /** `get_first_spin_field`. */
  function GetFirstSpinField(factor: IsingFactor): real
  {
    factor.firstSpinB
  }

  /** `get_second_spin_field`. */
  function GetSecondSpinField(factor: IsingFactor): real
  {
    factor.secondSpinB
  }

  /** `IsingFactor::new`: the getters give back the three arguments. */
  function NewFactor(coupling: real, firstSpinB: real, secondSpinB: real): (factor: IsingFactor)
    ensures GetCoupling(factor) == coupling
    ensures GetFirstSpinField(factor) == firstSpinB && GetSecondSpinField(factor) == secondSpinB
  {
    IsingFactor(coupling, firstSpinB, secondSpinB)
  }

  /** `Factor::degree` of an Ising factor: it always joins two variables. */
  function Degree(factor: IsingFactor): nat
  {
    2
  }

  /** `IsingMessagePassingType::factor_message_update(message, prev_message,
      coupling, input_spin_magnetic_field, output_spin_magnetic_field,
      parameters)`. */
  type FactorUpdate<!P> = (IsingMessage, IsingMessage, real, real, real, P) -> IsingMessage

  /** `IsingMessagePassingType::variable_message_update(src, dst)`, returning
      the new contents of `dst`. */
  type VariableUpdate = (seq<IsingMessage>, seq<IsingMessage>) -> seq<IsingMessage>

  /** `Factor::send_messages` of an Ising factor: the message to the second
      variable comes from the first variable's message, with the first
      variable's field as input field; the message to the first variable
      comes from the second one, with the fields swapped; each update sees
      the slot's previous message. Slices shorter than two are left as they
      are. */
  function FactorSend<P>(update: FactorUpdate<P>, factor: IsingFactor, src: seq<IsingMessage>, dst: seq<IsingMessage>, parameters: P): (out: seq<IsingMessage>)
    ensures |out| == |dst|
    ensures |src| < 2 || |dst| < 2 ==> out == dst
    ensures 2 <= |src| && 2 <= |dst| ==>
      out[1] == update(src[0], dst[1], factor.coupling, factor.firstSpinB, factor.secondSpinB, parameters) &&
      out[0] == update(src[1], dst[0], factor.coupling, factor.secondSpinB, factor.firstSpinB, parameters)
    ensures forall k :: 2 <= k < |dst| ==> out[k] == dst[k]
  {
    if |src| < 2 || |dst| < 2 then dst
    else
      var second := update(src[0], dst[1], factor.coupling, factor.firstSpinB, factor.secondSpinB, parameters);
      var first := update(src[1], dst[0], factor.coupling, factor.secondSpinB, factor.firstSpinB, parameters);
      dst[1 := second][0 := first]
  }

  /** The first two entries of s exchanged. */
  function SwapFirstTwo<T>(s: seq<T>): (t: seq<T>)
    requires 2 <= |s|
    ensures |t| == |s| && t[0] == s[1] && t[1] == s[0]
    ensures forall k :: 2 <= k < |s| ==> t[k] == s[k]
  {
    s[0 := s[1]][1 := s[0]]
  }

  /** The factor with the two spins exchanged. */
  function Mirrored(factor: IsingFactor): IsingFactor
  {
    factor.(firstSpinB := factor.secondSpinB, secondSpinB := factor.firstSpinB)
  }

  /** The routing does not favour either spin: exchanging the two fields and
      the two slots on both sides exchanges the two messages sent. */
  lemma FactorSendMirror<P>(update: FactorUpdate<P>, factor: IsingFactor, src: seq<IsingMessage>, dst: seq<IsingMessage>, parameters: P)
    requires 2 <= |src| && 2 <= |dst|
    ensures FactorSend(update, Mirrored(factor), SwapFirstTwo(src), SwapFirstTwo(dst), parameters)
         == SwapFirstTwo(FactorSend(update, factor, src, dst, parameters))
  {
    var l := FactorSend(update, Mirrored(factor), SwapFirstTwo(src), SwapFirstTwo(dst), parameters);
    var r := SwapFirstTwo(FactorSend(update, factor, src, dst, parameters));
    assert forall k :: 0 <= k < |l| ==> l[k] == r[k];
  }

  /** `IsingFactor::send_messages` on the slice `dst`: slot 1 is written
      first, then slot 0, each from the slot's previous message. */
  method SendMessages<P>(update: FactorUpdate<P>, factor: IsingFactor, src: seq<IsingMessage>, dst: array<IsingMessage>, parameters: P)
    requires 2 <= |src| && 2 <= dst.Length
    modifies dst
    ensures dst[..] == FactorSend(update, factor, src, old(dst[..]), parameters)
  {
    var prevMessage := dst[1];
    dst[1] := update(src[0], prevMessage, factor.coupling, factor.firstSpinB, factor.secondSpinB, parameters);
    prevMessage := dst[0];
    dst[0] := update(src[1], prevMessage, factor.coupling, factor.secondSpinB, factor.firstSpinB, parameters);
  }

  /** `IsingVariable`: no data of its own. */
  datatype IsingVariable = IsingVariable

  /** `IsingVariable::send_messages`: the algorithm's variable update. */
  function VariableSend(update: VariableUpdate, variable: IsingVariable, src: seq<IsingMessage>, dst: seq<IsingMessage>): seq<IsingMessage>
  {
    update(src, dst)
  }

  /** The trait methods of the Ising instance, for an algorithm given by its
      two message updates. */
  function Behaviour<P(!new)>(factorUpdate: FactorUpdate<P>, variableUpdate: VariableUpdate): MessagePassing.Behaviour<IsingFactor, IsingVariable, IsingMessage, P>
  {
    MessagePassing.Behaviour(
      (f, src, dst, p) => FactorSend(factorUpdate, f, src, dst, p),
      (v, src, dst) => VariableSend(variableUpdate, v, src, dst),
      Discrepancy)
  }

  /** The Ising instance meets the message-passing loop's requirement as soon
      as the variable update keeps the slice length. */
  lemma BehaviourSound<P(!new)>(factorUpdate: FactorUpdate<P>, variableUpdate: VariableUpdate, parameters: P)
    requires forall src, dst :: |variableUpdate(src, dst)| == |dst|
    ensures MessagePassing.Sound(Behaviour(factorUpdate, variableUpdate), parameters)
  {
    var b := Behaviour(factorUpdate, variableUpdate);
    forall f, src, dst ensures |Bound(b.factorSend, parameters)(f, src, dst)| == |dst| {
      assert Bound(b.factorSend, parameters)(f, src, dst) == FactorSend(factorUpdate, f, src, dst, parameters);
    }
    forall v, src, dst ensures |b.variableSend(v, src, dst)| == |dst| {
      assert b.variableSend(v, src, dst) == variableUpdate(src, dst);
    }
  }

  /** `add_factor` of an Ising factor succeeds exactly when it is given two
      indices that both name variables; the new factor node then has two
      slots, to those two variables. */
  lemma AddFactor<V, M>(g: Graph<IsingFactor, V, M>, factor: IsingFactor, indices: seq<nat>, init: nat -> M, cursor: nat)
    ensures var s := GraphBuilder.AddFactorSpec(g, factor, Degree(factor), indices, init, cursor);
      (s.result == GraphBuilder.Ok <==> |indices| == 2 && indices[0] < |g.variables| && indices[1] < |g.variables|) &&
      (s.result == GraphBuilder.Ok ==>
        var x := s.graph.factors[|g.factors|];
        x.peers == indices && |x.receivers| == 2 && |x.messages| == 2)
  {
    GraphBuilder.AddFactorRejects(g, factor, Degree(factor), indices, init, cursor);
    if |indices| == 2 {
      GraphBuilder.AddFactorWires(g, factor, Degree(factor), indices, init, cursor);
      var m := GraphBuilder.FirstOutOfRange(indices, |g.variables|);
      assert m == 2 <==> indices[0] < |g.variables| && indices[1] < |g.variables|;
      assert m == 2 ==> indices[..m] == indices;
    }
  }

  /** `new_ising_builder`: the same builder as `new_with_variables`. */
  method NewIsingBuilder<M(!new)>(variablesNumber: nat, factorsCapacity: nat)
    returns (builder: GraphBuilder.FactorGraphBuilder<IsingFactor, IsingVariable, M>)
    ensures fresh(builder) && builder.Valid() && builder.newVariable == IsingVariable
    ensures forall j :: 0 <= j < |builder.variables| ==> fresh(builder.variables[j])
    ensures builder.View() == GraphBuilder.WithVariables(IsingVariable, variablesNumber)
  {
    builder := new GraphBuilder.FactorGraphBuilder.NewWithVariables(IsingVariable, variablesNumber, factorsCapacity);
  }

  /** The loop of the example of `build`'s documentation: n + 1 spins and a
      factor on each pair of neighbours [i, i + 1] in turn. Every
      `add_factor` succeeds and draws four messages. */
  method ChainBuilder<M(!new)>(n: nat, factor: IsingFactor, init: nat -> M)
    returns (builder: GraphBuilder.FactorGraphBuilder<IsingFactor, IsingVariable, M>, results: seq<GraphBuilder.FGBuilderResult>, cursor: nat)
    ensures fresh(builder) && builder.Valid()
    ensures forall a :: 0 <= a < |builder.factors| ==> fresh(builder.factors[a])
    ensures forall j :: 0 <= j < |builder.variables| ==> fresh(builder.variables[j])
    ensures |results| == n && (forall i :: 0 <= i < n ==> results[i] == GraphBuilder.Ok) && cursor == 4 * n
    ensures builder.View() == ChainPrefix(n, n, factor, init)
  {
    builder := NewIsingBuilder<M>(n + 1, n);
    results, cursor := [], 0;
    for i := 0 to n
      invariant fresh(builder) && builder.Valid()
      invariant forall a :: 0 <= a < |builder.factors| ==> fresh(builder.factors[a])
      invariant forall j :: 0 <= j < |builder.variables| ==> fresh(builder.variables[j])
      invariant |results| == i && (forall k :: 0 <= k < i ==> results[k] == GraphBuilder.Ok) && cursor == 4 * i
      invariant builder.View() == ChainPrefix(n, i, factor, init)
    {
      ghost var g := builder.View();
      ghost var s := GraphBuilder.AddFactorSpec(g, factor, Degree(factor), [i, i + 1], init, cursor);
      assert [i + 1 - 1, i + 1] == [i, i + 1];
      assert ChainPrefix(n, i + 1, factor, init) == s.graph;
      ChainPrefixShaped(n, i, factor, init);
      ChainStep(g, n, i, factor, init, cursor);
      ghost var fs := builder.factors;
      var result, cursor' := builder.AddFactor(factor, Degree, [i, i + 1], init, cursor);
      assert GraphBuilder.Added(builder.View(), cursor', result) == s;
      assert forall a :: 0 <= a < |fs| ==> builder.factors[a] == builder.factors[..|fs|][a] == fs[a];
      results, cursor := results + [result], cursor';
    }
  }

  /** The example of `build`'s documentation: the chain of `ChainBuilder`,
      built, is ready for message passing with factor i on spins i and
      i + 1. */
  method NewChain<M(!new)>(n: nat, factor: IsingFactor, init: nat -> M)
    returns (fg: MessagePassing.FactorGraph<IsingFactor, IsingVariable, M>, results: seq<GraphBuilder.FGBuilderResult>, cursor: nat)
    ensures fresh(fg) && fg.Valid()
    ensures forall a :: 0 <= a < |fg.factors| ==> fresh(fg.factors[a])
    ensures forall j :: 0 <= j < |fg.variables| ==> fresh(fg.variables[j])
    ensures |results| == n && (forall i :: 0 <= i < n ==> results[i] == GraphBuilder.Ok) && cursor == 4 * n
    ensures fg.View() == BuiltChain(n, factor, init)
  {
    var builder;
    builder, results, cursor := ChainBuilder(n, factor, init);
    ghost var g := builder.View();
    fg := builder.Build();
  }

  /** n factors, factor i being `factor` on the spins i and i + 1. */
  ghost predicate ChainShaped<M>(g: Graph<IsingFactor, IsingVariable, M>, n: nat, factor: IsingFactor)
  {
    |g.factors| == n &&
    forall a :: 0 <= a < n ==> g.factors[a].payload == factor && g.factors[a].peers == [a, a + 1]
  }

  /** Adding the factor on [i, i + 1] to the first i links of a chain of
      n + 1 spins succeeds, draws four messages and gives the first i + 1
      links. */
  lemma ChainStep<M>(g: Graph<IsingFactor, IsingVariable, M>, n: nat, i: nat, factor: IsingFactor, init: nat -> M, cursor: nat)
    requires ChainShaped(g, i, factor) && |g.variables| == n + 1 && i < n
    ensures var s := GraphBuilder.AddFactorSpec(g, factor, Degree(factor), [i, i + 1], init, cursor);
      s.result == GraphBuilder.Ok && s.cursor == cursor + 4 &&
      ChainShaped(s.graph, i + 1, factor) && |s.graph.variables| == n + 1
  {
    AddFactor(g, factor, [i, i + 1], init, cursor);
    GraphBuilder.AddFactorWires(g, factor, Degree(factor), [i, i + 1], init, cursor);
    var s := GraphBuilder.AddFactorSpec(g, factor, Degree(factor), [i, i + 1], init, cursor);
    forall a | 0 <= a < i ensures s.graph.factors[a] == g.factors[a] {
      assert s.graph.factors[a] == s.graph.factors[..i][a];
    }
  }

  /** The builder of the `build` example after its first i links, for n + 1
      spins: `new_with_variables(n + 1, _)`, then `add_factor` on [a, a + 1]
      for every a < i, the initializer having drawn 4 * a messages when link
      a is added. */
  function ChainPrefix<M>(n: nat, i: nat, factor: IsingFactor, init: nat -> M): Graph<IsingFactor, IsingVariable, M>
    decreases i
  {
    if i == 0 then GraphBuilder.WithVariables(IsingVariable, n + 1)
    else GraphBuilder.AddFactorSpec(ChainPrefix(n, i - 1, factor, init), factor, Degree(factor), [i - 1, i], init, 4 * (i - 1)).graph
  }

  /** Every prefix of the chain is a consistent builder with the chain's
      shape over its n + 1 spins. */
  lemma {:induction false} ChainPrefixShaped<M>(n: nat, i: nat, factor: IsingFactor, init: nat -> M)
    requires i <= n
    ensures var g := ChainPrefix(n, i, factor, init);
      GraphBuilder.Consistent(g) && ChainShaped(g, i, factor) && |g.variables| == n + 1
  {
    if i == 0 {
      GraphBuilder.WithVariablesConsistent<IsingFactor, IsingVariable, M>(IsingVariable, n + 1);
    } else {
      var g := ChainPrefix(n, i - 1, factor, init);
      ChainPrefixShaped(n, i - 1, factor, init);
      ChainStep(g, n, i - 1, factor, init, 4 * (i - 1));
      GraphBuilder.AddFactorKeeps(g, factor, Degree(factor), [i - 1, i], init, 4 * (i - 1));
    }
  }

  /** The factor graph the `build` example ends with: ready and paired for
      message passing, with factor i on the spins i and i + 1. */
  ghost function BuiltChain<M>(n: nat, factor: IsingFactor, init: nat -> M): (g: Graph<IsingFactor, IsingVariable, M>)
    ensures MessagePassing.Ready(g) && MessagePassing.Paired(g)
    ensures ChainShaped(g, n, factor) && |g.variables| == n + 1
  {
    var h := ChainPrefix(n, n, factor, init);
    ChainPrefixShaped(n, n, factor, init);
    GraphBuilder.BuiltReady(h);
    GraphBuilder.Built(h)
  }

  /** The chain of `NewChain` run by `run_message_passing_parallel` with the
      algorithm's two updates. The result is that of `Run` on the built
      chain: it converges exactly when one of the first
      `maxIterationsNumber` sweeps gets below the threshold, reporting the
      first such sweep and its discrepancy; otherwise it reports the whole
      budget spent and the last discrepancy. */
  method RunChain<P(!new)>(n: nat, factor: IsingFactor, init: nat -> IsingMessage,
                           factorUpdate: FactorUpdate<P>, variableUpdate: VariableUpdate,
                           maxIterationsNumber: nat, threshold: real, parameters: P)
    returns (r: MessagePassing.MessagePassingResult)
    requires forall src, dst :: |variableUpdate(src, dst)| == |dst|
    ensures MessagePassing.Sound(Behaviour(factorUpdate, variableUpdate), parameters)
    ensures var g, b := BuiltChain(n, factor, init), Behaviour(factorUpdate, variableUpdate);
      r == MessagePassing.Run(g, b, parameters, maxIterationsNumber, threshold).result &&
      (r.Ok? <==> exists j :: 0 <= j < maxIterationsNumber && MessagePassing.SweepDiscrepancy(g, b, parameters, j) < threshold) &&
      (r.Ok? ==>
        var k := r.info.iterationsNumber;
        k < maxIterationsNumber && r.info.threshold == threshold &&
        r.info.finalDiscrepancy == MessagePassing.SweepDiscrepancy(g, b, parameters, k) &&
        forall j :: 0 <= j < k ==> threshold <= MessagePassing.SweepDiscrepancy(g, b, parameters, j)) &&
      (r.Err? ==>
        r.error.iterationsNumber == maxIterationsNumber && r.error.threshold == threshold &&
        r.error.finalDiscrepancy ==
          (if maxIterationsNumber == 0 then MessagePassing.F64Max
           else MessagePassing.SweepDiscrepancy(g, b, parameters, maxIterationsNumber - 1)))
  {
    var fg, _, _ := NewChain(n, factor, init);
    ghost var built := fg.View();
    var b := Behaviour(factorUpdate, variableUpdate);
    BehaviourSound(factorUpdate, variableUpdate, parameters);
    r := fg.RunMessagePassingParallel(maxIterationsNumber, threshold, parameters, b);
    MessagePassing.RunConverges(built, b, parameters, maxIterationsNumber, threshold);
    MessagePassing.RunFails(built, b, parameters, maxIterationsNumber, threshold);
  }
}
