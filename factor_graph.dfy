/** The built factor graph and its message-passing loop: every sweep runs all
    factor nodes and then all variable nodes (evaluate, measure, send), and the
    loop stops at the first sweep whose discrepancy is below the threshold or
    when the iteration budget is spent. */
module MessagePassing {
  import opened Slots
  import opened Topology
  import opened Nodes

  /** `MessagePassingInfo`: the loop converged. */
  datatype MessagePassingInfo = MessagePassingInfo(iterationsNumber: nat, finalDiscrepancy: real, threshold: real)

  /** `MessagePassingError`: the loop did not converge. */
  datatype MessagePassingError = MessagePassingError(iterationsNumber: nat, finalDiscrepancy: real, threshold: real)

  /** `MessagePassingResult`, i.e. `Result<MessagePassingInfo, MessagePassingError>`. */
  datatype MessagePassingResult = Ok(info: MessagePassingInfo) | Err(error: MessagePassingError)

  /** `f64::MAX`, exactly: (2^53 - 1) * 2^971. */
  const F64Max: real := 179769313486231570814527423731704356798070567525844996598917476803157260780028538760589558632766878171540458953514382464234321326889464182768467546703537516986049910576551282076245490090389328944075868508455133942304583236903222948165808559332123348274797826204144723168738177180919299881250404026184124858368.0

  /** The trait methods the loop calls: `Factor::send_messages`,
      `Variable::send_messages` and `Message::discrepancy`. */
  datatype Behaviour<!F, !V, !M, !P> = Behaviour(
    factorSend: (F, seq<M>, seq<M>, P) -> seq<M>,
    variableSend: (V, seq<M>, seq<M>) -> seq<M>,
    discrepancy: (M, M) -> real)

  /** Both send functions write into a slice of messages and so keep its length. */
  ghost predicate Sound<F(!new), V(!new), M(!new), P>(b: Behaviour<F, V, M, P>, parameters: P)
  {
    KeepsLength(Bound(b.factorSend, parameters)) && KeepsLength(b.variableSend)
  }

  /** What `build` leaves and every sweep keeps: square nodes, cross-links both
      ways and every sender pointing at its peer receiver. */
  ghost predicate Ready<F, V, M>(g: Graph<F, V, M>)
  {
    Linked(g) && Wired(g.factors) && Wired(g.variables)
  }

  /** Every message each side last computed sits in the receiver it is bound for. */
  ghost predicate Paired<F, V, M>(g: Graph<F, V, M>)
  {
    Delivers(g.factors, g.variables) && Delivers(g.variables, g.factors)
  }

  /** The two node lists hold the same payloads, links and senders, and as
      many messages and receivers per node: all that message passing never
      changes. */
  ghost predicate SameNodes<K, M>(xs: seq<Node<K, M>>, ys: seq<Node<K, M>>)
  {
    |xs| == |ys| &&
    forall a :: 0 <= a < |xs| ==>
      xs[a].payload == ys[a].payload && xs[a].peers == ys[a].peers &&
      xs[a].peerSlots == ys[a].peerSlots && xs[a].senders == ys[a].senders &&
      |xs[a].messages| == |ys[a].messages| && |xs[a].receivers| == |ys[a].receivers|
  }

  ghost predicate SameShape<F, V, M>(g: Graph<F, V, M>, h: Graph<F, V, M>)
  {
    SameNodes(g.factors, h.factors) && SameNodes(g.variables, h.variables)
  }

  datatype Swept<F, V, M> = Swept(graph: Graph<F, V, M>, discrepancy: real)

  /** The factor half of a sweep (the first `par_iter_mut` block): every
      factor evaluates, measures and sends. It keeps the structure, leaves the
      variables' own messages alone, and reports a discrepancy of at least 0. */
  function FactorsHalf<F(!new), V(!new), M(!new), P>(g: Graph<F, V, M>, b: Behaviour<F, V, M, P>, parameters: P): (s: Swept<F, V, M>)
    requires Ready(g) && Sound(b, parameters)
    ensures Ready(s.graph)
    ensures |s.graph.factors| == |g.factors| && |s.graph.variables| == |g.variables|
  {
    var update := Bound(b.factorSend, parameters);
    var xs, ys := g.factors, g.variables;
    PhaseClosed(xs, ys, update, b.discrepancy, |xs|);
    PhaseDone(xs, ys, update);
    var p := Phase(xs, ys, update, b.discrepancy, |xs|);
    Swept(Graph(p.xs, p.ys), p.discrepancy)
  }

  /** The variable half of a sweep (the second `par_iter_mut` block), likewise. */
  function VariablesHalf<F(!new), V(!new), M(!new), P>(g: Graph<F, V, M>, b: Behaviour<F, V, M, P>, parameters: P): (s: Swept<F, V, M>)
    requires Ready(g) && Sound(b, parameters)
    ensures Ready(s.graph)
    ensures |s.graph.factors| == |g.factors| && |s.graph.variables| == |g.variables|
  {
    var xs, ys := g.factors, g.variables;
    PhaseClosed(ys, xs, b.variableSend, b.discrepancy, |ys|);
    PhaseDone(ys, xs, b.variableSend);
    var p := Phase(ys, xs, b.variableSend, b.discrepancy, |ys|);
    Swept(Graph(p.ys, p.xs), p.discrepancy)
  }

  /** One iteration of the loop body: the factor half, then the variable half
      on what the factors sent, and the larger of the two discrepancies. */
  function Sweep<F(!new), V(!new), M(!new), P>(g: Graph<F, V, M>, b: Behaviour<F, V, M, P>, parameters: P): (s: Swept<F, V, M>)
    requires Ready(g) && Sound(b, parameters)
    ensures Ready(s.graph)
    ensures |s.graph.factors| == |g.factors| && |s.graph.variables| == |g.variables|
  {
    var f := FactorsHalf(g, b, parameters);
    var v := VariablesHalf(f.graph, b, parameters);
    Swept(v.graph, Max(f.discrepancy, v.discrepancy))
  }

  /** The graph after k sweeps. */
  function Sweeps<F(!new), V(!new), M(!new), P>(g: Graph<F, V, M>, b: Behaviour<F, V, M, P>, parameters: P, k: nat): (h: Graph<F, V, M>)
    requires Ready(g) && Sound(b, parameters)
    ensures Ready(h)
    decreases k
  {
    if k == 0 then g else Sweep(Sweeps(g, b, parameters, k - 1), b, parameters).graph
  }

  /** The discrepancy of sweep k (counting from 0). */
  function SweepDiscrepancy<F(!new), V(!new), M(!new), P>(g: Graph<F, V, M>, b: Behaviour<F, V, M, P>, parameters: P, k: nat): (d: real)
    requires Ready(g) && Sound(b, parameters)
    ensures 0.0 <= d
  {
    Sweep(Sweeps(g, b, parameters, k), b, parameters).discrepancy
  }

  function Discrepancies<F(!new), V(!new), M(!new), P>(g: Graph<F, V, M>, b: Behaviour<F, V, M, P>, parameters: P): nat -> real
    requires Ready(g) && Sound(b, parameters)
  {
    (k: nat) => SweepDiscrepancy(g, b, parameters, k)
  }

  // ---------------------------------------------------------------------------
  // The reporting rules of the loop

  /** How the loop ends: its result and the number of sweeps that ran. */
  datatype Stop = Stop(result: MessagePassingResult, sweeps: nat)

  /** The loop from iteration i on, when sweep k has discrepancy d(k) and
      `last_discrepancy` holds last. */
  function ReportFrom(d: nat -> real, maxIterations: nat, threshold: real, i: nat, last: real): Stop
    decreases maxIterations - i
  {
    if maxIterations <= i then Stop(Err(MessagePassingError(maxIterations, last, threshold)), maxIterations)
    else if d(i) < threshold then Stop(Ok(MessagePassingInfo(i, d(i), threshold)), i + 1)
    else ReportFrom(d, maxIterations, threshold, i + 1, d(i))
  }

  /** The loop from its start, `last_discrepancy` being `f64::MAX`. */
  function Report(d: nat -> real, maxIterations: nat, threshold: real): Stop
  {
    ReportFrom(d, maxIterations, threshold, 0, F64Max)
  }

  /** The loop entered at iteration i after i sweeps that all missed the
      threshold ends as the reporting rules say. */
  lemma {:induction false} ReportFromOutcome(d: nat -> real, maxIterations: nat, threshold: real, i: nat)
    requires i <= maxIterations
    requires forall j :: 0 <= j < i ==> threshold <= d(j)
    ensures var st := ReportFrom(d, maxIterations, threshold, i, if i == 0 then F64Max else d(i - 1));
      (st.result.Ok? <==> exists j :: 0 <= j < maxIterations && d(j) < threshold) &&
      (st.result.Ok? ==>
        var n := st.result.info.iterationsNumber;
        n < maxIterations && st.sweeps == n + 1 &&
        st.result.info.finalDiscrepancy == d(n) < threshold &&
        (forall j :: 0 <= j < n ==> threshold <= d(j)) &&
        st.result.info.threshold == threshold) &&
      (st.result.Err? ==>
        st.result.error.iterationsNumber == maxIterations && st.sweeps == maxIterations &&
        st.result.error.finalDiscrepancy == (if maxIterations == 0 then F64Max else d(maxIterations - 1)) &&
        (forall j :: 0 <= j < maxIterations ==> threshold <= d(j)) &&
        st.result.error.threshold == threshold)
    decreases maxIterations - i
  {
    if i < maxIterations && threshold <= d(i) {
      ReportFromOutcome(d, maxIterations, threshold, i + 1);
    }
  }

  /** The reporting rules: `Ok` exactly when some sweep within the budget gets
      below the threshold, reported at the first such sweep with its index and
      discrepancy; otherwise `Err` with the budget as the iteration count and
      the last sweep's discrepancy (`f64::MAX` when no sweep ran). Both carry
      the threshold unchanged. */
  lemma ReportOutcome(d: nat -> real, maxIterations: nat, threshold: real)
    ensures var st := Report(d, maxIterations, threshold);
      (st.result.Ok? <==> exists j :: 0 <= j < maxIterations && d(j) < threshold) &&
      (st.result.Ok? ==>
        var n := st.result.info.iterationsNumber;
        n < maxIterations && st.sweeps == n + 1 &&
        st.result.info.finalDiscrepancy == d(n) < threshold &&
        (forall j :: 0 <= j < n ==> threshold <= d(j)) &&
        st.result.info.threshold == threshold) &&
      (st.result.Err? ==>
        st.result.error.iterationsNumber == maxIterations && st.sweeps == maxIterations &&
        st.result.error.finalDiscrepancy == (if maxIterations == 0 then F64Max else d(maxIterations - 1)) &&
        (forall j :: 0 <= j < maxIterations ==> threshold <= d(j)) &&
        st.result.error.threshold == threshold)
  {
    ReportFromOutcome(d, maxIterations, threshold, 0);
  }

  datatype Outcome<F, V, M> = Outcome(result: MessagePassingResult, graph: Graph<F, V, M>)

  /** `run_message_passing_parallel` on a graph value: the result the
      reporting rules give for the graph's sweep discrepancies, and the graph
      after the sweeps that ran. */
  function Run<F(!new), V(!new), M(!new), P>(g: Graph<F, V, M>, b: Behaviour<F, V, M, P>, parameters: P,
                                           maxIterations: nat, threshold: real): Outcome<F, V, M>
    requires Ready(g) && Sound(b, parameters)
  {
    var st := Report(Discrepancies(g, b, parameters), maxIterations, threshold);
    Outcome(st.result, Sweeps(g, b, parameters, st.sweeps))
  }

  /** A run converges exactly when some sweep within the budget gets below the
      threshold, and then stops right after the first such sweep. */
  lemma RunConverges<F(!new), V(!new), M(!new), P>(g: Graph<F, V, M>, b: Behaviour<F, V, M, P>, parameters: P,
                                                 maxIterations: nat, threshold: real)
    requires Ready(g) && Sound(b, parameters)
    ensures var o := Run(g, b, parameters, maxIterations, threshold);
      (o.result.Ok? <==> exists j :: 0 <= j < maxIterations && SweepDiscrepancy(g, b, parameters, j) < threshold) &&
      (o.result.Ok? ==>
        var n := o.result.info.iterationsNumber;
        n < maxIterations &&
        o.result.info.finalDiscrepancy == SweepDiscrepancy(g, b, parameters, n) < threshold &&
        (forall j :: 0 <= j < n ==> threshold <= SweepDiscrepancy(g, b, parameters, j)) &&
        o.result.info.threshold == threshold &&
        o.graph == Sweeps(g, b, parameters, n + 1))
  {
    var d := Discrepancies(g, b, parameters);
    assert forall j: nat :: d(j) == SweepDiscrepancy(g, b, parameters, j);
    ReportOutcome(d, maxIterations, threshold);
  }

  /** A run that does not converge has spent its whole budget. */
  lemma RunFails<F(!new), V(!new), M(!new), P>(g: Graph<F, V, M>, b: Behaviour<F, V, M, P>, parameters: P,
                                             maxIterations: nat, threshold: real)
    requires Ready(g) && Sound(b, parameters)
    ensures var o := Run(g, b, parameters, maxIterations, threshold);
      o.result.Err? ==>
        o.result.error.iterationsNumber == maxIterations &&
        o.result.error.finalDiscrepancy == (if maxIterations == 0 then F64Max else SweepDiscrepancy(g, b, parameters, maxIterations - 1)) &&
        (forall j :: 0 <= j < maxIterations ==> threshold <= SweepDiscrepancy(g, b, parameters, j)) &&
        o.result.error.threshold == threshold &&
        o.graph == Sweeps(g, b, parameters, maxIterations)
  {
    var d := Discrepancies(g, b, parameters);
    assert forall j: nat :: d(j) == SweepDiscrepancy(g, b, parameters, j);
    ReportOutcome(d, maxIterations, threshold);
  }

  /** A threshold of at most 0 is never reached, since discrepancies are at
      least 0: the loop always spends its whole budget. */
  lemma NonPositiveThreshold<F(!new), V(!new), M(!new), P>(g: Graph<F, V, M>, b: Behaviour<F, V, M, P>, parameters: P,
                                                         maxIterations: nat, threshold: real)
    requires Ready(g) && Sound(b, parameters) && threshold <= 0.0
    ensures Run(g, b, parameters, maxIterations, threshold).result.Err?
  {
    RunConverges(g, b, parameters, maxIterations, threshold);
  }

  /** The factor half keeps the nodes and links, changes no variable's own
      messages, keeps every message in its peer receiver, and measures at
      least 0. */
  lemma FactorsHalfKeeps<F(!new), V(!new), M(!new), P>(g: Graph<F, V, M>, b: Behaviour<F, V, M, P>, parameters: P)
    requires Ready(g) && Sound(b, parameters)
    ensures var s := FactorsHalf(g, b, parameters);
      SameShape(g, s.graph) && 0.0 <= s.discrepancy &&
      (forall j :: 0 <= j < |g.variables| ==> s.graph.variables[j].messages == g.variables[j].messages) &&
      (Paired(g) ==> Paired(s.graph))
  {
    var update := Bound(b.factorSend, parameters);
    var xs, ys := g.factors, g.variables;
    PhaseClosed(xs, ys, update, b.discrepancy, |xs|);
    PhaseDone(xs, ys, update);
  }

  /** The variable half, likewise. */
  lemma VariablesHalfKeeps<F(!new), V(!new), M(!new), P>(g: Graph<F, V, M>, b: Behaviour<F, V, M, P>, parameters: P)
    requires Ready(g) && Sound(b, parameters)
    ensures var s := VariablesHalf(g, b, parameters);
      SameShape(g, s.graph) && 0.0 <= s.discrepancy &&
      (forall a :: 0 <= a < |g.factors| ==> s.graph.factors[a].messages == g.factors[a].messages) &&
      (Paired(g) ==> Paired(s.graph))
  {
    var xs, ys := g.factors, g.variables;
    PhaseClosed(ys, xs, b.variableSend, b.discrepancy, |ys|);
    PhaseDone(ys, xs, b.variableSend);
  }

  /** What message passing keeps from g to h: the nodes and links, and every
      message in its peer receiver if g had it there. */
  ghost predicate Kept<F, V, M>(g: Graph<F, V, M>, h: Graph<F, V, M>)
  {
    SameShape(g, h) && (Paired(g) ==> Paired(h))
  }

  /** k sweeps keep the nodes and links and keep every message in its peer
      receiver. */
  lemma {:induction false} SweepsKeep<F(!new), V(!new), M(!new), P>(g: Graph<F, V, M>, b: Behaviour<F, V, M, P>, parameters: P, k: nat)
    requires Ready(g) && Sound(b, parameters)
    ensures Kept(g, Sweeps(g, b, parameters, k))
    decreases k
  {
    if k == 0 {
      assert Sweeps(g, b, parameters, 0) == g;
    } else {
      SweepsKeep(g, b, parameters, k - 1);
      SweepsStep(g, b, parameters, k);
    }
  }

  /** Sweep k keeps what the first k - 1 sweeps kept. */
  lemma SweepsStep<F(!new), V(!new), M(!new), P>(g: Graph<F, V, M>, b: Behaviour<F, V, M, P>, parameters: P, k: nat)
    requires Ready(g) && Sound(b, parameters) && k > 0
    requires Kept(g, Sweeps(g, b, parameters, k - 1))
    ensures Kept(g, Sweeps(g, b, parameters, k))
  {
    var h := Sweeps(g, b, parameters, k - 1);
    SweepKeeps(h, b, parameters);
    var h' := Sweep(h, b, parameters).graph;
    assert Sweeps(g, b, parameters, k) == h';
  }

  /** One sweep keeps the nodes and links and keeps every message in its peer
      receiver. */
  lemma SweepKeeps<F(!new), V(!new), M(!new), P>(g: Graph<F, V, M>, b: Behaviour<F, V, M, P>, parameters: P)
    requires Ready(g) && Sound(b, parameters)
    ensures Kept(g, Sweep(g, b, parameters).graph)
  {
    var f := FactorsHalf(g, b, parameters);
    FactorsHalfKeeps(g, b, parameters);
    VariablesHalfKeeps(f.graph, b, parameters);
  }

  /** A run ends on a graph with the same nodes and links, on which every
      message sits in its peer receiver if that was so before. */
  lemma RunKeeps<F(!new), V(!new), M(!new), P>(g: Graph<F, V, M>, b: Behaviour<F, V, M, P>, parameters: P,
                                             maxIterations: nat, threshold: real)
    requires Ready(g) && Sound(b, parameters)
    ensures var o := Run(g, b, parameters, maxIterations, threshold);
      Ready(o.graph) && Kept(g, o.graph)
  {
    var st := Report(Discrepancies(g, b, parameters), maxIterations, threshold);
    SweepsKeep(g, b, parameters, st.sweeps);
  }

  // ---------------------------------------------------------------------------
  // What a sweep measures

  /** The largest change of any factor's messages between two graphs. */
  function FactorsChange<F, V, M>(g: Graph<F, V, M>, h: Graph<F, V, M>, disc: (M, M) -> real): real
    requires |h.factors| == |g.factors|
  {
    Changes(g.factors, h.factors, disc)
  }

  /** The largest change of any variable's messages between two graphs. */
  function VariablesChange<F, V, M>(g: Graph<F, V, M>, h: Graph<F, V, M>, disc: (M, M) -> real): real
    requires |h.variables| == |g.variables|
  {
    Changes(g.variables, h.variables, disc)
  }

  /** On a graph whose messages all sit in their peer receivers, the factor
      half measures how far each factor's new messages are from its previous
      ones. */
  lemma FactorsHalfAgainstPrevious<F(!new), V(!new), M(!new), P>(g: Graph<F, V, M>, b: Behaviour<F, V, M, P>, parameters: P)
    requires Ready(g) && Sound(b, parameters) && Delivers(g.factors, g.variables)
    ensures var s := FactorsHalf(g, b, parameters);
      s.discrepancy == FactorsChange(g, s.graph, b.discrepancy)
  {
    var update := Bound(b.factorSend, parameters);
    PhaseAgainstPrevious(g.factors, g.variables, update, b.discrepancy);
    PhaseClosed(g.factors, g.variables, update, b.discrepancy, |g.factors|);
  }

  /** The variable half, likewise. */
  lemma VariablesHalfAgainstPrevious<F(!new), V(!new), M(!new), P>(g: Graph<F, V, M>, b: Behaviour<F, V, M, P>, parameters: P)
    requires Ready(g) && Sound(b, parameters) && Delivers(g.variables, g.factors)
    ensures var s := VariablesHalf(g, b, parameters);
      s.discrepancy == VariablesChange(g, s.graph, b.discrepancy)
  {
    PhaseAgainstPrevious(g.variables, g.factors, b.variableSend, b.discrepancy);
    PhaseClosed(g.variables, g.factors, b.variableSend, b.discrepancy, |g.variables|);
  }

  /** On a graph whose messages sit in their peer receivers (as `build` leaves
      it, and as every sweep leaves it again), a sweep's discrepancy is the
      largest difference between the previous and the new message of any slot,
      factor or variable: the discrepancy "between last and previous iteration
      messages maximal across variables and factors". */
  lemma SweepAgainstPrevious<F(!new), V(!new), M(!new), P>(g: Graph<F, V, M>, b: Behaviour<F, V, M, P>, parameters: P)
    requires Ready(g) && Sound(b, parameters) && Paired(g)
    ensures var s := Sweep(g, b, parameters);
      s.discrepancy == Max(FactorsChange(g, s.graph, b.discrepancy), VariablesChange(g, s.graph, b.discrepancy))
  {
    var f := FactorsHalf(g, b, parameters);
    var v := VariablesHalf(f.graph, b, parameters);
    FactorsHalfKeeps(g, b, parameters);
    VariablesHalfKeeps(f.graph, b, parameters);
    FactorsHalfAgainstPrevious(g, b, parameters);
    VariablesHalfAgainstPrevious(f.graph, b, parameters);
    ChangesAlike(g.factors, f.graph.factors, g.factors, v.graph.factors, b.discrepancy);
    ChangesAlike(f.graph.variables, v.graph.variables, g.variables, v.graph.variables, b.discrepancy);
  }

  // ---------------------------------------------------------------------------
  // The graph object

  /** `FactorGraph`: the factor nodes and the variable nodes `build` hands over. */
  class FactorGraph<F(!new), V(!new), M(!new)> {
    const factors: seq<FactorNode<F, M>>
    const variables: seq<VariableNode<V, M>>

    /** The nodes are distinct objects, as the elements of a `Vec` are. */
    ghost predicate Valid()
    {
      Distinct(factors) && Distinct(variables)
    }

    ghost function View(): Graph<F, V, M>
      reads factors, variables
    {
      Graph(FactorsData(factors), VariablesData(variables))
    }

    constructor (factors: seq<FactorNode<F, M>>, variables: seq<VariableNode<V, M>>)
      requires Distinct(factors) && Distinct(variables)
      ensures this.factors == factors && this.variables == variables && Valid()
    {
      this.factors := factors;
      this.variables := variables;
    }

    /** `get_variable_degrees`: one degree per variable, in insertion order. */
    function VariableDegrees(): (ds: seq<nat>)
      reads variables
      ensures |ds| == |variables|
      ensures Linked(View()) ==> forall j :: 0 <= j < |ds| ==> ds[j] == |View().variables[j].peers|
    {
      seq(|variables|, j requires 0 <= j < |variables| reads variables => variables[j].Degree())
    }

    /** `get_factors_degrees`: one degree per factor, in insertion order. */
    function FactorsDegrees(): (ds: seq<nat>)
      reads factors
      ensures |ds| == |factors|
      ensures Linked(View()) ==> forall a :: 0 <= a < |ds| ==> ds[a] == |View().factors[a].peers|
    {
      seq(|factors|, a requires 0 <= a < |factors| reads factors => factors[a].Degree())
    }

    /** The factor half of a sweep as the first `par_iter_mut` block does it,
        one factor after the other; the factor discrepancies are folded with
        `f64::max` from 0. */
    method FactorsPhase<P>(b: Behaviour<F, V, M, P>, parameters: P) returns (d: real)
      requires Valid() && Ready(View()) && Sound(b, parameters)
      modifies factors, variables
      ensures View() == FactorsHalf(old(View()), b, parameters).graph
      ensures d == FactorsHalf(old(View()), b, parameters).discrepancy
    {
      ghost var xs, ys, update := View().factors, View().variables, Bound(b.factorSend, parameters);
      ghost var trace := Trace(xs, ys, update, b.discrepancy);
      d := 0.0;
      for i := 0 to |factors|
        invariant PhaseState(FactorsData(factors), VariablesData(variables), d) == trace[i]
      {
        var x := FactorStep(i, d, xs, ys, trace, b, parameters);
        d := Max(d, x);
      }
    }

    /** The mapped closure of the first block for factor i: evaluate the
        messages, measure them against the receivers the senders point at,
        send them. */
    method FactorStep<P>(i: nat, ghost d: real, ghost xs: seq<Node<F, M>>, ghost ys: seq<Node<V, M>>, ghost trace: seq<PhaseState<F, V, M>>, b: Behaviour<F, V, M, P>, parameters: P)
      returns (x: real)
      requires Valid() && PhaseReady(xs, ys, Bound(b.factorSend, parameters)) && i < |xs|
      requires trace == Trace(xs, ys, Bound(b.factorSend, parameters), b.discrepancy)
      requires PhaseState(FactorsData(factors), VariablesData(variables), d) == trace[i]
      modifies factors, variables
      ensures PhaseState(FactorsData(factors), VariablesData(variables), Max(d, x)) == trace[i + 1]
    {
      ghost var update := Bound(b.factorSend, parameters);
      TraceStep(xs, ys, update, b.discrepancy, i);
      ghost var y := Evaluate(xs[i], update);
      assert factors[i].Data() == xs[i];
      EvalFactor(i, b, parameters);
      assert FactorsData(factors)[i] == y;
      assert factors[i].Data() == y;
      x := factors[i].EvalDiscrepancy(variables, b.discrepancy);
      ghost var evaluated := FactorsData(factors);
      factors[i].SendMessages(variables);
      assert FactorsData(factors) == evaluated;
    }

    /** Factor i evaluates its messages; no other node changes. */
    method EvalFactor<P>(i: nat, b: Behaviour<F, V, M, P>, parameters: P)
      requires Valid() && i < |factors|
      modifies factors[i]
      ensures FactorsData(factors) == old(FactorsData(factors))[i := Evaluate(old(factors[i].Data()), Bound(b.factorSend, parameters))]
      ensures VariablesData(variables) == old(VariablesData(variables))
    {
      ghost var before := FactorsData(factors);
      factors[i].EvalMessages(b.factorSend, parameters);
      forall a | 0 <= a < |factors| && a != i ensures FactorsData(factors)[a] == before[a] {
        DistinctAt(factors, a, i);
      }
    }

    /** The variable half of a sweep as the second `par_iter_mut` block does it. */
    method VariablesPhase<P>(b: Behaviour<F, V, M, P>, parameters: P) returns (d: real)
      requires Valid() && Ready(View()) && Sound(b, parameters)
      modifies factors, variables
      ensures View() == VariablesHalf(old(View()), b, parameters).graph
      ensures d == VariablesHalf(old(View()), b, parameters).discrepancy
    {
      ghost var ys, xs := View().variables, View().factors;
      ghost var trace := Trace(ys, xs, b.variableSend, b.discrepancy);
      d := 0.0;
      for j := 0 to |variables|
        invariant PhaseState(VariablesData(variables), FactorsData(factors), d) == trace[j]
      {
        var x := VariableStep(j, d, ys, xs, trace, b);
        d := Max(d, x);
      }
    }

    /** The mapped closure of the second block for variable j. */
    method VariableStep<P>(j: nat, ghost d: real, ghost ys: seq<Node<V, M>>, ghost xs: seq<Node<F, M>>, ghost trace: seq<PhaseState<V, F, M>>, b: Behaviour<F, V, M, P>)
      returns (x: real)
      requires Valid() && PhaseReady(ys, xs, b.variableSend) && j < |ys|
      requires trace == Trace(ys, xs, b.variableSend, b.discrepancy)
      requires PhaseState(VariablesData(variables), FactorsData(factors), d) == trace[j]
      modifies factors, variables
      ensures PhaseState(VariablesData(variables), FactorsData(factors), Max(d, x)) == trace[j + 1]
    {
      TraceStep(ys, xs, b.variableSend, b.discrepancy, j);
      ghost var y := Evaluate(ys[j], b.variableSend);
      assert variables[j].Data() == ys[j];
      EvalVariable(j, b);
      assert VariablesData(variables)[j] == y;
      assert variables[j].Data() == y;
      x := variables[j].EvalDiscrepancy(factors, b.discrepancy);
      ghost var evaluated := VariablesData(variables);
      variables[j].SendMessages(factors);
      assert VariablesData(variables) == evaluated;
    }

    /** Variable j evaluates its messages; no other node changes. */
    method EvalVariable<P>(j: nat, b: Behaviour<F, V, M, P>)
      requires Valid() && j < |variables|
      modifies variables[j]
      ensures VariablesData(variables) == old(VariablesData(variables))[j := Evaluate(old(variables[j].Data()), b.variableSend)]
      ensures FactorsData(factors) == old(FactorsData(factors))
    {
      ghost var before := VariablesData(variables);
      variables[j].EvalMessages(b.variableSend);
      forall a | 0 <= a < |variables| && a != j ensures VariablesData(variables)[a] == before[a] {
        DistinctAt(variables, a, j);
      }
    }

    /** The body of the loop: both halves, and the larger of their
        discrepancies. */
    method SweepOnce<P>(b: Behaviour<F, V, M, P>, parameters: P) returns (d: real)
      requires Valid() && Ready(View()) && Sound(b, parameters)
      modifies factors, variables
      ensures View() == Sweep(old(View()), b, parameters).graph
      ensures d == Sweep(old(View()), b, parameters).discrepancy
    {
      var factorsDiscrepancy := FactorsPhase(b, parameters);
      var variablesDiscrepancy := VariablesPhase(b, parameters);
      d := Max(factorsDiscrepancy, variablesDiscrepancy);
    }

    /** `run_message_passing_parallel`: sweeps until one gets below the
        threshold or `maxIterationsNumber` sweeps have run. The result and the
        final graph are those of `Run`, whose reporting rules `RunConverges`
        and `RunFails` state. */
    method RunMessagePassingParallel<P>(maxIterationsNumber: nat, threshold: real, parameters: P, b: Behaviour<F, V, M, P>)
      returns (r: MessagePassingResult)
      requires Valid() && Ready(View()) && Sound(b, parameters)
      modifies factors, variables
      ensures Outcome(r, View()) == Run(old(View()), b, parameters, maxIterationsNumber, threshold)
    {
      ghost var g0 := View();
      ghost var d := Discrepancies(g0, b, parameters);
      var lastDiscrepancy := F64Max;
      for i := 0 to maxIterationsNumber
        invariant View() == Sweeps(g0, b, parameters, i)
        invariant ReportFrom(d, maxIterationsNumber, threshold, i, lastDiscrepancy) == Report(d, maxIterationsNumber, threshold)
      {
        ghost var before := View();
        var maxDiscrepancy := SweepOnce(b, parameters);
        assert View() == Sweeps(g0, b, parameters, i + 1) && maxDiscrepancy == d(i) by {
          assert before == Sweeps(g0, b, parameters, i);
        }
        if maxDiscrepancy < threshold {
          assert Report(d, maxIterationsNumber, threshold).sweeps == i + 1;
          return Ok(MessagePassingInfo(i, maxDiscrepancy, threshold));
        }
        lastDiscrepancy := maxDiscrepancy;
      }
      return Err(MessagePassingError(maxIterationsNumber, lastDiscrepancy, threshold));
    }
  }
}
