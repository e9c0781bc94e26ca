# gmrs factor-graph engine in Dafny

This project models the generic engine of gmrs, a Rust library for message
passing on factor graphs, together with its Ising instance.

- **Factor graph.** Factor nodes and variable nodes are joined by edges. Every
  edge gives each of its two ends a *slot*. A slot holds the index of the node
  at the other end (`var_node_indices` / `fac_node_indices`) and the position of
  the matching receiver over there (`var_node_receiver_indices` /
  `fac_node_receiver_indices`). It also holds an outgoing message, a receiver
  for the incoming message, and a *sender*: a raw pointer to the peer's
  receiver.
- **Builder.** `FactorGraphBuilder` adds variables and factors, slot by slot,
  drawing two initial messages per edge from a message initializer. `build`
  then points every sender at its peer receiver.
- **Message passing.** `FactorGraph::run_message_passing_parallel` repeats
  sweeps. A sweep is every factor node and then every variable node running
  three steps:
  1. `eval_messages` computes new messages from the receivers;
  2. `eval_discrepancy` takes the largest discrepancy between each new message
     and the one last delivered;
  3. `send_messages` writes the new messages into the peer receivers.

  The loop stops at the first sweep whose discrepancy is below the threshold,
  or when the iteration budget is spent.
- **Ising.** The Ising instance has real-valued messages compared by absolute
  difference, and factors of degree two. Their sends route the message from
  each spin to the other.

## Layout

- `slots.dfy` (module `Slots`):
  - senders as `Null | Ptr(node, slot)`;
  - the maximum fold `Peak` of the nodes and reductions;
  - the function `Delivered`: the value a receiver holds after a sequence of
    writes through pointers (the last write wins).
- `topology.dfy` (module `Topology`), the graph as a value:
  - `Node` holds the fields of a node and `Graph` the two node lists;
  - the structural invariants: square nodes, cross-links (`Linked`), wired
    senders (`Wired`), delivered messages (`Delivers`);
  - one *phase*, in which every node on one side evaluates, measures and sends,
    as the function `Phase`, with its closed form (`Evaluated`, `Received`,
    `PhaseDiscrepancy`).
- `nodes.dfy` (module `Nodes`): the classes `FactorNode` and `VariableNode`.
  - Their fields are the source's fields.
  - Each class has `Data()`, the node's value.
  - Their methods are proved against the functions of `Topology`.
  - Both classes live in one module because each node type refers to the other.
- `factor_graph.dfy` (module `MessagePassing`):
  - the sweep and the loop as functions (`FactorsHalf`, `VariablesHalf`,
    `Sweep`, `Sweeps`, `Report`, `Run`), with their lemmas;
  - the class `FactorGraph`, whose methods are proved against those functions.
- `factor_graph_builder.dfy` (module `GraphBuilder`):
  - the builder's operations on graph values (`WireSlot`, `Wire`,
    `AddFactorSpec`, `Built`) and their lemmas;
  - the class `FactorGraphBuilder`, whose methods are proved against those
    operations and keep the invariant `Consistent`.
- `ising.dfy` (module `Ising`): the Ising message, factor and variable, the
  routed factor send, the instance's behaviour, and the chain of `build`'s
  documentation example, built and then run.
- `builder_scenario.dfy` (module `BuilderScenario`): the builder test's small
  graph of four variables and three factors, worked out edge by edge.

## Modelling decisions

- **Generic types.**
  - Messages, factors, variables and message-passing parameters are type
    parameters.
  - The trait methods `Factor::send_messages`, `Variable::send_messages` and
    `Message::discrepancy` are function values bundled in
    `MessagePassing.Behaviour`.
  - A send function returns the new contents of its `dst` slice.
  - `Sound` requires both send functions to keep the slice's length, as writing
    into a `&mut [M]` does.
- **Pointers.**
  - A sender is the pair (node index, receiver index) it points at, or `Null`
    before `build`.
  - Writing through the pointer replaces that receiver of that node.
  - The node lists are sequences of distinct objects. A node method that sends
    takes the other side's node list.
- **Order within a phase.** Each sweep runs its nodes in order. Every receiver has exactly
  one sender (`Linked`, `Wired`), so the order within a phase does not change
  the result (the `Received` closed form).
- **Message initializer.** The `FnMut() -> Message` initializer is the stream
  `init: nat -> M` with a cursor. `AddFactor` takes the cursor and returns the
  advanced one, so its n-th call yields `init(n)`.
- **Variable payload.** `V::new()` is the value `newVariable` given to the
  builder.
- **Reals.** `f64` is `real`. `f64::MAX` is the constant `F64Max`, written out
  exactly.
- **Code over prose.** Where the prose documentation and the code disagree, the
  model follows the code:
  - `FactorNode::eval_messages` (src/core/factor_node.rs:61-64) passes no
    parameters, but `src/core/factor_graph.rs:120` and the `Factor` trait pass
    them. The model passes them.
  - `FactorNode::degree`, called by `get_factors_degrees`
    (src/core/factor_graph.rs:93-95), is not in the factor node file. It is
    modelled like `VariableNode::degree`, as the number of receivers.
  - `iterations_number` of a converged run is the 0-based index of the
    converging sweep, as src/core/factor_graph.rs:138-142 writes it, not the
    number of sweeps run. `Stop.sweeps` records the latter.

## Model

| member | source | states |
|---|---|---|
| Slots.Peak | src/core/factor_node.rs:67-76 | the fold from 0 is non-negative, at least every per-slot discrepancy, and either 0 or one of them |
| Slots.DeliveredLast | src/core/factor_node.rs:79-83 | a receiver written through several senders holds the message of the last of them |
| Slots.DeliveredNone | src/core/factor_node.rs:79-83 | a receiver no sender designates keeps its value |
| Topology.WithSenders | src/core/factor_node.rs:45-58 | value form of `init_senders`: sender k becomes the pointer to receiver `peerSlots[k]` of node `peers[k]`; `Topology.PointsAtPeer` and `Nodes.FactorNode.InitSenders` state what this gives |
| Topology.Evaluate | src/core/factor_node.rs:61-64 | value form of `eval_messages`: only the messages change, to the payload's update of receivers and messages; `Topology.EvaluatedTargets` states its properties |
| Topology.Sent | src/core/factor_node.rs:79-83 | value form of `send_messages`: every receiver holds the message of the last visited slot that points at it; `Nodes.SentAll`, `Nodes.SentNothing` and `Slots.DeliveredLast` state this |
| Topology.PointsAtPeer | src/core/factor_node.rs:45-58 | in a cross-linked, wired list, sender k of node i points at a slot (j, r) whose peer is i and whose peer slot is k |
| Topology.EvaluatedTargets | src/core/factor_node.rs:61-64 | evaluating a node keeps every visited sender pointing at an existing receiver, and every slot is visited |
| Topology.Phase | src/core/factor_graph.rs:116-125 | a phase keeps the number of nodes on both sides and has a non-negative discrepancy |
| Topology.PhaseStart | src/core/factor_graph.rs:116-125 | before any node has run, the phase has changed nothing |
| Topology.PhaseStep | src/core/factor_graph.rs:119-124 | node i evaluates, is measured against the receivers as the earlier nodes left them, and its send extends the closed form to i + 1 |
| Topology.PhaseClosed | src/core/factor_graph.rs:116-125 | the step-by-step phase equals the closed form: evaluated prefix, receivers as delivered, maximum of the node discrepancies |
| Topology.PhaseNext | src/core/factor_graph.rs:119-124 | node i is still unevaluated when its turn comes, and it measures exactly its node discrepancy |
| Topology.TraceStep | src/core/factor_graph.rs:119-124 | the state after node i is the state before with node i evaluated, its messages sent, and the running maximum updated |
| Topology.PeakStep | src/core/factor_graph.rs:125 | the phase discrepancy after i + 1 nodes is the maximum of that after i nodes and node i's |
| Topology.PhaseDone | src/core/factor_graph.rs:116-125 | after a phase every node of the sending side is evaluated; the other side only has its receivers replaced; squareness, cross-links, wiring and delivery hold afterwards |
| Topology.NodeAgainstPrevious | src/core/factor_node.rs:67-76 | when every message has been delivered, a node's discrepancy is the largest change between its previous and its new messages |
| Topology.PhaseAgainstPrevious | src/core/factor_graph.rs:116-125 | likewise for a whole phase: its discrepancy is the largest change of any message of that side |
| Nodes.FactorNode.NewDisconnected | src/core/factor_node.rs:33-42 | the node holds the factor and no slot |
| Nodes.FactorNode.Degree | src/core/factor_graph.rs:93-95 | the degree of a square node is its number of slots |
| Nodes.FactorNode.InitSenders | src/core/factor_node.rs:45-58 | the senders become the zip of the peer indices with the peer receiver indices, and nothing else changes |
| Nodes.FactorNode.EvalMessages | src/core/factor_node.rs:61-64 | only the messages change, to the factor's send applied to the receivers, the previous messages and the parameters |
| Nodes.FactorNode.EvalDiscrepancy | src/core/factor_node.rs:67-76 | the result is the maximum from 0 of the per-slot discrepancies against the receivers the senders point at |
| Nodes.FactorNode.SendMessages | src/core/factor_node.rs:79-83 | the variables' receivers become the delivered value of every pointer write; nothing else of the variables changes |
| Nodes.VariableNode.NewDisconnected | src/core/variable_node.rs:33-43 | the node holds the variable and no slot |
| Nodes.VariableNode.Degree | src/core/variable_node.rs:46-48 | the degree of a square node is its number of slots |
| Nodes.VariableNode.InitSenders | src/core/variable_node.rs:51-64 | the senders become the zip of the peer indices with the peer receiver indices, and nothing else changes |
| Nodes.VariableNode.EvalMessages | src/core/variable_node.rs:67-70 | only the messages change, to the variable's send applied to the receivers and the previous messages |
| Nodes.VariableNode.EvalDiscrepancy | src/core/variable_node.rs:73-82 | the result is the maximum from 0 of the per-slot discrepancies |
| Nodes.VariableNode.SendMessages | src/core/variable_node.rs:85-89 | the factors' receivers become the delivered value of every pointer write; nothing else changes |
| Nodes.SentStep | src/core/factor_node.rs:80-82 | one more write through sender k extends the delivered prefix by slot k |
| Nodes.SentAll | src/core/factor_node.rs:79-83 | the writes through every visited slot give the full send |
| Nodes.SentNothing | src/core/factor_node.rs:79-83 | a node with no visited slot leaves the other side unchanged |
| MessagePassing.FactorsHalf | src/core/factor_graph.rs:116-125 | the factor phase keeps the graph ready and its size |
| MessagePassing.VariablesHalf | src/core/factor_graph.rs:126-135 | the variable phase keeps the graph ready and its size |
| MessagePassing.Sweep | src/core/factor_graph.rs:116-136 | factors then variables; the sweep keeps the graph ready and its size |
| MessagePassing.Sweeps | src/core/factor_graph.rs:115-145 | any number of sweeps keeps the graph ready |
| MessagePassing.SweepDiscrepancy | src/core/factor_graph.rs:136 | the discrepancy of every sweep is at least 0, the identity of the reductions |
| MessagePassing.ReportFrom | src/core/factor_graph.rs:114-150 | the loop from iteration i on: `Ok` at the first sweep below the threshold, `Err` with the last discrepancy once the budget is spent; `MessagePassing.ReportFromOutcome` states this |
| MessagePassing.Report | src/core/factor_graph.rs:114-150 | the loop from its start, the last discrepancy being `f64::MAX`; `MessagePassing.ReportOutcome` states what it returns |
| MessagePassing.Run | src/core/factor_graph.rs:108-151 | value form of `run_message_passing_parallel`: the reported result and the graph after as many sweeps as ran; `MessagePassing.RunConverges`, `RunFails` and `RunKeeps` state its properties |
| MessagePassing.ReportFromOutcome | src/core/factor_graph.rs:114-150 | from sweep i on, the loop converges iff some later sweep is below the threshold; then at the first one, with its index and value; else with the budget and the last value |
| MessagePassing.ReportOutcome | src/core/factor_graph.rs:114-150 | `Ok` iff some sweep below the budget is below the threshold, with the first such index and its value; otherwise `Err` with the budget and the last sweep's value, or `f64::MAX` for a budget of 0; the threshold is carried unchanged |
| MessagePassing.RunConverges | src/core/factor_graph.rs:137-143 | the run converges iff some sweep is below the threshold; it stops after the first one, whose index and value it reports, and the graph is that many sweeps on |
| MessagePassing.RunFails | src/core/factor_graph.rs:144-150 | a failed run reports the budget, the last sweep's discrepancy or `f64::MAX`, and the threshold, and the graph is budget-many sweeps on |
| MessagePassing.NonPositiveThreshold | src/core/factor_graph.rs:137 | with a threshold of at most 0 the run never converges |
| MessagePassing.FactorsHalfKeeps | src/core/factor_graph.rs:116-125 | the factor phase changes no payload, link or sender, leaves the variables' messages alone, and keeps every message delivered |
| MessagePassing.VariablesHalfKeeps | src/core/factor_graph.rs:126-135 | the variable phase changes no payload, link or sender, leaves the factors' messages alone, and keeps every message delivered |
| MessagePassing.SweepKeeps | src/core/factor_graph.rs:116-136 | a sweep keeps payloads, links, senders and message counts |
| MessagePassing.SweepsStep | src/core/factor_graph.rs:115-145 | one more sweep keeps what the previous sweeps kept |
| MessagePassing.SweepsKeep | src/core/factor_graph.rs:115-145 | any number of sweeps keeps payloads, links, senders and message counts |
| MessagePassing.RunKeeps | src/core/factor_graph.rs:108-151 | the graph a run leaves is ready and has the same structure as before |
| MessagePassing.FactorsHalfAgainstPrevious | src/core/factor_graph.rs:116-125 | when the factors' messages are delivered, the factor discrepancy is the largest change of any factor message |
| MessagePassing.VariablesHalfAgainstPrevious | src/core/factor_graph.rs:126-135 | likewise for the variables |
| MessagePassing.SweepAgainstPrevious | src/core/factor_graph.rs:116-136 | in a paired graph the sweep discrepancy is the largest change of any message of the sweep |
| MessagePassing.FactorGraph.constructor | src/core/factor_graph_builder.rs:267-270 | the graph holds the given node lists |
| MessagePassing.FactorGraph.VariableDegrees | src/core/factor_graph.rs:86-88 | one entry per variable, in order, each its number of slots |
| MessagePassing.FactorGraph.FactorsDegrees | src/core/factor_graph.rs:93-95 | one entry per factor, in order, each its number of slots |
| MessagePassing.FactorGraph.EvalFactor | src/core/factor_graph.rs:120 | factor i evaluates and no other node changes |
| MessagePassing.FactorGraph.FactorStep | src/core/factor_graph.rs:119-124 | running factor i advances the phase by one node |
| MessagePassing.FactorGraph.FactorsPhase | src/core/factor_graph.rs:116-125 | the loop over the factors leaves the graph and returns the discrepancy of the factor phase |
| MessagePassing.FactorGraph.EvalVariable | src/core/factor_graph.rs:130 | variable j evaluates and no other node changes |
| MessagePassing.FactorGraph.VariableStep | src/core/factor_graph.rs:129-134 | running variable j advances the phase by one node |
| MessagePassing.FactorGraph.VariablesPhase | src/core/factor_graph.rs:126-135 | the loop over the variables leaves the graph and returns the discrepancy of the variable phase |
| MessagePassing.FactorGraph.SweepOnce | src/core/factor_graph.rs:116-136 | one sweep leaves the graph of `Sweep` and returns the larger of the two phase discrepancies |
| MessagePassing.FactorGraph.RunMessagePassingParallel | src/core/factor_graph.rs:108-151 | the result and the final graph are those of `Run` |
| GraphBuilder.WithVariables | src/core/factor_graph_builder.rs:115-121 | value form of `new_with_variables`: n disconnected variables and no factor; `GraphBuilder.WithVariablesConsistent` states its invariant |
| GraphBuilder.AddVariableSpec | src/core/factor_graph_builder.rs:139-141 | value form of `add_variable`: one more disconnected variable at the end; `GraphBuilder.AddVariableKeeps` states its invariant |
| GraphBuilder.AddFactorSpec | src/core/factor_graph_builder.rs:182-226 | value form of `add_factor`: the degree check, then the pushed factor wired edge by edge; `GraphBuilder.AddFactorRejects`, `AddFactorWires` and `AddFactorKeeps` state its outcome |
| GraphBuilder.Built | src/core/factor_graph_builder.rs:260-271 | value form of `build`: every factor and then every variable initialises its senders; `GraphBuilder.BuiltReady` states what this leaves |
| GraphBuilder.WireSlot | src/core/factor_graph_builder.rs:206-223 | wiring an edge keeps the number of nodes |
| GraphBuilder.Wire | src/core/factor_graph_builder.rs:200-224 | wiring a list of edges keeps the number of nodes |
| GraphBuilder.WithVariablesConsistent | src/core/factor_graph_builder.rs:115-121 | n disconnected variables and no factor form a consistent builder |
| GraphBuilder.AddVariableKeeps | src/core/factor_graph_builder.rs:139-141 | adding a disconnected variable keeps the builder consistent |
| GraphBuilder.AddNodeKeeps | src/core/factor_graph_builder.rs:195-196 | pushing a disconnected factor keeps the builder consistent |
| GraphBuilder.WireSlotLinked | src/core/factor_graph_builder.rs:208-223 | the edge's two new slots name each other, so the cross-links hold afterwards |
| GraphBuilder.WireSlotPaired | src/core/factor_graph_builder.rs:206-214 | the factor's receiver is the variable's message and the other way round, so every message is where it is bound |
| GraphBuilder.WireSlotKeeps | src/core/factor_graph_builder.rs:206-223 | wiring an edge keeps the builder consistent |
| GraphBuilder.WireKeeps | src/core/factor_graph_builder.rs:200-224 | the loop over the indices keeps the builder consistent, whether it completes or stops early |
| GraphBuilder.AddFactorKeeps | src/core/factor_graph_builder.rs:182-226 | `add_factor` keeps the builder consistent on every path |
| GraphBuilder.BuiltReady | src/core/factor_graph_builder.rs:260-271 | after `build` every sender points at the receiver its slot links to; the graph is ready and paired, and only the senders changed |
| GraphBuilder.WireStep | src/core/factor_graph_builder.rs:206-215 | one pass of the loop appends one slot to the factor, naming the variable, with the two drawn messages and a null sender; no other factor changes |
| GraphBuilder.WireFactor | src/core/factor_graph_builder.rs:200-224 | over valid indices the loop completes, advances the initializer by two per index, and appends the indices to the factor's peers with null senders |
| GraphBuilder.WireDraws | src/core/factor_graph_builder.rs:206-210 | the factor's receivers get the even draws and its messages the odd draws |
| GraphBuilder.WireVariables | src/core/factor_graph_builder.rs:211-215 | each variable keeps its payload and gets the factor's index once per occurrence in the indices |
| GraphBuilder.WireOutcome | src/core/factor_graph_builder.rs:200-205 | the loop wires exactly the indices before the first out-of-range one, and then fails with the number of variables and that index |
| GraphBuilder.AddFactorRejects | src/core/factor_graph_builder.rs:188-194 | the result is `DegreeError(degree, indices)` iff the degree differs from the number of indices, and then the builder is unchanged |
| GraphBuilder.AddFactorWires | src/core/factor_graph_builder.rs:195-225 | with the right degree the factor is pushed; the result is `Ok` iff every index is in range, and otherwise reports the first bad one; the new factor's peers, receivers, messages and senders are those of the edges before it; variables gain the factor's index once per occurrence |
| GraphBuilder.AddFactorDegrees | src/core/factor_graph_builder.rs:195-205 | an out-of-range failure, and only that, leaves a factor whose slot count differs from its degree |
| GraphBuilder.FactorGraphBuilder.New | src/core/factor_graph_builder.rs:87-92 | no factor and no variable, and the builder is consistent |
| GraphBuilder.FactorGraphBuilder.NewWithVariables | src/core/factor_graph_builder.rs:115-121 | exactly n disconnected variables and no factor, consistent; every variable node is newly allocated |
| GraphBuilder.FactorGraphBuilder.AddVariable | src/core/factor_graph_builder.rs:139-141 | one newly allocated disconnected variable is appended; the factors and the other variables are unchanged |
| GraphBuilder.FactorGraphBuilder.WireEdge | src/core/factor_graph_builder.rs:208-223 | the eight pushes and the two receiver-index pushes give `WireSlot` of the graph |
| GraphBuilder.FactorGraphBuilder.AddFactor | src/core/factor_graph_builder.rs:182-226 | the result, the graph and the initializer position are those of `AddFactorSpec`, and the builder stays consistent; the earlier factor nodes stay in place and a pushed one is newly allocated |
| GraphBuilder.FactorGraphBuilder.WireFactor | src/core/factor_graph_builder.rs:200-224 | the loop of `add_factor` is proved equal to `Wire` of the graph and keeps the builder consistent; it touches only factor f and the variables |
| GraphBuilder.FactorGraphBuilder.InitFactorSenders | src/core/factor_graph_builder.rs:261-263 | factor a's senders are initialised and no other node changes |
| GraphBuilder.FactorGraphBuilder.InitVariableSenders | src/core/factor_graph_builder.rs:264-266 | variable j's senders are initialised and no other node changes |
| GraphBuilder.FactorGraphBuilder.Build | src/core/factor_graph_builder.rs:260-271 | the factor graph holds the builder's nodes with every sender initialised, and it is ready and paired |
| Ising.Discrepancy | src/ising/common.rs:15-17 | the distance is non-negative, one of the two differences, and zero iff the messages are equal |
| Ising.DiscrepancySymmetric | src/ising/common.rs:15-17 | the distance is symmetric |
| Ising.NewFactor | src/ising/common.rs:74-99 | the getters return the coupling and the two fields given to `new` |
| Ising.FactorSend | src/ising/common.rs:121-147 | `dst[1]` comes from `src[0]` with the fields in order and `dst[0]` from `src[1]` with the fields swapped, each from the slot's old value; every other slot is unchanged |
| Ising.FactorSendMirror | src/ising/common.rs:127-145 | exchanging the two fields and the two slots exchanges the two messages sent |
| Ising.SendMessages | src/ising/common.rs:121-147 | the in-place writes (slot 1, then slot 0) leave the slice as `FactorSend` |
| Ising.BehaviourSound | src/ising/common.rs:121-147 | the instance keeps slice lengths as soon as the variable update does |
| Ising.AddFactor | src/ising/common.rs:116-118 | adding an Ising factor succeeds iff it gets two indices, both in range; the factor node then has two slots, to those variables |
| Ising.NewIsingBuilder | src/ising/common.rs:224-232 | the builder of `new_with_variables`, with the Ising variable as payload and newly allocated variable nodes |
| Ising.ChainStep | src/core/factor_graph_builder.rs:248-253 | adding the factor on [i, i + 1] to a chain of i links over n + 1 spins succeeds, draws four messages and gives i + 1 links, the earlier ones unchanged |
| Ising.ChainBuilder | src/core/factor_graph_builder.rs:242-253 | the loop of the `build` example: every `add_factor` succeeds, the builder holds factor i on spins i and i + 1, and all its nodes are newly allocated |
| Ising.NewChain | src/core/factor_graph_builder.rs:242-256 | the `build` example: the factor graph of that chain, ready and paired for message passing, with newly allocated nodes |
| Ising.RunChain | src/core/factor_graph.rs:108-151 | running message passing on the chain built from the given initializer gives the result `Run` specifies for that graph: `Ok` iff one of the first `max_iterations_number` sweeps is below the threshold, reporting the first such sweep, its discrepancy and the threshold; otherwise `Err` with the whole budget, the last sweep's discrepancy (`f64::MAX` for a zero budget) and the threshold |
| Ising.Degree | src/ising/common.rs:116-118 | an Ising factor always has degree 2; `Ising.AddFactor` states what this means for `add_factor` |
| Ising.VariableSend | src/ising/common.rs:196-198 | `IsingVariable::send_messages` is the algorithm's variable update on the slice; `Ising.BehaviourSound` needs only that it keeps lengths |
| Ising.GetCoupling | src/ising/common.rs:84-87 | the coupling of the factor; `Ising.NewFactor` states the round trip |
| Ising.GetFirstSpinField | src/ising/common.rs:90-93 | the field on the first spin; `Ising.NewFactor` states the round trip |
| Ising.GetSecondSpinField | src/ising/common.rs:96-99 | the field on the second spin; `Ising.NewFactor` states the round trip |
| BuilderScenario.FirstFactor | src/tests/factor_graph_builder_tests.rs:66-68 | a factor of degree 3 on [0, 1, 3] over four fresh variables succeeds with six messages drawn, giving the graph `AfterFirst` |
| BuilderScenario.SecondFactor | src/tests/factor_graph_builder_tests.rs:69-70 | a factor of degree 2 on [1, 2] then succeeds with four more messages drawn, giving `AfterSecond` |
| BuilderScenario.ThirdFactor | src/tests/factor_graph_builder_tests.rs:71-72 | a factor of degree 2 on [3, 1] then succeeds, giving `AfterThird` |
| BuilderScenario.SmallFactorGraph | src/tests/factor_graph_builder_tests.rs:63-116 | the three calls all succeed, fourteen messages are drawn, and the graph is `AfterThird`: the slot counts, index lists and receiver index lists the test asserts |
| BuilderScenario.SmallFactorGraphSenders | src/tests/factor_graph_builder_tests.rs:117-132 | after `build` each sender points at the receiver the test compares it with |

## Left out

- Rayon parallelism: each phase runs its nodes in order. Every receiver has a single writer, so the result is the same.
- The `unsafe` pointer mechanics and the `factors_and_variables` aliasing: they are replaced by index pairs and the invariant `Consistent`.
- Floating point: `f64` is `real`, with no rounding, NaN or infinity.
- `IsingFactor::factor`: it uses `exp`.
- The Ising update rules: `factor_message_update` and `variable_message_update` are supplied functions.
- The marginals (`eval_marginals`, `marginal`, `variable_marginal`, `factor_marginal`): their meaning is floating-point numerics.
- `random_message_initializer` and the random generators: the initializer is a given stream.
- `factors_capacity`: it only reserves memory.
- `Display` impls and error texts.
- The `todo!()` stubs `from_message`, `sample` and `sample_to_message`.
- Ising.FactorSend: the source reads and writes slots 0 and 1 unchecked, which is undefined for a slice shorter than two. The model leaves such a slice unchanged. `Ising.AddFactor` shows that every Ising factor node the builder creates has exactly two slots.
- `FactorGraphBuilder::default`: it is `new`.
- The trait declarations in src/core/factor.rs, src/core/variable.rs and src/core/message.rs: they are the function values of `MessagePassing.Behaviour` and the type parameters.
- Nodes.FactorNode.Degree: it is stated for square nodes only, the shape the builder keeps.
- Nodes.VariableNode.Degree: the same.
