/** The factor graph as a value: what the fields of every node hold, the
    structural invariants the builder establishes, and what one phase of a
    sweep (every node of one side evaluating, measuring and sending) does to
    that value. */
module Topology {
  import opened Slots

  /** The fields of a node. For a FactorNode `payload` is its factor, `peers`
      is `var_node_indices` and `peerSlots` is `var_node_receiver_indices`; for
      a VariableNode `payload` is its variable, `peers` is `fac_node_indices`
      and `peerSlots` is `fac_node_receiver_indices`. */
  datatype Node<K, M> = Node(
    payload: K,
    peers: seq<nat>,
    peerSlots: seq<nat>,
    messages: seq<M>,
    senders: seq<Sender>,
    receivers: seq<M>)

  /** The factor nodes and the variable nodes, in insertion order. */
  datatype Graph<F, V, M> = Graph(factors: seq<Node<F, M>>, variables: seq<Node<V, M>>)

  /** A node with no slot yet (`new_disconnected`). */
  function Disconnected<K, M>(payload: K): Node<K, M>
  {
    Node(payload, [], [], [], [], [])
  }

  /** The node's five per-slot lists have one entry per slot. */
  predicate Square<K, M>(x: Node<K, M>)
  {
    |x.peerSlots| == |x.peers| && |x.messages| == |x.peers| &&
    |x.senders| == |x.peers| && |x.receivers| == |x.peers|
  }

  ghost predicate AllSquare<K, M>(xs: seq<Node<K, M>>)
  {
    forall i :: 0 <= i < |xs| ==> Square(xs[i])
  }

  /** Slot k of node i names a slot r of node j on the other side, and that slot
      names slot k of node i back. */
  predicate SlotLinked<K1, K2, M>(xs: seq<Node<K1, M>>, ys: seq<Node<K2, M>>, i: nat, k: nat)
  {
    i < |xs| && k < |xs[i].peers| && k < |xs[i].peerSlots| &&
    var j, r := xs[i].peers[k], xs[i].peerSlots[k];
    j < |ys| && r < |ys[j].peers| && r < |ys[j].peerSlots| &&
    ys[j].peers[r] == i && ys[j].peerSlots[r] == k
  }

  ghost predicate LinksTo<K1, K2, M>(xs: seq<Node<K1, M>>, ys: seq<Node<K2, M>>)
  {
    forall i, k :: 0 <= i < |xs| && 0 <= k < |xs[i].peers| ==> SlotLinked(xs, ys, i, k)
  }

  /** The cross-link invariant: every slot, on either side, and the slot it
      names point at each other. */
  ghost predicate Linked<F, V, M>(g: Graph<F, V, M>)
  {
    AllSquare(g.factors) && AllSquare(g.variables) &&
    LinksTo(g.factors, g.variables) && LinksTo(g.variables, g.factors)
  }

  /** Every sender is still the builder's null placeholder. */
  ghost predicate Unwired<K, M>(xs: seq<Node<K, M>>)
  {
    forall i, k :: 0 <= i < |xs| && 0 <= k < |xs[i].senders| ==> xs[i].senders[k] == Null
  }

  /** Every sender of slot k points at the receiver slot `(peers[k], peerSlots[k])`. */
  ghost predicate Wired<K, M>(xs: seq<Node<K, M>>)
  {
    forall i, k :: 0 <= i < |xs| && 0 <= k < |xs[i].senders| ==>
      k < |xs[i].peers| && k < |xs[i].peerSlots| &&
      xs[i].senders[k] == Ptr(xs[i].peers[k], xs[i].peerSlots[k])
  }

  /** The message of slot k of node i is what the slot it names holds. */
  ghost predicate SlotDelivered<K1, K2, M>(xs: seq<Node<K1, M>>, ys: seq<Node<K2, M>>, i: nat, k: nat)
  {
    SlotLinked(xs, ys, i, k) && k < |xs[i].messages| &&
    var j, r := xs[i].peers[k], xs[i].peerSlots[k];
    r < |ys[j].receivers| && ys[j].receivers[r] == xs[i].messages[k]
  }

  /** Every message xs last computed sits in the receiver it is bound for. */
  ghost predicate Delivers<K1, K2, M>(xs: seq<Node<K1, M>>, ys: seq<Node<K2, M>>)
  {
    forall i, k :: 0 <= i < |xs| && 0 <= k < |xs[i].peers| ==> SlotDelivered(xs, ys, i, k)
  }

  /** Writing through slot k of node i designates only that slot's peer
      receiver: a consequence of the cross-links, the reason why every receiver
      slot has exactly one writer. */
  lemma PointsAtPeer<K1, K2, M>(xs: seq<Node<K1, M>>, ys: seq<Node<K2, M>>, i: nat, k: nat, j: nat, r: nat)
    requires AllSquare(xs) && LinksTo(xs, ys) && Wired(xs)
    requires i < |xs| && k < |xs[i].senders| && xs[i].senders[k] == Ptr(j, r)
    ensures j < |ys| && r < |ys[j].peers| && r < |ys[j].peerSlots| && ys[j].peers[r] == i && ys[j].peerSlots[r] == k
  {
    assert SlotLinked(xs, ys, i, k);
  }

  // ---------------------------------------------------------------------------
  // Node operations on values

  /** The send function of a factor or variable writes into a slice, which
      cannot change its length. */
  ghost predicate KeepsLength<K(!new), M(!new)>(update: (K, seq<M>, seq<M>) -> seq<M>)
  {
    forall p, src, dst :: |update(p, src, dst)| == |dst|
  }

  /** `eval_messages`: the payload computes the new messages from the receivers
      and the previous messages. */
  function Evaluate<K, M>(x: Node<K, M>, update: (K, seq<M>, seq<M>) -> seq<M>): Node<K, M>
  {
    x.(messages := update(x.payload, x.receivers, x.messages))
  }

  /** `init_senders`: slot k gets the pointer to receiver `peerSlots[k]` of
      node `peers[k]` (a zip of the two index lists). */
  function WithSenders<K, M>(x: Node<K, M>): Node<K, M>
  {
    x.(senders := seq(ZipLength(x.peers, x.peerSlots), k requires 0 <= k < ZipLength(x.peers, x.peerSlots) =>
      Ptr(x.peers[k], x.peerSlots[k])))
  }

  /** The factor's send function with the message-passing parameters bound. */
  function Bound<F, P, M>(send: (F, seq<M>, seq<M>, P) -> seq<M>, parameters: P): (F, seq<M>, seq<M>) -> seq<M>
  {
    (f, src, dst) => send(f, src, dst, parameters)
  }

  /** Number of slots `eval_discrepancy` and `send_messages` visit (a zip of
      the messages with the senders). */
  function Visited<K, M>(x: Node<K, M>): nat
  {
    ZipLength(x.messages, x.senders)
  }

  /** Every visited sender points at an existing receiver in ys. */
  ghost predicate Targets<K1, K2, M>(x: Node<K1, M>, ys: seq<Node<K2, M>>)
  {
    forall k :: 0 <= k < Visited(x) ==>
      x.senders[k].Ptr? && x.senders[k].node < |ys| &&
      x.senders[k].slot < |ys[x.senders[k].node].receivers|
  }

  /** The message of slot k against the receiver its sender points at (the one
      the node sent last time). */
  function SlotDiscrepancy<K1, K2, M>(x: Node<K1, M>, ys: seq<Node<K2, M>>, disc: (M, M) -> real, k: nat): real
    requires Targets(x, ys) && k < Visited(x)
  {
    disc(x.messages[k], ys[x.senders[k].node].receivers[x.senders[k].slot])
  }

  function SlotDiscrepancies<K1, K2, M>(x: Node<K1, M>, ys: seq<Node<K2, M>>, disc: (M, M) -> real): seq<real>
    requires Targets(x, ys)
  {
    seq(Visited(x), k requires 0 <= k < Visited(x) => SlotDiscrepancy(x, ys, disc, k))
  }

  function DeliveredAt<K1, K2, M>(x: Node<K1, M>, ys: seq<Node<K2, M>>, j: nat, r: nat): M
    requires j < |ys| && r < |ys[j].receivers|
  {
    var n := Visited(x);
    Delivered(x.senders[..n], x.messages[..n], Ptr(j, r), ys[j].receivers[r])
  }

  /** x restricted to its first k visited slots. */
  function FirstSlots<K, M>(x: Node<K, M>, k: nat): Node<K, M>
    requires k <= Visited(x)
  {
    x.(messages := x.messages[..k], senders := x.senders[..k])
  }

  /** `send_messages`: ys after x has written `messages[k]` through `senders[k]`
      for every visited k. */
  function Sent<K1, K2, M>(x: Node<K1, M>, ys: seq<Node<K2, M>>): seq<Node<K2, M>>
  {
    seq(|ys|, j requires 0 <= j < |ys| =>
      ys[j].(receivers := seq(|ys[j].receivers|, r requires 0 <= r < |ys[j].receivers| => DeliveredAt(x, ys, j, r))))
  }

  // ---------------------------------------------------------------------------
  // One phase of a sweep: every node of xs evaluates, measures and sends

  /** What a phase over xs towards ys needs: square nodes linked both ways,
      senders of xs wired, and a length-keeping update. */
  ghost predicate PhaseReady<K1(!new), K2, M(!new)>(xs: seq<Node<K1, M>>, ys: seq<Node<K2, M>>, update: (K1, seq<M>, seq<M>) -> seq<M>)
  {
    AllSquare(xs) && AllSquare(ys) && LinksTo(xs, ys) && LinksTo(ys, xs) && Wired(xs) && KeepsLength(update)
  }

  /** xs once its first i nodes have evaluated their messages. */
  function Evaluated<K, M>(xs: seq<Node<K, M>>, update: (K, seq<M>, seq<M>) -> seq<M>, i: nat): seq<Node<K, M>>
  {
    seq(|xs|, a requires 0 <= a < |xs| => if a < i then Evaluate(xs[a], update) else xs[a])
  }

  /** Receiver slot r of node j of ys once the first i nodes of xs have sent:
      the new message of its peer slot if that peer has sent, else as before. */
  function Incoming<K1(!new), K2, M(!new)>(xs: seq<Node<K1, M>>, ys: seq<Node<K2, M>>, update: (K1, seq<M>, seq<M>) -> seq<M>, i: nat, j: nat, r: nat): M
    requires PhaseReady(xs, ys, update)
    requires j < |ys| && r < |ys[j].receivers|
  {
    assert SlotLinked(ys, xs, j, r);
    var a, s := ys[j].peers[r], ys[j].peerSlots[r];
    if a < i then Evaluate(xs[a], update).messages[s] else ys[j].receivers[r]
  }

  /** ys once the first i nodes of xs have sent. */
  function Received<K1(!new), K2, M(!new)>(xs: seq<Node<K1, M>>, ys: seq<Node<K2, M>>, update: (K1, seq<M>, seq<M>) -> seq<M>, i: nat): seq<Node<K2, M>>
    requires PhaseReady(xs, ys, update)
  {
    seq(|ys|, j requires 0 <= j < |ys| =>
      ys[j].(receivers := seq(|ys[j].receivers|, r requires 0 <= r < |ys[j].receivers| => Incoming(xs, ys, update, i, j, r))))
  }

  /** An evaluated node of a ready phase points at receivers that exist. */
  lemma EvaluatedTargets<K1(!new), K2, M(!new)>(xs: seq<Node<K1, M>>, ys: seq<Node<K2, M>>, update: (K1, seq<M>, seq<M>) -> seq<M>, a: nat)
    requires PhaseReady(xs, ys, update) && a < |xs|
    ensures Targets(Evaluate(xs[a], update), ys)
    ensures Visited(Evaluate(xs[a], update)) == |xs[a].peers|
  {
    var x := Evaluate(xs[a], update);
    assert |x.messages| == |xs[a].messages|;
    forall k | 0 <= k < Visited(x)
      ensures x.senders[k].Ptr? && x.senders[k].node < |ys| && x.senders[k].slot < |ys[x.senders[k].node].receivers|
    {
      assert SlotLinked(xs, ys, a, k);
      assert Square(ys[xs[a].peers[k]]);
    }
  }

  /** Discrepancy of node a: its new messages against what its senders point at. */
  function NodeDiscrepancy<K1(!new), K2, M(!new)>(xs: seq<Node<K1, M>>, ys: seq<Node<K2, M>>, update: (K1, seq<M>, seq<M>) -> seq<M>, disc: (M, M) -> real, a: nat): real
    requires PhaseReady(xs, ys, update) && a < |xs|
  {
    EvaluatedTargets(xs, ys, update, a);
    Peak(SlotDiscrepancies(Evaluate(xs[a], update), ys, disc))
  }

  /** The phase's discrepancy: the maximum over the nodes, from 0. */
  function PhaseDiscrepancy<K1(!new), K2, M(!new)>(xs: seq<Node<K1, M>>, ys: seq<Node<K2, M>>, update: (K1, seq<M>, seq<M>) -> seq<M>, disc: (M, M) -> real, i: nat): real
    requires PhaseReady(xs, ys, update) && i <= |xs|
  {
    Peak(seq(i, a requires 0 <= a < i => NodeDiscrepancy(xs, ys, update, disc, a)))
  }

  /** Before any node of xs has run, nothing has changed. */
  lemma PhaseStart<K1(!new), K2, M(!new)>(xs: seq<Node<K1, M>>, ys: seq<Node<K2, M>>, update: (K1, seq<M>, seq<M>) -> seq<M>)
    requires PhaseReady(xs, ys, update)
    ensures Evaluated(xs, update, 0) == xs && Received(xs, ys, update, 0) == ys
  {
    var ys0 := Received(xs, ys, update, 0);
    forall j | 0 <= j < |ys| ensures ys0[j] == ys[j] {
      assert ys0[j].receivers == ys[j].receivers;
    }
  }

  /** Running node i after nodes 0..i-1: it measures against the receivers its
      predecessors left untouched, and its sends and its evaluation extend the
      phase to i + 1 nodes. Order within a phase does not matter because every
      receiver slot has a single writer. */
  lemma PhaseStep<K1(!new), K2, M(!new)>(xs: seq<Node<K1, M>>, ys: seq<Node<K2, M>>, update: (K1, seq<M>, seq<M>) -> seq<M>, disc: (M, M) -> real, i: nat)
    requires PhaseReady(xs, ys, update) && i < |xs|
    ensures Evaluated(xs, update, i)[i] == xs[i]
    ensures Evaluated(xs, update, i)[i := Evaluate(xs[i], update)] == Evaluated(xs, update, i + 1)
    ensures Targets(Evaluate(xs[i], update), Received(xs, ys, update, i))
    ensures Peak(SlotDiscrepancies(Evaluate(xs[i], update), Received(xs, ys, update, i), disc))
         == NodeDiscrepancy(xs, ys, update, disc, i)
    ensures Sent(Evaluate(xs[i], update), Received(xs, ys, update, i)) == Received(xs, ys, update, i + 1)
  {
    var x := Evaluate(xs[i], update);
    var before := Received(xs, ys, update, i);
    var after := Received(xs, ys, update, i + 1);
    EvaluatedTargets(xs, ys, update, i);
    var n := Visited(x);
    assert n == |xs[i].peers|;
    assert |before| == |ys|;
    // the targets of x are slots whose peer is i itself, so nothing before i wrote them
    forall k | 0 <= k < n
      ensures x.senders[k].node < |before| && x.senders[k].slot < |before[x.senders[k].node].receivers|
      ensures before[x.senders[k].node].receivers[x.senders[k].slot] == ys[x.senders[k].node].receivers[x.senders[k].slot]
    {
      PointsAtPeer(xs, ys, i, k, x.senders[k].node, x.senders[k].slot);
    }
    assert SlotDiscrepancies(x, before, disc) == SlotDiscrepancies(x, ys, disc);
    // every receiver slot receives from its peer slot only
    var sent := Sent(x, before);
    assert |sent| == |after|;
    forall j | 0 <= j < |ys| ensures sent[j] == after[j] {
      forall r | 0 <= r < |ys[j].receivers|
        ensures DeliveredAt(x, before, j, r) == Incoming(xs, ys, update, i + 1, j, r)
      {
        assert Square(ys[j]);
        assert SlotLinked(ys, xs, j, r);
        var a, s := ys[j].peers[r], ys[j].peerSlots[r];
        var ss, ms := x.senders[..n], x.messages[..n];
        if a == i {
          assert SlotLinked(xs, ys, i, s);
          forall q | s < q < n ensures ss[q] != Ptr(j, r) {
            if ss[q] == Ptr(j, r) {
              PointsAtPeer(xs, ys, i, q, j, r);
            }
          }
          DeliveredLast(ss, ms, Ptr(j, r), before[j].receivers[r], s);
        } else {
          forall q | 0 <= q < n ensures ss[q] != Ptr(j, r) {
            if ss[q] == Ptr(j, r) {
              PointsAtPeer(xs, ys, i, q, j, r);
            }
          }
          DeliveredNone(ss, ms, Ptr(j, r), before[j].receivers[r]);
        }
      }
    }
  }

  /** The state of a phase over xs towards ys. */
  datatype PhaseState<K1, K2, M> = PhaseState(xs: seq<Node<K1, M>>, ys: seq<Node<K2, M>>, discrepancy: real)

  /** The phase after its first i nodes, run one after the other. */
  function Phase<K1(!new), K2, M(!new)>(xs: seq<Node<K1, M>>, ys: seq<Node<K2, M>>, update: (K1, seq<M>, seq<M>) -> seq<M>, disc: (M, M) -> real, i: nat): (p: PhaseState<K1, K2, M>)
    requires PhaseReady(xs, ys, update) && i <= |xs|
    ensures |p.xs| == |xs| && |p.ys| == |ys| && 0.0 <= p.discrepancy
    decreases i, 0
  {
    if i == 0 then PhaseState(xs, ys, 0.0) else Advance(xs, ys, update, disc, i - 1)
  }

  /** The phase once node i has run after nodes 0..i-1: it evaluates, its
      discrepancy is folded into the maximum, and it sends. */
  function Advance<K1(!new), K2, M(!new)>(xs: seq<Node<K1, M>>, ys: seq<Node<K2, M>>, update: (K1, seq<M>, seq<M>) -> seq<M>, disc: (M, M) -> real, i: nat): (p: PhaseState<K1, K2, M>)
    requires PhaseReady(xs, ys, update) && i < |xs|
    ensures |p.xs| == |xs| && |p.ys| == |ys| && 0.0 <= p.discrepancy
    decreases i, 1
  {
    var q := Phase(xs, ys, update, disc, i);
    var x := Evaluate(xs[i], update);
    PhaseState(q.xs[i := x], Sent(x, q.ys), Max(q.discrepancy, NodeDiscrepancy(xs, ys, update, disc, i)))
  }

  /** The states the phase passes through: entry i is the phase after its
      first i nodes. */
  function Trace<K1(!new), K2, M(!new)>(xs: seq<Node<K1, M>>, ys: seq<Node<K2, M>>, update: (K1, seq<M>, seq<M>) -> seq<M>, disc: (M, M) -> real): (t: seq<PhaseState<K1, K2, M>>)
    requires PhaseReady(xs, ys, update)
    ensures |t| == |xs| + 1
    ensures forall i :: 0 <= i <= |xs| ==> t[i] == Phase(xs, ys, update, disc, i)
  {
    seq(|xs| + 1, i requires 0 <= i <= |xs| => Phase(xs, ys, update, disc, i))
  }

  /** The phase in closed form: the first i nodes evaluated, each receiver
      holding what its peer sent if that peer has run, and the maximum of the
      first i node discrepancies. */
  lemma {:induction false} PhaseClosed<K1(!new), K2, M(!new)>(xs: seq<Node<K1, M>>, ys: seq<Node<K2, M>>, update: (K1, seq<M>, seq<M>) -> seq<M>, disc: (M, M) -> real, i: nat)
    requires PhaseReady(xs, ys, update) && i <= |xs|
    ensures var p := Phase(xs, ys, update, disc, i);
      p.xs == Evaluated(xs, update, i) && p.ys == Received(xs, ys, update, i) &&
      p.discrepancy == PhaseDiscrepancy(xs, ys, update, disc, i)
    decreases i
  {
    if i == 0 {
      PhaseStart(xs, ys, update);
      assert PhaseDiscrepancy(xs, ys, update, disc, 0) == Peak([]);
    } else {
      PhaseClosed(xs, ys, update, disc, i - 1);
      PhaseStep(xs, ys, update, disc, i - 1);
      PeakStep(xs, ys, update, disc, i - 1);
    }
  }

  /** What node i meets when it runs after nodes 0..i-1: itself as it was, and
      receivers its senders point into, which hold what they held before the
      phase, so that it measures its node discrepancy. */
  lemma PhaseNext<K1(!new), K2, M(!new)>(xs: seq<Node<K1, M>>, ys: seq<Node<K2, M>>, update: (K1, seq<M>, seq<M>) -> seq<M>, disc: (M, M) -> real, i: nat)
    requires PhaseReady(xs, ys, update) && i < |xs|
    ensures var p, x := Phase(xs, ys, update, disc, i), Evaluate(xs[i], update);
      p.xs[i] == xs[i] && Targets(x, p.ys) &&
      Peak(SlotDiscrepancies(x, p.ys, disc)) == NodeDiscrepancy(xs, ys, update, disc, i)
  {
    PhaseClosed(xs, ys, update, disc, i);
    PhaseStep(xs, ys, update, disc, i);
  }

  /** Node i of the phase as the trace records it: it meets itself as it was
      and receivers its senders point into; it evaluates, folds what it
      measures against those receivers into the maximum, and sends. */
  lemma TraceStep<K1(!new), K2, M(!new)>(xs: seq<Node<K1, M>>, ys: seq<Node<K2, M>>, update: (K1, seq<M>, seq<M>) -> seq<M>, disc: (M, M) -> real, i: nat)
    requires PhaseReady(xs, ys, update) && i < |xs|
    ensures var t, x := Trace(xs, ys, update, disc), Evaluate(xs[i], update);
      t[i].xs[i] == xs[i] && Targets(x, t[i].ys) &&
      t[i + 1] == PhaseState(t[i].xs[i := x], Sent(x, t[i].ys), Max(t[i].discrepancy, Peak(SlotDiscrepancies(x, t[i].ys, disc))))
  {
    PhaseNext(xs, ys, update, disc, i);
    assert Trace(xs, ys, update, disc)[i + 1] == Advance(xs, ys, update, disc, i);
  }

  /** Folding one more node discrepancy into the maximum. */
  lemma PeakStep<K1(!new), K2, M(!new)>(xs: seq<Node<K1, M>>, ys: seq<Node<K2, M>>, update: (K1, seq<M>, seq<M>) -> seq<M>, disc: (M, M) -> real, i: nat)
    requires PhaseReady(xs, ys, update) && i < |xs|
    ensures PhaseDiscrepancy(xs, ys, update, disc, i + 1)
         == Max(PhaseDiscrepancy(xs, ys, update, disc, i), NodeDiscrepancy(xs, ys, update, disc, i))
  {
    var ds := seq(i + 1, a requires 0 <= a < i + 1 => NodeDiscrepancy(xs, ys, update, disc, a));
    assert ds[..i] == seq(i, a requires 0 <= a < i => NodeDiscrepancy(xs, ys, update, disc, a));
  }

  /** A completed phase keeps the structure, leaves every message of xs in its
      peer receiver, and keeps what ys had delivered to xs. */
  lemma PhaseDone<K1(!new), K2, M(!new)>(xs: seq<Node<K1, M>>, ys: seq<Node<K2, M>>, update: (K1, seq<M>, seq<M>) -> seq<M>)
    requires PhaseReady(xs, ys, update)
    ensures var xs', ys' := Evaluated(xs, update, |xs|), Received(xs, ys, update, |xs|);
      |xs'| == |xs| && |ys'| == |ys| &&
      (forall a :: 0 <= a < |xs| ==> xs'[a] == Evaluate(xs[a], update)) &&
      (forall j :: 0 <= j < |ys| ==>
        ys'[j].payload == ys[j].payload && ys'[j].peers == ys[j].peers &&
        ys'[j].peerSlots == ys[j].peerSlots && ys'[j].messages == ys[j].messages &&
        ys'[j].senders == ys[j].senders) &&
      AllSquare(xs') && AllSquare(ys') && LinksTo(xs', ys') && LinksTo(ys', xs') &&
      Wired(xs') && (Wired(ys) ==> Wired(ys')) &&
      Delivers(xs', ys') && (Delivers(ys, xs) ==> Delivers(ys', xs'))
  {
    var xs', ys' := Evaluated(xs, update, |xs|), Received(xs, ys, update, |xs|);
    assert AllSquare(xs') by {
      forall a | 0 <= a < |xs'| ensures Square(xs'[a]) { assert Square(xs[a]); }
    }
    assert AllSquare(ys') by {
      forall j | 0 <= j < |ys'| ensures Square(ys'[j]) { assert Square(ys[j]); }
    }
    assert LinksTo(xs', ys') by {
      forall a, k | 0 <= a < |xs'| && 0 <= k < |xs'[a].peers| ensures SlotLinked(xs', ys', a, k) {
        assert SlotLinked(xs, ys, a, k);
      }
    }
    assert LinksTo(ys', xs') by {
      forall j, r | 0 <= j < |ys'| && 0 <= r < |ys'[j].peers| ensures SlotLinked(ys', xs', j, r) {
        assert SlotLinked(ys, xs, j, r);
      }
    }
    assert Delivers(xs', ys') by {
      forall a, k | 0 <= a < |xs'| && 0 <= k < |xs'[a].peers| ensures SlotDelivered(xs', ys', a, k) {
        assert SlotLinked(xs, ys, a, k);
        var j, r := xs[a].peers[k], xs[a].peerSlots[k];
        assert Square(ys[j]);
        assert SlotLinked(ys, xs, j, r);
        assert ys'[j].receivers[r] == Incoming(xs, ys, update, |xs|, j, r);
      }
    }
    if Delivers(ys, xs) {
      forall j, r | 0 <= j < |ys'| && 0 <= r < |ys'[j].peers| ensures SlotDelivered(ys', xs', j, r) {
        assert SlotDelivered(ys, xs, j, r);
        assert SlotLinked(ys, xs, j, r);
        var a, s := ys[j].peers[r], ys[j].peerSlots[r];
        assert Square(xs[a]);
      }
    }
  }

  // ---------------------------------------------------------------------------
  // What a phase measures

  /** The largest discrepancy between a new message and the previous message
      of the same slot, from 0. */
  function Change<M>(before: seq<M>, after: seq<M>, disc: (M, M) -> real): real
  {
    var n := ZipLength(after, before);
    Peak(seq(n, k requires 0 <= k < n => disc(after[k], before[k])))
  }

  /** The largest change of any node's messages from xs to xs'. */
  function Changes<K, M>(xs: seq<Node<K, M>>, xs': seq<Node<K, M>>, disc: (M, M) -> real): real
    requires |xs'| == |xs|
  {
    Peak(seq(|xs|, a requires 0 <= a < |xs| => Change(xs[a].messages, xs'[a].messages, disc)))
  }

  /** Changes depend on the messages alone. */
  lemma ChangesAlike<K, M>(xs: seq<Node<K, M>>, xs': seq<Node<K, M>>, ys: seq<Node<K, M>>, ys': seq<Node<K, M>>, disc: (M, M) -> real)
    requires |xs'| == |xs| && |ys| == |xs| && |ys'| == |xs|
    requires forall a :: 0 <= a < |xs| ==> xs[a].messages == ys[a].messages && xs'[a].messages == ys'[a].messages
    ensures Changes(xs, xs', disc) == Changes(ys, ys', disc)
  {
    var cs := seq(|xs|, a requires 0 <= a < |xs| => Change(xs[a].messages, xs'[a].messages, disc));
    var ds := seq(|ys|, a requires 0 <= a < |ys| => Change(ys[a].messages, ys'[a].messages, disc));
    assert cs == ds;
  }

  /** When every message of xs sits in its peer receiver, a node's discrepancy
      compares each new message with the node's own previous one. */
  lemma NodeAgainstPrevious<K1(!new), K2, M(!new)>(xs: seq<Node<K1, M>>, ys: seq<Node<K2, M>>, update: (K1, seq<M>, seq<M>) -> seq<M>, disc: (M, M) -> real, a: nat)
    requires PhaseReady(xs, ys, update) && Delivers(xs, ys) && a < |xs|
    ensures NodeDiscrepancy(xs, ys, update, disc, a) == Change(xs[a].messages, Evaluate(xs[a], update).messages, disc)
  {
    var x := Evaluate(xs[a], update);
    EvaluatedTargets(xs, ys, update, a);
    var ds := SlotDiscrepancies(x, ys, disc);
    var n := ZipLength(x.messages, xs[a].messages);
    var cs := seq(n, k requires 0 <= k < n => disc(x.messages[k], xs[a].messages[k]));
    assert |ds| == |cs|;
    forall k | 0 <= k < |ds| ensures ds[k] == cs[k] {
      assert SlotDelivered(xs, ys, a, k);
    }
    assert ds == cs;
  }

  /** The phase discrepancy of xs is the largest change of any of its nodes. */
  lemma PhaseAgainstPrevious<K1(!new), K2, M(!new)>(xs: seq<Node<K1, M>>, ys: seq<Node<K2, M>>, update: (K1, seq<M>, seq<M>) -> seq<M>, disc: (M, M) -> real)
    requires PhaseReady(xs, ys, update) && Delivers(xs, ys)
    ensures PhaseDiscrepancy(xs, ys, update, disc, |xs|) == Changes(xs, Evaluated(xs, update, |xs|), disc)
  {
    var xs' := Evaluated(xs, update, |xs|);
    var ps := seq(|xs|, a requires 0 <= a < |xs| => NodeDiscrepancy(xs, ys, update, disc, a));
    var cs := seq(|xs|, a requires 0 <= a < |xs| => Change(xs[a].messages, xs'[a].messages, disc));
    forall a | 0 <= a < |xs| ensures ps[a] == cs[a] {
      NodeAgainstPrevious(xs, ys, update, disc, a);
    }
    assert ps == cs;
  }
}
