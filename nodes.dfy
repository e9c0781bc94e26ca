/** The two kinds of node of a factor graph. They live in one module because
    each writes into the other's receivers. A sender is the index pair of the
    receiver it points at, so writing through it is an update of the node at
    that index of the other side's node list (whose nodes are distinct
    objects, as the elements of a `Vec` are). */
module Nodes {
  import opened Slots
  import opened Topology

  /** No element occurs twice in s, stated from the back one element at a time. */
  ghost predicate Distinct<T>(s: seq<T>)
    decreases |s|
  {
    |s| == 0 || (s[|s| - 1] !in s[..|s| - 1] && Distinct(s[..|s| - 1]))
  }

  /** Two positions of a distinct sequence hold different elements. */
  lemma {:induction false} DistinctAt<T>(s: seq<T>, a: nat, b: nat)
    requires Distinct(s) && a < |s| && b < |s| && a != b
    ensures s[a] != s[b]
    decreases |s|
  {
    var n := |s| - 1;
    if a == n {
      assert s[..n][b] == s[b];
    } else if b == n {
      assert s[..n][a] == s[a];
    } else {
      DistinctAt(s[..n], a, b);
    }
  }

  /** Appending an element that is not there keeps a sequence distinct. */
  lemma DistinctPush<T>(s: seq<T>, x: T)
    requires Distinct(s) && x !in s
    ensures Distinct(s + [x])
  {
    assert (s + [x])[..|s|] == s;
  }

  /** The values held by a list of factor nodes. */
  ghost function FactorsData<F, M>(fs: seq<FactorNode<F, M>>): (r: seq<Node<F, M>>)
    reads fs
    ensures |r| == |fs|
  {
    seq(|fs|, i requires 0 <= i < |fs| reads fs => fs[i].Data())
  }

  /** The values held by a list of variable nodes: the same view as
      `FactorsData`, written again because the two node classes share no
      common type to abstract over. */
  ghost function VariablesData<V, M>(vs: seq<VariableNode<V, M>>): (r: seq<Node<V, M>>)
    reads vs
    ensures |r| == |vs|
  {
    seq(|vs|, i requires 0 <= i < |vs| reads vs => vs[i].Data())
  }

  /** A factor node: the factor, one slot per adjacent variable, and for each
      slot the variable's index, the index of the matching receiver in that
      variable, the message last computed for it, the pointer it is sent
      through and the message received from the variable. */
  class FactorNode<F, M> {
    const factor: F
    var varNodeIndices: seq<nat>
    var varNodeReceiverIndices: seq<nat>
    var messages: seq<M>
    var senders: seq<Sender>
    var receivers: seq<M>

    ghost function Data(): Node<F, M>
      reads this
    {
      Node(factor, varNodeIndices, varNodeReceiverIndices, messages, senders, receivers)
    }

    /** `new_disconnected`: the factor and no slot. */
    constructor NewDisconnected(factor: F)
      ensures Data() == Disconnected(factor)
    {
      this.factor := factor;
      varNodeIndices, varNodeReceiverIndices := [], [];
      messages, senders, receivers := [], [], [];
    }

    /** Number of slots, as for a variable node. */
    function Degree(): (d: nat)
      reads this
      ensures Square(Data()) ==> d == |varNodeIndices|
    {
      |receivers|
    }

    /** `init_senders`: slot k points at receiver `var_node_receiver_indices[k]`
        of variable `var_node_indices[k]`. */
    method InitSenders()
      modifies this`senders
      ensures Data() == WithSenders(old(Data()))
    {
      var peers, slots := varNodeIndices, varNodeReceiverIndices;
      senders := seq(ZipLength(peers, slots), k requires 0 <= k < ZipLength(peers, slots) => Ptr(peers[k], slots[k]));
      assert senders == WithSenders(old(Data())).senders;
    }

    /** `eval_messages`: the factor turns the received messages into new ones. */
    method EvalMessages<P>(send: (F, seq<M>, seq<M>, P) -> seq<M>, parameters: P)
      modifies this`messages
      ensures Data() == Evaluate(old(Data()), Bound(send, parameters))
    {
      messages := send(factor, receivers, messages, parameters);
    }

    /** `eval_discrepancy`: the largest discrepancy, from 0, between a new
        message and the one its sender delivered last time. */
    method EvalDiscrepancy<V>(variables: seq<VariableNode<V, M>>, disc: (M, M) -> real) returns (d: real)
      requires Targets(Data(), VariablesData(variables))
      ensures d == Peak(SlotDiscrepancies(Data(), VariablesData(variables), disc))
    {
      ghost var ys := VariablesData(variables);
      ghost var ds := SlotDiscrepancies(Data(), ys, disc);
      d := 0.0;
      for k := 0 to ZipLength(messages, senders)
        invariant d == Peak(ds[..k])
      {
        var target := senders[k];
        assert ys[target.node] == variables[target.node].Data();
        var x := disc(messages[k], variables[target.node].receivers[target.slot]);
        assert x == ds[k];
        assert ds[..k + 1][..k] == ds[..k];
        assert Peak(ds[..k + 1]) == Max(Peak(ds[..k]), x);
        if d < x {
          d := x;
        }
      }
      assert ds[..|ds|] == ds;
    }

    /** `send_messages`: `messages[k]` is written through `senders[k]`, in
        order; the node itself does not change. */
    method SendMessages<V>(variables: seq<VariableNode<V, M>>)
      requires Targets(Data(), VariablesData(variables)) && Distinct(variables)
      modifies variables
      ensures VariablesData(variables) == Sent(Data(), old(VariablesData(variables)))
    {
      ghost var ys := VariablesData(variables);
      var n := ZipLength(messages, senders);
      SentNothing(FirstSlots(Data(), 0), ys);
      for k := 0 to n
        invariant VariablesData(variables) == Sent(FirstSlots(Data(), k), ys)
      {
        var target := senders[k];
        var v := variables[target.node];
        ghost var before := VariablesData(variables);
        assert before[target.node] == v.Data();
        forall j | 0 <= j < |variables| && j != target.node ensures variables[j] != v {
          DistinctAt(variables, j, target.node);
        }
        v.receivers := v.receivers[target.slot := messages[k]];
        ghost var after := VariablesData(variables);
        assert after[target.node] == before[target.node].(receivers := before[target.node].receivers[target.slot := messages[k]]);
        assert forall j :: 0 <= j < |before| && j != target.node ==> after[j] == before[j];
        SentStep(Data(), k, ys, before, after);
      }
      SentAll(Data(), ys);
    }
  }

  /** A variable node: the variable, one slot per adjacent factor, and for each
      slot the factor's index, the index of the matching receiver in that
      factor, the message last computed for it, the pointer it is sent through
      and the message received from the factor. */
  class VariableNode<V, M> {
    const variable: V
    var facNodeIndices: seq<nat>
    var facNodeReceiverIndices: seq<nat>
    var messages: seq<M>
    var senders: seq<Sender>
    var receivers: seq<M>

    ghost function Data(): Node<V, M>
      reads this
    {
      Node(variable, facNodeIndices, facNodeReceiverIndices, messages, senders, receivers)
    }

    /** `new_disconnected`: the variable `V::new()` gives and no slot. */
    constructor NewDisconnected(variable: V)
      ensures Data() == Disconnected(variable)
    {
      this.variable := variable;
      facNodeIndices, facNodeReceiverIndices := [], [];
      messages, senders, receivers := [], [], [];
    }

    /** `degree`: the number of receivers, which is the number of adjacent
        factor slots. */
    function Degree(): (d: nat)
      reads this
      ensures Square(Data()) ==> d == |facNodeIndices|
    {
      |receivers|
    }

    /** `init_senders`: slot k points at receiver `fac_node_receiver_indices[k]`
        of factor `fac_node_indices[k]`. */
    method InitSenders()
      modifies this`senders
      ensures Data() == WithSenders(old(Data()))
    {
      var peers, slots := facNodeIndices, facNodeReceiverIndices;
      senders := seq(ZipLength(peers, slots), k requires 0 <= k < ZipLength(peers, slots) => Ptr(peers[k], slots[k]));
      assert senders == WithSenders(old(Data())).senders;
    }

    /** `eval_messages`: the variable turns the received messages into new ones. */
    method EvalMessages(send: (V, seq<M>, seq<M>) -> seq<M>)
      modifies this`messages
      ensures Data() == Evaluate(old(Data()), send)
    {
      messages := send(variable, receivers, messages);
    }

    /** `eval_discrepancy`, as for a factor node. */
    method EvalDiscrepancy<F>(factors: seq<FactorNode<F, M>>, disc: (M, M) -> real) returns (d: real)
      requires Targets(Data(), FactorsData(factors))
      ensures d == Peak(SlotDiscrepancies(Data(), FactorsData(factors), disc))
    {
      ghost var ys := FactorsData(factors);
      ghost var ds := SlotDiscrepancies(Data(), ys, disc);
      d := 0.0;
      for k := 0 to ZipLength(messages, senders)
        invariant d == Peak(ds[..k])
      {
        var target := senders[k];
        assert ys[target.node] == factors[target.node].Data();
        var x := disc(messages[k], factors[target.node].receivers[target.slot]);
        assert x == ds[k];
        assert ds[..k + 1][..k] == ds[..k];
        assert Peak(ds[..k + 1]) == Max(Peak(ds[..k]), x);
        if d < x {
          d := x;
        }
      }
      assert ds[..|ds|] == ds;
    }

    /** `send_messages`, as for a factor node. */
    method SendMessages<F>(factors: seq<FactorNode<F, M>>)
      requires Targets(Data(), FactorsData(factors)) && Distinct(factors)
      modifies factors
      ensures FactorsData(factors) == Sent(Data(), old(FactorsData(factors)))
    {
      ghost var xs := FactorsData(factors);
      var n := ZipLength(messages, senders);
      SentNothing(FirstSlots(Data(), 0), xs);
      for k := 0 to n
        invariant FactorsData(factors) == Sent(FirstSlots(Data(), k), xs)
      {
        var target := senders[k];
        var f := factors[target.node];
        ghost var before := FactorsData(factors);
        assert before[target.node] == f.Data();
        forall a | 0 <= a < |factors| && a != target.node ensures factors[a] != f {
          DistinctAt(factors, a, target.node);
        }
        f.receivers := f.receivers[target.slot := messages[k]];
        ghost var after := FactorsData(factors);
        assert after[target.node] == before[target.node].(receivers := before[target.node].receivers[target.slot := messages[k]]);
        assert forall a :: 0 <= a < |before| && a != target.node ==> after[a] == before[a];
        SentStep(Data(), k, xs, before, after);
      }
      SentAll(Data(), xs);
    }
  }

  /** Writing slot k of x into `before` (ys once slots 0..k-1 are written)
      yields ys once slots 0..k are written. */
  lemma SentStep<K1, K2, M>(x: Node<K1, M>, k: nat, ys: seq<Node<K2, M>>, before: seq<Node<K2, M>>, after: seq<Node<K2, M>>)
    requires Targets(x, ys) && k < Visited(x)
    requires before == Sent(FirstSlots(x, k), ys)
    requires |after| == |before|
    requires var t := x.senders[k];
      after[t.node] == before[t.node].(receivers := before[t.node].receivers[t.slot := x.messages[k]]) &&
      forall j :: 0 <= j < |before| && j != t.node ==> after[j] == before[j]
    ensures after == Sent(FirstSlots(x, k + 1), ys)
  {
    var t := x.senders[k];
    var want := Sent(FirstSlots(x, k + 1), ys);
    var s, m := x.senders[..k + 1], x.messages[..k + 1];
    assert Visited(FirstSlots(x, k + 1)) == k + 1 && Visited(FirstSlots(x, k)) == k;
    assert FirstSlots(x, k + 1).senders[..k + 1] == s;
    assert FirstSlots(x, k).senders[..k] == s[..k];
    assert FirstSlots(x, k + 1).messages[..k + 1] == m;
    assert FirstSlots(x, k).messages[..k] == m[..k];
    forall j | 0 <= j < |ys| ensures after[j] == want[j] {
      assert |after[j].receivers| == |want[j].receivers|;
      forall r | 0 <= r < |ys[j].receivers| ensures after[j].receivers[r] == want[j].receivers[r] {
        assert want[j].receivers[r] == Delivered(s, m, Ptr(j, r), ys[j].receivers[r]);
        assert before[j].receivers[r] == Delivered(s[..k], m[..k], Ptr(j, r), ys[j].receivers[r]);
      }
      assert after[j].receivers == want[j].receivers;
    }
    assert |after| == |want|;
  }

  /** All visited slots written: the full `send_messages`. */
  lemma SentAll<K1, K2, M>(x: Node<K1, M>, ys: seq<Node<K2, M>>)
    ensures Sent(FirstSlots(x, Visited(x)), ys) == Sent(x, ys)
  {
    var n := Visited(x);
    var x' := FirstSlots(x, n);
    assert Visited(x') == n;
    assert x'.senders[..n] == x.senders[..n];
    assert x'.messages[..n] == x.messages[..n];
    var a, b := Sent(x', ys), Sent(x, ys);
    forall j | 0 <= j < |ys| ensures a[j] == b[j] {
      assert a[j].receivers == b[j].receivers;
    }
  }

  /** A node with no visited slot writes nothing. */
  lemma SentNothing<K1, K2, M>(x: Node<K1, M>, ys: seq<Node<K2, M>>)
    requires Visited(x) == 0
    ensures Sent(x, ys) == ys
  {
    var s := Sent(x, ys);
    forall j | 0 <= j < |ys| ensures s[j] == ys[j] {
      assert s[j].receivers == ys[j].receivers;
    }
  }
}
