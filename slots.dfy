/** Receiver slots, the raw pointers that designate them, and the two folds the
    nodes run over their slots: writing messages through the pointers and taking
    the maximum discrepancy. */
module Slots {

  /** A sender: the `*mut Message` a node keeps for one of its slots, written as
      the (node index, receiver index) it points at on the other side of the
      graph. `Null` is the `null_mut()` placeholder the builder pushes. */
  datatype Sender = Null | Ptr(node: nat, slot: nat)

  /** `f64::max`, and equally the `if max < d { max = d }` update of the nodes. */
  function Max(a: real, b: real): real
  {
    if a < b then b else a
  }

  /** The maximum of `ds`, folded from the identity 0 as the nodes and the
      reductions of a sweep do. */
  function Peak(ds: seq<real>): (m: real)
    ensures 0.0 <= m
    ensures forall k :: 0 <= k < |ds| ==> ds[k] <= m
    ensures m == 0.0 || exists k :: 0 <= k < |ds| && m == ds[k]
    decreases |ds|
  {
    if ds == [] then 0.0 else Max(Peak(ds[..|ds| - 1]), ds[|ds| - 1])
  }

  /** The value a receiver slot `p` holds after `msgs[k]` has been written
      through `senders[k]` for every k in order, when it held `initial` before:
      the last write to `p` wins. */
  function Delivered<M>(senders: seq<Sender>, msgs: seq<M>, p: Sender, initial: M): M
    requires |msgs| == |senders|
    decreases |senders|
  {
    if senders == [] then initial
    else if senders[|senders| - 1] == p then msgs[|msgs| - 1]
    else Delivered(senders[..|senders| - 1], msgs[..|msgs| - 1], p, initial)
  }

  /** The slot receives the message of the last sender that designates it. */
  lemma {:induction false} DeliveredLast<M>(senders: seq<Sender>, msgs: seq<M>, p: Sender, initial: M, k: nat)
    requires |msgs| == |senders| && k < |senders| && senders[k] == p
    requires forall j :: k < j < |senders| ==> senders[j] != p
    ensures Delivered(senders, msgs, p, initial) == msgs[k]
    decreases |senders|
  {
    if k < |senders| - 1 {
      DeliveredLast(senders[..|senders| - 1], msgs[..|msgs| - 1], p, initial, k);
    }
  }

  /** A slot that no sender designates keeps its value. */
  lemma {:induction false} DeliveredNone<M>(senders: seq<Sender>, msgs: seq<M>, p: Sender, initial: M)
    requires |msgs| == |senders|
    requires forall j :: 0 <= j < |senders| ==> senders[j] != p
    ensures Delivered(senders, msgs, p, initial) == initial
    decreases |senders|
  {
    if senders != [] {
      DeliveredNone(senders[..|senders| - 1], msgs[..|msgs| - 1], p, initial);
    }
  }

  /** Length of `a.iter().zip(b)`. */
  function ZipLength<A, B>(a: seq<A>, b: seq<B>): nat
  {
    if |a| < |b| then |a| else |b|
  }
}
