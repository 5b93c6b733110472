/** A session's channel and its write pump together (gateway/fanout.go:105-148 and
    gateway/session.go:279-391): what a client reads of what was offered to it. The pump receives one
    message at a time, between any two offers; how it cuts what it receives into bursts is left open. */
module Delivery {
  import opened Models
  import BQ = BoundedQueue
  import opened WritePump

  ghost predicate OffersWellFormed(actions: seq<BQ.Action<Bytes>>) {
    forall k :: 0 <= k < |actions| && actions[k].Offer? ==> WellFormed(actions[k].m.payload)
  }

  /* The messages that the pump has received, in that order. */
  ghost function Received(l: BQ.Ledger<Bytes>): seq<Bytes>
    requires BQ.InOrder(l)
  {
    seq(|l.consumed|, k requires 0 <= k < |l.consumed| => l.offered[l.consumed[k]].payload)
  }

  ghost predicate LedgerWellFormed(l: BQ.Ledger<Bytes>) {
    forall k :: 0 <= k < |l.offered| ==> WellFormed(l.offered[k].payload)
  }

  lemma {:induction false} OfferedWellFormed(actions: seq<BQ.Action<Bytes>>, capacity: Pos)
    requires OffersWellFormed(actions)
    ensures LedgerWellFormed(BQ.Run(actions, capacity))
  {
    if actions != [] {
      var n := |actions| - 1;
      assert actions[n].Offer? ==> WellFormed(actions[n].m.payload);
      OfferedWellFormed(actions[..n], capacity);
    }
  }

  lemma ReceivedWellFormed(l: BQ.Ledger<Bytes>)
    requires BQ.InOrder(l) && LedgerWellFormed(l)
    ensures AllWellFormed(Received(l))
  {
  }

  /* For every run of offers and receives and every way of cutting it into bursts: the client reads
     exactly the messages received, each once and in the order they were offered, if and only if no
     text burst drains a binary message; every other offer is still queued, was refused as lossy, or
     was evicted by a must-deliver message at least the capacity later. */
  lemma ClientReadsExactly(actions: seq<BQ.Action<Bytes>>, capacity: Pos, gs: seq<Glimpse>, coalesce: bool)
    requires OffersWellFormed(actions)
    ensures var l := BQ.Run(actions, capacity);
            && BQ.Accounted(l, capacity)
            && (ReadAll(Pump(Received(l), gs, coalesce)) == Some(Received(l))
                <==> Unmixed(Received(l), gs, coalesce))
  {
    var l := BQ.Run(actions, capacity);
    BQ.RunAccounted(actions, capacity);
    OfferedWellFormed(actions, capacity);
    ReceivedWellFormed(l);
    ReadsBackExactly(Received(l), gs, coalesce);
  }

  /* However the bursts are cut, exactly when nothing is coalesced or no text message is received
     directly before a binary one. */
  lemma ClientAlwaysReadsExactly(actions: seq<BQ.Action<Bytes>>, capacity: Pos, coalesce: bool)
    requires OffersWellFormed(actions)
    ensures var l := BQ.Run(actions, capacity);
            && BQ.Accounted(l, capacity)
            && ((forall gs :: ReadAll(Pump(Received(l), gs, coalesce)) == Some(Received(l)))
                <==> !coalesce || BinaryFirst(Received(l)))
  {
    var l := BQ.Run(actions, capacity);
    BQ.RunAccounted(actions, capacity);
    OfferedWellFormed(actions, capacity);
    ReceivedWellFormed(l);
    SafeQueuesExactly(Received(l), coalesce);
  }
}
