/** The bounded outbound queues with class-aware backpressure: a player's SendCh
    (gateway/fanout.go:105-148) and a stream's send queue (backend/virtual_transport.py:145-164).
    Both drop a lossy message when full and evict the oldest one for a must-deliver message. */
module BoundedQueue {
  import opened Models

  datatype Message<T> = Message(payload: T, lossy: bool)

  /* Every offer is named by its place in `offered`; an evicted offer is recorded together with the
     offer that pushed it out. */
  datatype Ledger<T> = Ledger(
    offered: seq<Message<T>>,
    queue: seq<nat>,
    consumed: seq<nat>,
    refused: set<nat>,
    evicted: map<nat, nat>)

  datatype Action<T> = Offer(m: Message<T>) | Consume

  function Put<T>(l: Ledger<T>, m: Message<T>, capacity: Pos): Ledger<T> {
    var i := |l.offered|;
    var l1 := l.(offered := l.offered + [m]);
    if |l.queue| < capacity then l1.(queue := l.queue + [i])
    else if m.lossy then l1.(refused := l.refused + {i})
    else l1.(queue := l.queue[1..] + [i], evicted := l.evicted[l.queue[0] := i])
  }

  function Take<T>(l: Ledger<T>): Ledger<T> {
    if l.queue == [] then l else l.(queue := l.queue[1..], consumed := l.consumed + [l.queue[0]])
  }

  function Act<T>(l: Ledger<T>, a: Action<T>, capacity: Pos): Ledger<T> {
    match a
    case Offer(m) => Put(l, m, capacity)
    case Consume => Take(l)
  }

  function Run<T>(actions: seq<Action<T>>, capacity: Pos): Ledger<T> {
    if actions == [] then Ledger([], [], [], {}, map[])
    else Act(Run(actions[..|actions| - 1], capacity), actions[|actions| - 1], capacity)
  }

  ghost predicate Ascending(s: seq<nat>) {
    forall j, k :: 0 <= j < k < |s| ==> s[j] < s[k]
  }

  /* What became of offer i, one way at a time. */
  ghost predicate OneFate<T>(l: Ledger<T>, i: nat) {
    || (i in l.consumed && i !in l.queue && i !in l.refused && i !in l.evicted)
    || (i !in l.consumed && i in l.queue && i !in l.refused && i !in l.evicted)
    || (i !in l.consumed && i !in l.queue && i in l.refused && i !in l.evicted)
    || (i !in l.consumed && i !in l.queue && i !in l.refused && i in l.evicted)
  }

  ghost predicate InOrder<T>(l: Ledger<T>) {
    && Ascending(l.consumed + l.queue)
    && (forall k :: 0 <= k < |l.consumed| ==> l.consumed[k] < |l.offered|)
    && (forall k :: 0 <= k < |l.queue| ==> l.queue[k] < |l.offered|)
  }

  ghost predicate Dropped<T>(l: Ledger<T>, capacity: Pos) {
    && (forall i :: i in l.refused ==> i < |l.offered| && l.offered[i].lossy)
    && (forall i :: i in l.evicted ==>
         i + capacity <= l.evicted[i] < |l.offered| && !l.offered[l.evicted[i]].lossy)
  }

  ghost predicate Accounted<T>(l: Ledger<T>, capacity: Pos) {
    && |l.queue| <= capacity
    && InOrder(l)
    && Dropped(l, capacity)
    && (forall i :: 0 <= i < |l.offered| ==> OneFate(l, i))
    && |l.offered| == |l.consumed| + |l.queue| + |l.refused| + |l.evicted|
  }

  /* A full ascending queue spans at least its length, so its head is that many offers old. */
  lemma {:induction false} HeadIsOld(q: seq<nat>, bound: nat)
    requires q != [] && Ascending(q) && q[|q| - 1] < bound
    ensures q[0] + |q| <= bound
  {
    if |q| > 1 {
      HeadIsOld(q[..|q| - 1], q[|q| - 1]);
    }
  }

  lemma QueueAscends<T>(l: Ledger<T>)
    requires InOrder(l)
    ensures Ascending(l.queue)
    ensures forall j, k :: 0 <= j < |l.consumed| && 0 <= k < |l.queue| ==> l.consumed[j] < l.queue[k]
  {
    var s := l.consumed + l.queue;
    assert forall k :: 0 <= k < |l.queue| ==> l.queue[k] == s[|l.consumed| + k];
    assert forall k :: 0 <= k < |l.consumed| ==> l.consumed[k] == s[k];
  }

  lemma AscendDrop(a: seq<nat>, q: seq<nat>)
    requires q != [] && Ascending(a + q)
    ensures Ascending(a + q[1..])
  {
    var s, r := a + q, a + q[1..];
    forall j, k | 0 <= j < k < |r|
      ensures r[j] < r[k]
    {
      assert r[j] == s[if j < |a| then j else j + 1];
      assert r[k] == s[if k < |a| then k else k + 1];
    }
  }

  lemma PutInOrder<T>(l: Ledger<T>, m: Message<T>, capacity: Pos)
    requires Accounted(l, capacity)
    ensures InOrder(Put(l, m, capacity))
  {
    var r, i := Put(l, m, capacity), |l.offered|;
    if |l.queue| < capacity {
      assert r.consumed + r.queue == (l.consumed + l.queue) + [i];
    } else if !m.lossy {
      AscendDrop(l.consumed, l.queue);
      assert r.consumed + r.queue == (l.consumed + l.queue[1..]) + [i];
    }
  }

  lemma PutDropped<T>(l: Ledger<T>, m: Message<T>, capacity: Pos)
    requires Accounted(l, capacity)
    ensures Dropped(Put(l, m, capacity), capacity)
  {
    QueueAscends(l);
    if l.queue != [] {
      HeadIsOld(l.queue, |l.offered|);
    }
  }

  lemma PutFates<T>(l: Ledger<T>, m: Message<T>, capacity: Pos, i: nat)
    requires Accounted(l, capacity) && i <= |l.offered|
    ensures OneFate(Put(l, m, capacity), i)
  {
    QueueAscends(l);
    var l' := Put(l, m, capacity);
    if i < |l.offered| {
      assert OneFate(l, i);
      if |l.queue| == capacity {
        assert l.queue == [l.queue[0]] + l.queue[1..];
      }
    }
  }

  lemma PutCount<T>(l: Ledger<T>, m: Message<T>, capacity: Pos)
    requires Accounted(l, capacity)
    ensures var r := Put(l, m, capacity);
            |r.offered| == |r.consumed| + |r.queue| + |r.refused| + |r.evicted|
  {
    QueueAscends(l);
    if |l.queue| == capacity {
      assert OneFate(l, l.queue[0]);
    }
  }

  lemma PutKeeps<T>(l: Ledger<T>, m: Message<T>, capacity: Pos)
    requires Accounted(l, capacity)
    ensures Accounted(Put(l, m, capacity), capacity)
  {
    PutInOrder(l, m, capacity);
    PutDropped(l, m, capacity);
    PutCount(l, m, capacity);
    forall i | 0 <= i < |l.offered| + 1
      ensures OneFate(Put(l, m, capacity), i)
    {
      PutFates(l, m, capacity, i);
    }
  }

  lemma TakeKeeps<T>(l: Ledger<T>, capacity: Pos)
    requires Accounted(l, capacity)
    ensures Accounted(Take(l), capacity)
  {
    if l.queue != [] {
      QueueAscends(l);
      var r := Take(l);
      assert l.queue == [l.queue[0]] + l.queue[1..];
      assert r.consumed + r.queue == l.consumed + l.queue;
      forall i | 0 <= i < |l.offered|
        ensures OneFate(r, i)
      {
        assert OneFate(l, i);
      }
    }
  }

  /* Over every run: the queue stays within capacity, consumed and queued messages keep their order,
     each offer has exactly one fate and the fates add up, only lossy messages are refused, and a
     message is evicted only by a must-deliver one at least `capacity` offers later. */
  lemma {:induction false} RunAccounted<T>(actions: seq<Action<T>>, capacity: Pos)
    ensures Accounted(Run(actions, capacity), capacity)
  {
    if actions != [] {
      RunAccounted(actions[..|actions| - 1], capacity);
      var l := Run(actions[..|actions| - 1], capacity);
      match actions[|actions| - 1]
      case Offer(m) => PutKeeps(l, m, capacity);
      case Consume => TakeKeeps(l, capacity);
    }
  }

  /* In particular a must-deliver message is queued or was queued: it is never refused. */
  lemma MustDeliverNeverRefused<T>(actions: seq<Action<T>>, capacity: Pos, i: nat)
    requires i < |Run(actions, capacity).offered| && !Run(actions, capacity).offered[i].lossy
    ensures i !in Run(actions, capacity).refused
  {
    RunAccounted(actions, capacity);
  }

  /* The queue's payloads after an offer. */
  function After<T>(items: seq<T>, payload: T, lossy: bool, capacity: Pos): seq<T> {
    if |items| < capacity then items + [payload]
    else if lossy then items
    else items[1..] + [payload]
  }

  /* What the queue holds. */
  ghost function Payloads<T>(l: Ledger<T>): seq<T>
    requires forall k :: 0 <= k < |l.queue| ==> l.queue[k] < |l.offered|
  {
    seq(|l.queue|, k requires 0 <= k < |l.queue| => l.offered[l.queue[k]].payload)
  }

  lemma PutPayloads<T>(l: Ledger<T>, m: Message<T>, capacity: Pos)
    requires Accounted(l, capacity)
    ensures InOrder(Put(l, m, capacity))
    ensures Payloads(Put(l, m, capacity)) == After(Payloads(l), m.payload, m.lossy, capacity)
  {
    PutInOrder(l, m, capacity);
  }

  lemma RefusedCount<T>(l: Ledger<T>, m: Message<T>, capacity: Pos)
    requires Accounted(l, capacity)
    ensures |Put(l, m, capacity).refused| == |l.refused| + if |l.queue| == capacity && m.lossy then 1 else 0
  {
    assert |l.offered| !in l.refused;
  }

  class SendQueue<T> {
    const capacity: Pos
    var items: seq<T>
    var delivered: nat
    var dropped: nat
    ghost var ledger: Ledger<T>

    ghost predicate Valid()
      reads this
    {
      && Accounted(ledger, capacity)
      && items == Payloads(ledger)
      && dropped == |ledger.refused|
      && delivered + dropped == |ledger.offered|
    }

    constructor (capacity: Pos)
      ensures Valid() && items == [] && ledger == Run<T>([], capacity) && this.capacity == capacity
    {
      this.capacity := capacity;
      items, delivered, dropped, ledger := [], 0, 0, Ledger([], [], [], {}, map[]);
    }

    /* A non-blocking send. */
    method TrySend(payload: T) returns (sent: bool)
      modifies this`items
      ensures sent == (|old(items)| < capacity)
      ensures items == if sent then old(items) + [payload] else old(items)
    {
      sent := |items| < capacity;
      if sent {
        items := items + [payload];
      }
    }

    /* The backpressure rule on the channel itself. */
    method Offer(payload: T, lossy: bool)
      requires |items| <= capacity
      modifies this`items, this`delivered, this`dropped
      ensures items == After(old(items), payload, lossy, capacity)
      ensures if |old(items)| == capacity && lossy
              then dropped == old(dropped) + 1 && delivered == old(delivered)
              else dropped == old(dropped) && delivered == old(delivered) + 1
    {
      var sent := TrySend(payload);
      if sent {
        delivered := delivered + 1;
      } else if lossy {
        dropped := dropped + 1;
      } else {
        items := items[1..];
        sent := TrySend(payload);
        // With one producer step at a time the second send finds the room just made.
        assert sent;
        delivered := delivered + 1;
      }
    }

    method Enqueue(payload: T, lossy: bool)
      requires Valid()
      modifies this
      ensures Valid() && ledger == Put(old(ledger), Message(payload, lossy), capacity)
      ensures items == After(old(items), payload, lossy, capacity)
    {
      PutKeeps(ledger, Message(payload, lossy), capacity);
      PutPayloads(ledger, Message(payload, lossy), capacity);
      RefusedCount(ledger, Message(payload, lossy), capacity);
      Offer(payload, lossy);
      ledger := Put(ledger, Message(payload, lossy), capacity);
    }

    method Receive() returns (r: Option<T>)
      requires Valid()
      modifies this
      ensures Valid() && ledger == Take(old(ledger))
      ensures r == if old(items) == [] then None else Some(old(items)[0])
      ensures items == if old(items) == [] then [] else old(items)[1..]
    {
      if items == [] {
        return None;
      }
      TakeKeeps(ledger, capacity);
      ledger := Take(ledger);
      r := Some(items[0]);
      items := items[1..];
    }
  }
}
