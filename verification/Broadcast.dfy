/** A room broadcast end to end: the worker's choice between one room-wide message and one message
    per player (backend/room_manager.py:1878-1936, backend/virtual_transport.py:90-143), and the
    gateway's expansion of either into the sessions' queues (gateway/fanout.go:31-72). */
module Broadcast {
  import opened Models
  import BQ = BoundedQueue

  type Payload = string

  /* How a player is reached: not from this worker, by a real WebSocket, or through the queue of a
     gateway stream. */
  datatype Transport =
    | Remote
    | Socket(handle: nat)
    | Virtual(playerId: string, roomCode: string, queue: nat)

  datatype Recipient = Recipient(connected: bool, ws: Transport)

  /* A protobuf BroadcastMessage; no targets means the whole room. */
  datatype Wire = Wire(room: string, lossy: bool, payload: Payload, targets: seq<string>)

  datatype Send = ToSocket(handle: nat, data: Payload) | ToQueue(queue: nat, wire: Wire)

  predicate Local(r: Recipient) { r.connected && !r.ws.Remote? }

  function Queues(rs: seq<Recipient>): set<nat> {
    set i | 0 <= i < |rs| && rs[i].connected && rs[i].ws.Virtual? :: rs[i].ws.queue
  }

  predicate AnySocket(rs: seq<Recipient>) { exists i :: 0 <= i < |rs| && rs[i].connected && rs[i].ws.Socket? }

  predicate UsesFastPath(rs: seq<Recipient>) { |Queues(rs)| == 1 && !AnySocket(rs) }

  function SendTo(r: Recipient, payload: Payload, lossy: bool): seq<Send> {
    if !Local(r) then []
    else match r.ws
      case Socket(h) => [ToSocket(h, payload)]
      case Virtual(id, room, q) => [ToQueue(q, Wire(room, lossy, payload, [id]))]
      case Remote => []
  }

  /* One send per connected local player, in list order. */
  function PerPlayer(rs: seq<Recipient>, payload: Payload, lossy: bool): seq<Send> {
    if rs == [] then [] else PerPlayer(rs[..|rs| - 1], payload, lossy) + SendTo(rs[|rs| - 1], payload, lossy)
  }

  ghost predicate OnStream(r: Recipient) { r.connected && r.ws.Virtual? }

  ghost predicate OneStream(rs: seq<Recipient>) {
    && (exists i :: 0 <= i < |rs| && OnStream(rs[i]))
    && (forall i, j :: 0 <= i < |rs| && 0 <= j < |rs| && OnStream(rs[i]) && OnStream(rs[j]) ==>
          rs[i].ws.queue == rs[j].ws.queue)
  }

  /* The fast path is taken exactly when some connected player has a stream, all who have one share
     it, and nobody has a real socket. */
  lemma FastPathExactly(rs: seq<Recipient>)
    ensures UsesFastPath(rs) <==>
            OneStream(rs) && forall i :: 0 <= i < |rs| && rs[i].connected ==> !rs[i].ws.Socket?
  {
    if |Queues(rs)| == 1 {
      OneQueue(rs);
    }
    if OneStream(rs) {
      var i :| 0 <= i < |rs| && OnStream(rs[i]);
      assert Queues(rs) == {rs[i].ws.queue};
    }
  }

  lemma OneQueue(rs: seq<Recipient>)
    requires |Queues(rs)| == 1
    ensures OneStream(rs)
  {
    var q :| q in Queues(rs);
    OnlyOne(Queues(rs), q);
    var k :| 0 <= k < |rs| && rs[k].connected && rs[k].ws.Virtual? && rs[k].ws.queue == q;
    assert OnStream(rs[k]);
    forall i | 0 <= i < |rs| && OnStream(rs[i])
      ensures rs[i].ws.queue == q
    {
      assert rs[i].ws.queue in Queues(rs);
    }
  }

  lemma OnlyOne(s: set<nat>, q: nat)
    requires |s| == 1 && q in s
    ensures s == {q}
  {
    assert |s - {q}| == 0;
  }

  /* The send that brings the payload to this recipient, and to nobody else. */
  ghost predicate Serves(s: Send, r: Recipient, payload: Payload, lossy: bool) {
    match r.ws
    case Socket(h) => s == ToSocket(h, payload)
    case Virtual(id, room, q) => s == ToQueue(q, Wire(room, lossy, payload, [id]))
    case Remote => false
  }

  /* The positions of the recipients who are connected and local, in order. */
  ghost predicate Positions(rs: seq<Recipient>, at: seq<nat>) {
    && (forall i, j :: 0 <= i < j < |at| ==> at[i] < at[j])
    && (forall k :: 0 <= k < |at| ==> at[k] < |rs| && rs[at[k]].connected && !rs[at[k]].ws.Remote?)
    && (forall i :: 0 <= i < |rs| && rs[i].connected && !rs[i].ws.Remote? ==> i in at)
  }

  /* One send for each of them, and no other. */
  ghost predicate ServesEach(rs: seq<Recipient>, payload: Payload, lossy: bool, out: seq<Send>) {
    exists at: seq<nat> :: Positions(rs, at) && Pairwise(rs, at, payload, lossy, out)
  }

  ghost predicate Pairwise(rs: seq<Recipient>, at: seq<nat>, payload: Payload, lossy: bool, out: seq<Send>) {
    && |out| == |at|
    && forall k :: 0 <= k < |at| ==> at[k] < |rs| && Serves(out[k], rs[at[k]], payload, lossy)
  }

  lemma PositionsSnoc(rs: seq<Recipient>, at: seq<nat>)
    requires rs != [] && Positions(rs[..|rs| - 1], at)
    ensures var n := |rs| - 1; Positions(rs, if Local(rs[n]) then at + [n] else at)
  {
    var n := |rs| - 1;
    assert forall i :: 0 <= i < n ==> rs[..n][i] == rs[i];
    if Local(rs[n]) {
      assert forall i :: i in at ==> i in at + [n];
    }
  }

  lemma {:induction false} PerPlayerServes(rs: seq<Recipient>, payload: Payload, lossy: bool) returns (at: seq<nat>)
    ensures Positions(rs, at) && Pairwise(rs, at, payload, lossy, PerPlayer(rs, payload, lossy))
  {
    if rs == [] {
      at := [];
    } else {
      var n := |rs| - 1;
      at := PerPlayerServes(rs[..n], payload, lossy);
      PositionsSnoc(rs, at);
      PairwiseSnoc(rs, at, payload, lossy);
      at := if Local(rs[n]) then at + [n] else at;
    }
  }

  lemma LastSend(r: Recipient, payload: Payload, lossy: bool)
    ensures Local(r) ==> |SendTo(r, payload, lossy)| == 1 && Serves(SendTo(r, payload, lossy)[0], r, payload, lossy)
    ensures !Local(r) ==> SendTo(r, payload, lossy) == []
  {
  }

  lemma PairwiseMore(rs: seq<Recipient>, at: seq<nat>, payload: Payload, lossy: bool, out: seq<Send>)
    requires rs != [] && Pairwise(rs[..|rs| - 1], at, payload, lossy, out)
    ensures Pairwise(rs, at, payload, lossy, out)
  {
    forall k | 0 <= k < |at|
      ensures at[k] < |rs| && Serves(out[k], rs[at[k]], payload, lossy)
    {
      assert rs[..|rs| - 1][at[k]] == rs[at[k]];
    }
  }

  lemma PairwiseAppend(rs: seq<Recipient>, at: seq<nat>, payload: Payload, lossy: bool, out: seq<Send>, n: nat, s: Send)
    requires Pairwise(rs, at, payload, lossy, out) && n < |rs| && Serves(s, rs[n], payload, lossy)
    ensures Pairwise(rs, at + [n], payload, lossy, out + [s])
  {
  }

  lemma PairwiseSnoc(rs: seq<Recipient>, at: seq<nat>, payload: Payload, lossy: bool)
    requires rs != []
    requires Pairwise(rs[..|rs| - 1], at, payload, lossy, PerPlayer(rs[..|rs| - 1], payload, lossy))
    ensures var n := |rs| - 1;
            Pairwise(rs, if Local(rs[n]) then at + [n] else at, payload, lossy, PerPlayer(rs, payload, lossy))
  {
    var n := |rs| - 1;
    var before, s := PerPlayer(rs[..n], payload, lossy), SendTo(rs[n], payload, lossy);
    PairwiseMore(rs, at, payload, lossy, before);
    LastSend(rs[n], payload, lossy);
    if Local(rs[n]) {
      PairwiseAppend(rs, at, payload, lossy, before, n, s[0]);
      assert before + [s[0]] == before + s;
    } else {
      assert before + s == before;
    }
  }

  method BroadcastRoom(rs: seq<Recipient>, code: string, payload: Payload, lossy: bool) returns (out: seq<Send>)
    ensures UsesFastPath(rs) ==>
              exists q :: Queues(rs) == {q} && out == [ToQueue(q, Wire(code, lossy, payload, []))]
    ensures !UsesFastPath(rs) ==> out == PerPlayer(rs, payload, lossy) && ServesEach(rs, payload, lossy, out)
  {
    ghost var at := PerPlayerServes(rs, payload, lossy);
    var seen, single, hasSocket := Survey(rs);
    if |seen| == 1 && !hasSocket {
      out := [ToQueue(single, Wire(code, lossy, payload, []))];
    } else {
      out := SendEach(rs, payload, lossy);
    }
  }

  /* The pass that collects the distinct stream queues and looks for real sockets. */
  method Survey(rs: seq<Recipient>) returns (seen: set<nat>, single: nat, hasSocket: bool)
    ensures seen == Queues(rs) && hasSocket == AnySocket(rs) && (|seen| == 1 ==> seen == {single})
  {
    seen, single, hasSocket := {}, 0, false;
    for i := 0 to |rs|
      invariant seen == Queues(rs[..i])
      invariant hasSocket == AnySocket(rs[..i])
      invariant |seen| == 1 ==> seen == {single}
    {
      QueuesSnoc(rs[..i], rs[i]);
      assert rs[..i + 1] == rs[..i] + [rs[i]];
      var ws := rs[i].ws;
      if !ws.Remote? && rs[i].connected {
        if ws.Virtual? {
          if ws.queue !in seen {
            if seen == {} {
              single := ws.queue;
            }
            seen := seen + {ws.queue};
          }
        } else {
          hasSocket := true;
        }
      }
    }
    assert rs[..|rs|] == rs;
  }

  method SendEach(rs: seq<Recipient>, payload: Payload, lossy: bool) returns (out: seq<Send>)
    ensures out == PerPlayer(rs, payload, lossy) && ServesEach(rs, payload, lossy, out)
  {
    ghost var at := PerPlayerServes(rs, payload, lossy);
    out := [];
    for i := 0 to |rs|
      invariant out == PerPlayer(rs[..i], payload, lossy)
    {
      assert rs[..i + 1][..i] == rs[..i];
      out := out + SendTo(rs[i], payload, lossy);
    }
    assert rs[..|rs|] == rs;
  }

  lemma QueuesSnoc(rs: seq<Recipient>, r: Recipient)
    ensures Queues(rs + [r]) == Queues(rs) + if r.connected && r.ws.Virtual? then {r.ws.queue} else {}
    ensures AnySocket(rs + [r]) <==> AnySocket(rs) || (r.connected && r.ws.Socket?)
  {
    var all := rs + [r];
    assert all[|rs|] == r;
    assert forall i :: 0 <= i < |rs| ==> all[i] == rs[i];
    forall q | q in Queues(rs)
      ensures q in Queues(all)
    {
      var i :| 0 <= i < |rs| && rs[i].connected && rs[i].ws.Virtual? && rs[i].ws.queue == q;
      assert all[i].ws.queue == q;
    }
    if AnySocket(rs) {
      var i :| 0 <= i < |rs| && rs[i].connected && rs[i].ws.Socket?;
      assert all[i].ws.Socket?;
    }
  }

  // ---- The gateway ----

  datatype Session = Session(room: string, inbox: seq<Payload>)

  type Sessions = map<string, Session>

  function Offer(s: Session, w: Wire, capacity: Pos): Session {
    s.(inbox := BQ.After(s.inbox, w.payload, w.lossy, capacity))
  }

  function DeliverRoom(ss: Sessions, w: Wire, capacity: Pos): Sessions {
    map id | id in ss :: if ss[id].room == w.room then Offer(ss[id], w, capacity) else ss[id]
  }

  function DeliverTargets(ss: Sessions, w: Wire, ids: seq<string>, capacity: Pos): Sessions {
    if ids == [] then ss
    else
      var before := DeliverTargets(ss, w, ids[..|ids| - 1], capacity);
      var id := ids[|ids| - 1];
      if id in before then before[id := Offer(before[id], w, capacity)] else before
  }

  function Deliver(ss: Sessions, w: Wire, capacity: Pos): Sessions {
    if w.targets != [] then DeliverTargets(ss, w, w.targets, capacity)
    else if w.room == "" then ss
    else DeliverRoom(ss, w, capacity)
  }

  function DeliverAll(ss: Sessions, ws: seq<Wire>, capacity: Pos): Sessions {
    if ws == [] then ss
    else Deliver(DeliverAll(ss, ws[..|ws| - 1], capacity), ws[|ws| - 1], capacity)
  }

  class FanOutDispatcher {
    const capacity: Pos
    var sessions: Sessions

    constructor (capacity: Pos, sessions: Sessions)
      ensures this.capacity == capacity && this.sessions == sessions
    {
      this.capacity, this.sessions := capacity, sessions;
    }

    method DeliverMessage(w: Wire)
      modifies this
      ensures sessions == Deliver(old(sessions), w, capacity)
    {
      if |w.targets| == 0 {
        if w.room == "" {
          return;
        }
        var todo := set id | id in sessions && sessions[id].room == w.room;
        while todo != {}
          invariant todo <= sessions.Keys && sessions.Keys == old(sessions).Keys
          invariant forall id :: id in todo ==> sessions[id] == old(sessions)[id] && sessions[id].room == w.room
          invariant forall id :: id in sessions && id !in todo ==>
                      sessions[id] == if old(sessions)[id].room == w.room then Offer(old(sessions)[id], w, capacity)
                                      else old(sessions)[id]
          decreases |todo|
        {
          var id :| id in todo;
          sessions := sessions[id := Offer(sessions[id], w, capacity)];
          todo := todo - {id};
        }
      } else {
        for k := 0 to |w.targets|
          invariant sessions == DeliverTargets(old(sessions), w, w.targets[..k], capacity)
        {
          assert w.targets[..k + 1][..k] == w.targets[..k];
          var id := w.targets[k];
          if id in sessions {
            sessions := sessions[id := Offer(sessions[id], w, capacity)];
          }
        }
        assert w.targets[..|w.targets|] == w.targets;
      }
    }
  }

  // ---- The two ways agree ----

  ghost predicate Distinct(ids: seq<string>) { forall i, j :: 0 <= i < j < |ids| ==> ids[i] != ids[j] }

  /* One message for each player in turn, with the same payload and class. */
  ghost predicate TargetsEach(ws: seq<Wire>, ids: seq<string>, payload: Payload, lossy: bool) {
    |ws| == |ids| &&
    forall i :: 0 <= i < |ws| ==> ws[i].targets == [ids[i]] && ws[i].payload == payload && ws[i].lossy == lossy
  }

  /* After the first n targeted messages exactly the first n players' sessions have had one offer. */
  lemma {:induction false} TargetedState(ss: Sessions, ws: seq<Wire>, ids: seq<string>, w: Wire, capacity: Pos, n: nat)
    requires Distinct(ids) && n <= |ids| && TargetsEach(ws, ids, w.payload, w.lossy)
    ensures DeliverAll(ss, ws[..n], capacity)
            == map id | id in ss :: if id in ids[..n] then Offer(ss[id], w, capacity) else ss[id]
  {
    if n > 0 {
      TargetedState(ss, ws, ids, w, capacity, n - 1);
      assert ws[..n][..n - 1] == ws[..n - 1];
      var before := DeliverAll(ss, ws[..n - 1], capacity);
      OneTarget(before, ws[n - 1], ids[n - 1], capacity);
      assert ids[n - 1] !in ids[..n - 1];
      assert ids[..n] == ids[..n - 1] + [ids[n - 1]];
    }
  }

  /* A message with several targets is offered once to the session of each, and to no other. */
  lemma {:induction false} TargetsExactly(ss: Sessions, w: Wire, ids: seq<string>, capacity: Pos)
    requires Distinct(ids)
    ensures DeliverTargets(ss, w, ids, capacity)
            == map id | id in ss :: if id in ids then Offer(ss[id], w, capacity) else ss[id]
  {
    if ids != [] {
      var n := |ids| - 1;
      TargetsExactly(ss, w, ids[..n], capacity);
      assert ids == ids[..n] + [ids[n]];
      assert ids[n] !in ids[..n];
    }
  }

  /* A message without targets and room reaches nobody. */
  lemma NowhereToGo(ss: Sessions, w: Wire, capacity: Pos)
    requires w.targets == [] && w.room == ""
    ensures Deliver(ss, w, capacity) == ss
  {
  }

  lemma OneTarget(ss: Sessions, w: Wire, id: string, capacity: Pos)
    requires w.targets == [id]
    ensures Deliver(ss, w, capacity) == if id in ss then ss[id := Offer(ss[id], w, capacity)] else ss
  {
    assert [id][..0] == [];
    assert DeliverTargets(ss, w, [], capacity) == ss;
  }

  /* When the gateway's sessions of the room are exactly the targets, one room-wide message and one
     message per target leave the gateway in the same state. */
  lemma RoomWideEqualsTargeted(ss: Sessions, room: string, ws: seq<Wire>, ids: seq<string>, payload: Payload,
                               lossy: bool, capacity: Pos)
    requires room != "" && Distinct(ids) && TargetsEach(ws, ids, payload, lossy) && SessionsAre(ss, room, ids)
    ensures Deliver(ss, Wire(room, lossy, payload, []), capacity) == DeliverAll(ss, ws, capacity)
  {
    TargetedState(ss, ws, ids, Wire(room, lossy, payload, []), capacity, |ids|);
    assert ws[..|ids|] == ws && ids[..|ids|] == ids;
  }

  function WireOf(s: Send): seq<Wire> { if s.ToQueue? then [s.wire] else [] }

  /* What a list of sends puts on gateway streams. */
  function Wires(sends: seq<Send>): seq<Wire> {
    if sends == [] then [] else Wires(sends[..|sends| - 1]) + WireOf(sends[|sends| - 1])
  }

  lemma {:induction false} PerPlayerTargetsEach(rs: seq<Recipient>, payload: Payload, lossy: bool)
    ensures TargetsEach(Wires(PerPlayer(rs, payload, lossy)), VirtualIds(rs), payload, lossy)
  {
    if rs != [] {
      var n := |rs| - 1;
      PerPlayerTargetsEach(rs[..n], payload, lossy);
      WiresConcat(PerPlayer(rs[..n], payload, lossy), SendTo(rs[n], payload, lossy));
    }
  }

  lemma WiresConcat(a: seq<Send>, b: seq<Send>)
    requires |b| <= 1
    ensures Wires(a + b) == Wires(a) + if b == [] then [] else WireOf(b[0])
  {
    if b == [] {
      assert a + b == a;
      assert Wires(a) + [] == Wires(a);
    } else {
      assert (a + b)[..|a|] == a && (a + b)[|a|] == b[0];
    }
  }

  /* With the gateway's sessions of the room matching the connected players, one room-wide message
     does to every session what a message to each player would have done. */
  lemma SameAtGateway(rs: seq<Recipient>, w: Wire, ss: Sessions, capacity: Pos)
    requires w.room != "" && w.targets == [] && Distinct(VirtualIds(rs)) && SessionsAre(ss, w.room, VirtualIds(rs))
    ensures Deliver(ss, w, capacity) == DeliverAll(ss, Wires(PerPlayer(rs, w.payload, w.lossy)), capacity)
  {
    var ws := Wires(PerPlayer(rs, w.payload, w.lossy));
    PerPlayerTargetsEach(rs, w.payload, w.lossy);
    RoomWideEqualsTargeted(ss, w.room, ws, VirtualIds(rs), w.payload, w.lossy, capacity);
  }

  /* Delivery changes no session's room. */
  ghost predicate SameRooms(ss: Sessions, tt: Sessions) {
    ss.Keys == tt.Keys && forall id :: id in ss ==> ss[id].room == tt[id].room
  }

  lemma {:induction false} TargetsSameRooms(ss: Sessions, w: Wire, ids: seq<string>, capacity: Pos)
    ensures SameRooms(ss, DeliverTargets(ss, w, ids, capacity))
  {
    if ids != [] {
      TargetsSameRooms(ss, w, ids[..|ids| - 1], capacity);
    }
  }

  lemma {:induction false} DeliverAllSameRooms(ss: Sessions, ws: seq<Wire>, capacity: Pos)
    ensures SameRooms(ss, DeliverAll(ss, ws, capacity))
  {
    if ws != [] {
      var n := |ws| - 1;
      DeliverAllSameRooms(ss, ws[..n], capacity);
      TargetsSameRooms(DeliverAll(ss, ws[..n], capacity), ws[n], ws[n].targets, capacity);
    }
  }

  lemma {:induction false} DeliverAllConcat(ss: Sessions, a: seq<Wire>, b: seq<Wire>, capacity: Pos)
    ensures DeliverAll(ss, a + b, capacity) == DeliverAll(DeliverAll(ss, a, capacity), b, capacity)
  {
    if b == [] {
      assert a + b == a;
    } else {
      var n := |b| - 1;
      DeliverAllConcat(ss, a, b[..n], capacity);
      assert (a + b)[..|a| + n] == a + b[..n];
    }
  }

  lemma DeliverOne(ss: Sessions, w: Wire, capacity: Pos)
    ensures DeliverAll(ss, [w], capacity) == Deliver(ss, w, capacity)
  {
    assert [w][..0] == [];
    assert DeliverAll(ss, [], capacity) == ss;
  }

  lemma WiresOne(q: nat, w: Wire)
    ensures Wires([ToQueue(q, w)]) == [w]
  {
    WiresConcat([], [ToQueue(q, w)]);
    assert [] + [ToQueue(q, w)] == [ToQueue(q, w)];
    assert [] + [w] == [w];
  }

  /* The sessions of the room are those of the given players. */
  ghost predicate SessionsAre(ss: Sessions, room: string, ids: seq<string>) {
    forall id :: id in ss ==> (ss[id].room == room <==> id in ids)
  }

  /* The broadcast's fast path, end to end, over a stream queue that already holds `items`: with a
     single free slot it does to every session what sending to each player would have done with all
     the slots that needs; and so it does the same as those sends when they all fit. */
  lemma FastPathEqualsPerPlayer(rs: seq<Recipient>, w: Wire, q: nat, items: seq<Wire>, stream: Pos,
                                ss: Sessions, capacity: Pos)
    requires w.room != "" && w.targets == [] && Distinct(VirtualIds(rs)) && SessionsAre(ss, w.room, VirtualIds(rs))
    requires |items| < stream
    ensures var each := Wires(PerPlayer(rs, w.payload, w.lossy));
            var fast := DeliverAll(ss, PutAll(items, Wires([ToQueue(q, w)]), stream), capacity);
            && fast == DeliverAll(ss, items + each, capacity)
            && |each| == |VirtualIds(rs)|
            && (|items| + |each| <= stream ==> fast == DeliverAll(ss, PutAll(items, each, stream), capacity))
  {
    var each := Wires(PerPlayer(rs, w.payload, w.lossy));
    PerPlayerTargetsEach(rs, w.payload, w.lossy);
    WiresOne(q, w);
    StreamKeepsAll(items, [w], stream);
    DeliverAllConcat(ss, items, [w], capacity);
    DeliverAllConcat(ss, items, each, capacity);
    var before := DeliverAll(ss, items, capacity);
    DeliverAllSameRooms(ss, items, capacity);
    DeliverOne(before, w, capacity);
    SameAtGateway(rs, w, before, capacity);
    if |items| + |each| <= stream {
      StreamKeepsAll(items, each, stream);
    }
  }

  /* Lossy sends that do not all fit: the last players get nothing, whatever the gateway does. */
  lemma {:induction false} StreamDropsLast(items: seq<Wire>, ws: seq<Wire>, stream: Pos)
    requires |items| <= stream && forall k :: 0 <= k < |ws| ==> ws[k].lossy
    ensures PutAll(items, ws, stream) == items + ws[..if |ws| <= stream - |items| then |ws| else stream - |items|]
  {
    if ws == [] {
      assert items + ws == items;
    } else {
      var n := |ws| - 1;
      StreamDropsLast(items, ws[..n], stream);
      if n < stream - |items| {
        assert ws[..n][..n] + [ws[n]] == ws[..n + 1];
        assert items + (ws[..n][..n] + [ws[n]]) == (items + ws[..n][..n]) + [ws[n]];
      } else {
        assert ws[..n][..stream - |items|] == ws[..stream - |items|];
      }
    }
  }

  /* Must-deliver sends that do not all fit: the oldest messages go, be they other traffic or this
     broadcast's own to the first players. */
  lemma {:induction false} StreamKeepsNewest(items: seq<Wire>, ws: seq<Wire>, stream: Pos)
    requires |items| <= stream && forall k :: 0 <= k < |ws| ==> !ws[k].lossy
    ensures PutAll(items, ws, stream) == Newest(items + ws, stream)
  {
    if ws == [] {
      assert items + ws == items && items[0..] == items;
    } else {
      var n := |ws| - 1;
      StreamKeepsNewest(items, ws[..n], stream);
      NewestAfter(items + ws[..n], ws[n], stream);
      assert (items + ws[..n]) + [ws[n]] == items + ws;
    }
  }

  function Newest(all: seq<Wire>, stream: Pos): seq<Wire> {
    if |all| <= stream then all else all[|all| - stream..]
  }

  lemma NewestAfter(all: seq<Wire>, w: Wire, stream: Pos)
    ensures BQ.After(Newest(all, stream), w, false, stream) == Newest(all + [w], stream)
  {
    if |all| >= stream {
      var kept := Newest(all, stream);
      assert kept == all[|all| - stream..];
      assert kept[1..] + [w] == (all + [w])[|all| + 1 - stream..];
    }
  }

  function PutAll(items: seq<Wire>, ws: seq<Wire>, capacity: Pos): seq<Wire> {
    if ws == [] then items
    else
      var w := ws[|ws| - 1];
      BQ.After(PutAll(items, ws[..|ws| - 1], capacity), w, w.lossy, capacity)
  }

  /* A stream queue with space for all of them passes the messages on whole and in order. */
  lemma {:induction false} StreamKeepsAll(items: seq<Wire>, ws: seq<Wire>, capacity: Pos)
    requires |items| + |ws| <= capacity
    ensures PutAll(items, ws, capacity) == items + ws
  {
    if ws == [] {
      assert items + ws == items;
    } else {
      var n := |ws| - 1;
      StreamKeepsAll(items, ws[..n], capacity);
      assert (items + ws[..n]) + [ws[n]] == items + ws;
    }
  }

  /* And with space in the queues that is one more copy of the payload for each of them. */
  lemma FastPathDeliversOnce(ss: Sessions, room: string, payload: Payload, lossy: bool, capacity: Pos, id: string)
    requires room != "" && id in ss && (ss[id].room == room ==> |ss[id].inbox| < capacity)
    ensures var after := Deliver(ss, Wire(room, lossy, payload, []), capacity);
            && id in after && after[id].room == ss[id].room
            && after[id].inbox == ss[id].inbox + if ss[id].room == room then [payload] else []
  {
  }

  // ---- Nobody twice ----

  function VirtualId(r: Recipient): seq<string> {
    if r.connected && r.ws.Virtual? then [r.ws.playerId] else []
  }

  function VirtualIds(rs: seq<Recipient>): seq<string> {
    if rs == [] then [] else VirtualIds(rs[..|rs| - 1]) + VirtualId(rs[|rs| - 1])
  }

  /* How often a send reaches the session of a player. */
  function Reach(s: Send, ss: Sessions, id: string): nat {
    if s.ToSocket? || id !in ss then 0
    else if s.wire.targets == [] then
      if s.wire.room != "" && ss[id].room == s.wire.room then 1 else 0
    else multiset(s.wire.targets)[id]
  }

  function ReachAll(sends: seq<Send>, ss: Sessions, id: string): nat {
    if sends == [] then 0 else ReachAll(sends[..|sends| - 1], ss, id) + Reach(sends[|sends| - 1], ss, id)
  }

  lemma ReachConcat(a: seq<Send>, b: seq<Send>, ss: Sessions, id: string)
    requires |b| <= 1
    ensures ReachAll(a + b, ss, id) == ReachAll(a, ss, id) + if b == [] then 0 else Reach(b[0], ss, id)
  {
    if b == [] {
      assert a + b == a;
    } else {
      assert (a + b)[..|a|] == a && (a + b)[|a|] == b[0];
    }
  }

  lemma SendReach(r: Recipient, payload: Payload, lossy: bool, ss: Sessions, id: string)
    ensures var b := SendTo(r, payload, lossy);
            && |b| <= 1
            && (if b == [] then 0 else Reach(b[0], ss, id)) == if id in ss then multiset(VirtualId(r))[id] else 0
  {
  }

  lemma {:induction false} PerPlayerReach(rs: seq<Recipient>, payload: Payload, lossy: bool, ss: Sessions, id: string)
    ensures ReachAll(PerPlayer(rs, payload, lossy), ss, id) == if id in ss then multiset(VirtualIds(rs))[id] else 0
  {
    if rs != [] {
      var n := |rs| - 1;
      PerPlayerReach(rs[..n], payload, lossy, ss, id);
      SendReach(rs[n], payload, lossy, ss, id);
      ReachConcat(PerPlayer(rs[..n], payload, lossy), SendTo(rs[n], payload, lossy), ss, id);
    }
  }

  lemma {:induction false} DistinctOnce(ids: seq<string>, id: string)
    requires Distinct(ids)
    ensures multiset(ids)[id] <= 1
  {
    if ids != [] {
      var n := |ids| - 1;
      DistinctOnce(ids[..n], id);
      assert ids == ids[..n] + [ids[n]];
      if ids[n] == id {
        assert id !in ids[..n];
      }
    }
  }

  /* Whatever transports the players have, no session is offered a broadcast twice: a room that
     spans several streams or has a real socket falls back to one send per player. */
  lemma NobodyTwice(rs: seq<Recipient>, code: string, payload: Payload, lossy: bool, out: seq<Send>,
                    ss: Sessions, id: string)
    requires Distinct(VirtualIds(rs))
    requires if UsesFastPath(rs) then exists q :: out == [ToQueue(q, Wire(code, lossy, payload, []))]
             else out == PerPlayer(rs, payload, lossy)
    ensures ReachAll(out, ss, id) <= 1
  {
    if UsesFastPath(rs) {
      assert out[..0] == [];
      assert ReachAll([], ss, id) == 0;
    } else {
      PerPlayerReach(rs, payload, lossy, ss, id);
      DistinctOnce(VirtualIds(rs), id);
    }
  }

  /* Two room-wide messages, one for each of two streams, would reach every session of the room twice. */
  lemma TwoRoomWideReachTwice(p: nat, q: nat, w: Wire, ss: Sessions, id: string)
    requires w.targets == [] && w.room != "" && id in ss && ss[id].room == w.room
    ensures ReachAll([ToQueue(p, w), ToQueue(q, w)], ss, id) == 2
  {
    var two := [ToQueue(p, w), ToQueue(q, w)];
    assert two[..1] == [ToQueue(p, w)] && [ToQueue(p, w)][..0] == [];
    assert ReachAll([], ss, id) == 0;
    assert ReachAll(two[..1], ss, id) == 1;
  }
}
