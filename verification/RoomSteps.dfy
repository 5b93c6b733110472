/** What each operation of the room registry does, in terms of who is listed, connected and host
    (backend/room_manager.py): when it is refused, what changes and what does not. */
module RoomSteps {
  import opened Models
  import opened RoomManager
  import opened RoomSafety
  import opened VoteSafety

  // ---- Counts and hosts ----

  function IsSpectator(): Player -> bool { (p: Player) => p.spectator }

  lemma {:induction false} SpectatorsExactly(ps: seq<Player>)
    requires UniqueIds(ps)
    ensures Spectators(ps) == |IdsWhere(ps, IsSpectator())|
  {
    if ps != [] {
      SpectatorsExactly(ps[1..]);
      IdsWhereStep(ps, IsSpectator());
    }
  }

  /* Room for one more: twelve players or fewer as configured, and fifty spectators. */
  ghost predicate HasRoom(r: Room, spectator: bool) {
    if spectator then |IdsWhere(r.players, IsSpectator())| < 50
    else |IdsWhere(r.players, IsActive())| < r.config.maxPlayers && |IdsWhere(r.players, IsActive())| < 12
  }

  lemma AdmitsExactly(r: Room, spectator: bool)
    requires UniqueIds(r.players)
    ensures Admits(r, spectator) <==> HasRoom(r, spectator)
  {
    CountsExactly(r.players);
    SpectatorsExactly(r.players);
  }

  ghost predicate FirstOf(ps: seq<Player>, kind: Player -> bool, p: Player) {
    exists i :: 0 <= i < |ps| && ps[i] == p && kind(p) && forall j :: 0 <= j < i ==> !kind(ps[j])
  }

  ghost predicate Any(ps: seq<Player>, kind: Player -> bool) { exists i :: 0 <= i < |ps| && kind(ps[i]) }

  lemma {:induction false} FirstConnectedExactly(ps: seq<Player>, spectators: bool)
    ensures var kind := if spectators then IsConnected() else CanDraw();
            && (FirstConnected(ps, spectators).Some? <==> Any(ps, kind))
            && (FirstConnected(ps, spectators).Some? ==> FirstOf(ps, kind, FirstConnected(ps, spectators).value))
  {
    var kind := if spectators then IsConnected() else CanDraw();
    if ps != [] {
      var tail := ps[1..];
      FirstConnectedExactly(tail, spectators);
      if kind(ps[0]) {
        assert FirstOf(ps, kind, ps[0]);
      } else {
        AnyInTail(ps, kind);
        if Any(tail, kind) {
          FirstInTail(ps, kind, FirstConnected(tail, spectators).value);
        }
      }
    }
  }

  lemma AnyInTail(ps: seq<Player>, kind: Player -> bool)
    requires ps != [] && !kind(ps[0])
    ensures Any(ps, kind) <==> Any(ps[1..], kind)
  {
    if i :| 0 <= i < |ps| && kind(ps[i]) {
      assert ps[1..][i - 1] == ps[i];
    }
    if i :| 0 <= i < |ps[1..]| && kind(ps[1..][i]) {
      assert ps[i + 1] == ps[1..][i];
    }
  }

  lemma FirstInTail(ps: seq<Player>, kind: Player -> bool, p: Player)
    requires ps != [] && !kind(ps[0]) && FirstOf(ps[1..], kind, p)
    ensures FirstOf(ps, kind, p)
  {
    var tail := ps[1..];
    var i :| 0 <= i < |tail| && tail[i] == p && kind(p) && forall j :: 0 <= j < i ==> !kind(tail[j]);
    forall j | 0 <= j < i + 1
      ensures !kind(ps[j])
    {
      if j > 0 {
        assert ps[j] == tail[j - 1];
      }
    }
    assert ps[i + 1] == p;
  }

  /* The next host is the first connected non-spectator in list order, or else the first connected
     player; there is none exactly when nobody is connected. */
  lemma NextHostExactly(ps: seq<Player>)
    ensures NextHost(ps).Some? <==> Any(ps, IsConnected())
    ensures NextHost(ps).Some? ==>
              FirstOf(ps, if Any(ps, CanDraw()) then CanDraw() else IsConnected(), NextHost(ps).value)
  {
    FirstConnectedExactly(ps, false);
    FirstConnectedExactly(ps, true);
    if i :| 0 <= i < |ps| && CanDraw()(ps[i]) {
      assert IsConnected()(ps[i]);
    }
  }

  // ---- Coming in ----

  /* Nothing but the room c and the map of players to rooms has changed. */
  ghost predicate OnlyRoom(m: Manager, r: Manager, c: string) {
    && r.rooms - {c} == m.rooms - {c} && r.votes == m.votes && r.restored == m.restored
  }

  /* A new room has its creator as only player and host, and is in the lobby. */
  lemma CreateExactly(m: Manager, code: string, creator: Player, config: GameConfig)
    ensures var r := CreateRoom(m, code, creator, config);
            && OnlyRoom(m, r, code) && r.playerToRoom == m.playerToRoom[creator.id := code]
            && code in r.rooms
            && var e := r.rooms[code];
               && e.room.players == [creator] && e.byId == map[creator.id := creator]
               && e.room.code == code && e.room.hostId == creator.id && e.room.config == config
               && e.room.state == Lobby && e.room.turn.None? && e.room.currentRound == 0 && e.room.drawerIndex == 0
  {
  }

  ghost predicate Admitted(m: Manager, r: Manager, c: string, p: Player) {
    && OnlyRoom(m, r, c) && c in m.rooms && c in r.rooms
    && r.rooms[c].room == m.rooms[c].room.(players := m.rooms[c].room.players + [p])
    && r.rooms[c].byId == m.rooms[c].byId[p.id := p]
    && r.playerToRoom == m.playerToRoom[p.id := c]
  }

  /* A join is admitted exactly when the room exists, is in the lobby or the player watches or has the
     host's approval, and there is room; the player then stands last. Otherwise nothing changes. */
  lemma JoinExactly(m: Manager, c: string, p: Player, approved: bool)
    requires Inv(m)
    ensures var ok := && c in m.rooms && HasRoom(m.rooms[c].room, p.spectator)
                      && (m.rooms[c].room.state == Lobby || p.spectator || approved);
            && (ok ==> Admitted(m, Join(m, c, p, approved), c, p))
            && (!ok ==> Join(m, c, p, approved) == m)
  {
    if c in m.rooms {
      assert Good(m.rooms[c], c, m.restored);
      AdmitsExactly(m.rooms[c].room, p.spectator);
    }
  }

  /* One listed player has become q, in the list and in the index. */
  ghost predicate Rewritten(m: Manager, r: Manager, c: string, q: Player) {
    && OnlyRoom(m, r, c) && r.playerToRoom == m.playerToRoom && c in m.rooms && c in r.rooms
    && r.rooms[c].room == m.rooms[c].room.(players := r.rooms[c].room.players)
    && |r.rooms[c].room.players| == |m.rooms[c].room.players|
    && (forall i :: 0 <= i < |m.rooms[c].room.players| ==>
          r.rooms[c].room.players[i] ==
          if m.rooms[c].room.players[i].id == q.id then q else m.rooms[c].room.players[i])
    && q.id in m.rooms[c].byId && r.rooms[c].byId == m.rooms[c].byId[q.id := q]
  }

  lemma SetRewrites(m: Manager, c: string, q: Player)
    requires c in m.rooms && q.id in m.rooms[c].byId
    ensures Rewritten(m, PutRoom(m, c, SetPlayer(m.rooms[c], q)), c, q)
  {
  }

  lemma ListedByIndex(m: Manager, c: string, id: string)
    requires Inv(m) && c in m.rooms
    ensures GetPlayer(m.rooms[c], id).Some? <==> id in m.rooms[c].byId
    ensures id in m.rooms[c].byId ==>
              GetPlayer(m.rooms[c], id) == Some(m.rooms[c].byId[id]) && m.rooms[c].byId[id].id == id
  {
    assert Good(m.rooms[c], c, m.restored);
    LookupIsScan(m.rooms[c], id);
  }

  /* A connected spectator becomes a player from zero exactly when there is room for a player. */
  lemma AcceptRoleExactly(m: Manager, c: string, id: string)
    requires Inv(m)
    ensures var ok := && c in m.rooms && id in m.rooms[c].byId
                      && m.rooms[c].byId[id].connected && m.rooms[c].byId[id].spectator
                      && HasRoom(m.rooms[c].room, false);
            && (ok ==> Rewritten(m, AcceptRole(m, c, id), c,
                                 m.rooms[c].byId[id].(spectator := false, score := 0, hasGuessed := false)))
            && (!ok ==> AcceptRole(m, c, id) == m)
  {
    if c in m.rooms {
      ListedByIndex(m, c, id);
      assert Good(m.rooms[c], c, m.restored);
      AdmitsExactly(m.rooms[c].room, false);
      if AcceptRole(m, c, id) != m {
        SetRewrites(m, c, m.rooms[c].byId[id].(spectator := false, score := 0, hasGuessed := false));
      }
    }
  }

  /* A member who comes back is connected again. */
  lemma ReconnectExactly(m: Manager, c: string, id: string)
    requires Inv(m)
    ensures var ok := c in m.rooms && id in m.rooms[c].byId;
            && (ok ==> Rewritten(m, Reconnect(m, c, id), c,
                                 m.rooms[c].byId[id].(connected := true, disconnectTime := None)))
            && (!ok ==> Reconnect(m, c, id) == m)
  {
    if c in m.rooms {
      ListedByIndex(m, c, id);
      if id in m.rooms[c].byId {
        SetRewrites(m, c, m.rooms[c].byId[id].(connected := true, disconnectTime := None));
      }
    }
  }

  /* A restored room is registered with all its players. */
  lemma RestoreExactly(m: Manager, c: string, e: Entry)
    ensures var r := Restore(m, c, e);
            && r.rooms == m.rooms[c := e] && r.votes == m.votes && r.restored == m.restored + {c}
            && forall id :: (id in r.playerToRoom <==> id in m.playerToRoom || id in e.byId)
                            && (id in e.byId ==> r.playerToRoom[id] == c)
                            && (id in m.playerToRoom && id !in e.byId ==> r.playerToRoom[id] == m.playerToRoom[id])
  {
  }

  // ---- Going ----

  /* The player is out of the room, which has the given host; the others keep their order. */
  ghost predicate TakenOut(m: Manager, r: Manager, c: string, id: string, host: string) {
    && OnlyRoom(m, r, c) && r.playerToRoom == m.playerToRoom - {id} && c in m.rooms && c in r.rooms
    && r.rooms[c].byId == m.rooms[c].byId - {id}
    && r.rooms[c].room == m.rooms[c].room.(players := r.rooms[c].room.players, hostId := host)
    && OneLess(m.rooms[c].room.players, r.rooms[c].room.players, id)
  }

  ghost predicate OneLess(ps: seq<Player>, qs: seq<Player>, id: string) {
    exists i :: 0 <= i < |ps| && ps[i].id == id && qs == ps[..i] + ps[i + 1..]
  }

  lemma WithoutIsOneLess(e: Entry, c: string, id: string)
    requires Sound(e, c) && id in e.byId
    ensures OneLess(e.room.players, Without(e.room.players, id), id)
  {
    var ps := e.room.players;
    var i :| 0 <= i < |ps| && ps[i].id == id;
    WithoutExactly(ps, i);
  }

  lemma DepartChanges(m: Manager, c: string, id: string, host: string)
    requires c in m.rooms && OneLess(m.rooms[c].room.players, Without(m.rooms[c].room.players, id), id)
    ensures TakenOut(m, Depart(m, c, id, host), c, id, host)
  {
  }

  lemma DepartTakesOut(m: Manager, c: string, id: string, host: string)
    requires Inv(m) && c in m.rooms && id in m.rooms[c].byId
    ensures TakenOut(m, Depart(m, c, id, host), c, id, host)
  {
    assert Sound(m.rooms[c], c) by {
      assert Good(m.rooms[c], c, m.restored);
    }
    WithoutIsOneLess(m.rooms[c], c, id);
    DepartChanges(m, c, id, host);
  }

  /* The room is gone with its vote, and its players are in no room. */
  ghost predicate RoomGone(m: Manager, r: Manager, c: string) {
    && c in m.rooms && r.rooms == m.rooms - {c} && r.votes == m.votes - {c} && r.restored == m.restored - {c}
    && r.playerToRoom == m.playerToRoom - m.rooms[c].byId.Keys
  }

  lemma DeleteIsGone(m: Manager, c: string)
    requires Inv(m) && c in m.rooms
    ensures RoomGone(m, DeleteRoom(m, c), c)
  {
    assert Good(m.rooms[c], c, m.restored);
  }

  lemma DepartDeleteIsGone(m: Manager, c: string, id: string, host: string)
    requires Inv(m) && c in m.rooms && id in m.rooms[c].byId
    ensures RoomGone(m, DeleteRoom(Depart(m, c, id, host), c), c)
  {
    assert id in Ids(m.rooms[c].room.players) by {
      assert Good(m.rooms[c], c, m.restored);
    }
    DepartDelete(m, c, id, host);
    DeleteIsGone(m, c);
  }

  /* Those who stay when a player goes. */
  ghost function Others(m: Manager, c: string, id: string): seq<Player>
    requires c in m.rooms
  {
    Without(m.rooms[c].room.players, id)
  }

  lemma OthersInOrder(m: Manager, c: string, i: nat)
    requires Inv(m) && c in m.rooms && i < |m.rooms[c].room.players|
    ensures var ps := m.rooms[c].room.players; Others(m, c, ps[i].id) == ps[..i] + ps[i + 1..]
  {
    assert Good(m.rooms[c], c, m.restored);
    WithoutExactly(m.rooms[c].room.players, i);
  }

  /* Leaving works in the lobby only; the last one out closes the room; a host who leaves is followed
     by the first of the others. */
  lemma LeaveExactly(m: Manager, id: string)
    requires Inv(m)
    ensures FindRoom(m, id).None? ==> Leave(m, id) == m
    ensures FindRoom(m, id).Some? ==>
              var c := FindRoom(m, id).value;
              && c in m.rooms
              && var h, others := m.rooms[c].room.hostId, Others(m, c, id);
                 && (m.rooms[c].room.state != Lobby ==> Leave(m, id) == m)
                 && (m.rooms[c].room.state == Lobby && others == [] ==> RoomGone(m, Leave(m, id), c))
                 && (m.rooms[c].room.state == Lobby && others != [] ==>
                      TakenOut(m, Leave(m, id), c, id, if h == id then others[0].id else h))
  {
    if FindRoom(m, id).Some? {
      FoundRoom(m, id);
      var c := FindRoom(m, id).value;
      var h, others := m.rooms[c].room.hostId, Others(m, c, id);
      DepartDeleteIsGone(m, c, id, h);
      if others != [] {
        DepartTakesOut(m, c, id, if h == id then others[0].id else h);
      }
    }
  }

  /* The host after a player has gone: the same, or the next in line, or else the given one. */
  ghost predicate Heir(others: seq<Player>, was: string, gone: string, host: string, last: string) {
    if was != gone then host == was
    else if Any(others, IsConnected()) then
      exists p: Player ::
        p.id == host && FirstOf(others, if Any(others, CanDraw()) then CanDraw() else IsConnected(), p)
    else host == last
  }

  lemma NextIsHeir(others: seq<Player>, was: string, gone: string, last: string)
    ensures Heir(others, was, gone,
                 if was != gone then was else if NextHost(others).Some? then NextHost(others).value.id else last, last)
  {
    NextHostExactly(others);
    if NextHost(others).Some? {
      assert NextHost(others).value.id == NextHost(others).value.id;
    }
  }

  ghost predicate TakenOutTo(m: Manager, r: Manager, c: string, id: string, last: string) {
    && c in m.rooms
    && exists host :: TakenOut(m, r, c, id, host) && Heir(Others(m, c, id), m.rooms[c].room.hostId, id, host, last)
  }

  /* A removed player who was host is followed by the next in line, or else by the first of the
     others; the last one out closes the room. */
  lemma RemoveExactly(m: Manager, id: string)
    requires Inv(m)
    ensures FindRoom(m, id).None? ==> Remove(m, id) == m
    ensures FindRoom(m, id).Some? ==>
              var c := FindRoom(m, id).value;
              && c in m.rooms
              && var others := Others(m, c, id);
                 && (others == [] ==> RoomGone(m, Remove(m, id), c))
                 && (others != [] ==> TakenOutTo(m, Remove(m, id), c, id, others[0].id))
  {
    if FindRoom(m, id).Some? {
      FoundRoom(m, id);
      RemoveFrom(m, FindRoom(m, id).value, id);
    }
  }

  lemma RemoveFrom(m: Manager, c: string, id: string)
    requires Inv(m) && FindRoom(m, id) == Some(c) && c in m.rooms && id in m.rooms[c].byId
    ensures var others := Others(m, c, id);
            && (others == [] ==> RoomGone(m, Remove(m, id), c))
            && (others != [] ==> TakenOutTo(m, Remove(m, id), c, id, others[0].id))
  {
    var h, others := m.rooms[c].room.hostId, Others(m, c, id);
    if others == [] {
      DepartDeleteIsGone(m, c, id, h);
    } else {
      var next := NextHost(others);
      var host := if h != id then h else if next.Some? then next.value.id else others[0].id;
      DepartTakesOut(m, c, id, host);
      NextIsHeir(others, h, id, others[0].id);
    }
  }

  /* When the grace window ends, a room in which nobody else is connected goes; otherwise a host is
     followed by the next in line. */
  lemma ExpireExactly(m: Manager, id: string)
    requires Inv(m)
    ensures FindRoom(m, id).None? ==> Expire(m, id) == m
    ensures FindRoom(m, id).Some? ==>
              var c := FindRoom(m, id).value;
              && c in m.rooms
              && (!Any(Others(m, c, id), IsConnected()) ==> RoomGone(m, Expire(m, id), c))
              && (Any(Others(m, c, id), IsConnected()) ==> TakenOutTo(m, Expire(m, id), c, id, id))
  {
    if FindRoom(m, id).Some? {
      FoundRoom(m, id);
      ExpireFrom(m, FindRoom(m, id).value, id);
    }
  }

  lemma ExpireFrom(m: Manager, c: string, id: string)
    requires Inv(m) && FindRoom(m, id) == Some(c) && c in m.rooms && id in m.rooms[c].byId
    ensures !Any(Others(m, c, id), IsConnected()) ==> RoomGone(m, Expire(m, id), c)
    ensures Any(Others(m, c, id), IsConnected()) ==> TakenOutTo(m, Expire(m, id), c, id, id)
  {
    var h, others := m.rooms[c].room.hostId, Others(m, c, id);
    var next := NextHost(others);
    NextHostExactly(others);
    if next.None? {
      DepartDeleteIsGone(m, c, id, h);
    } else {
      DepartTakesOut(m, c, id, if h != id then h else next.value.id);
      NextIsHeir(others, h, id, id);
    }
  }

  /* The host can take out another listed player in the lobby, and nobody else can. */
  lemma HostKickExactly(m: Manager, host: string, target: string)
    requires Inv(m)
    ensures FindRoom(m, host).None? ==> HostKick(m, host, target) == m
    ensures FindRoom(m, host).Some? ==>
              var c := FindRoom(m, host).value;
              && c in m.rooms
              && var ok := && m.rooms[c].room.hostId == host && m.rooms[c].room.state == Lobby
                           && target in m.rooms[c].byId && target != host;
                 && (ok ==> TakenOut(m, HostKick(m, host, target), c, target, host))
                 && (!ok ==> HostKick(m, host, target) == m)
  {
    if FindRoom(m, host).Some? {
      FoundRoom(m, host);
      var c := FindRoom(m, host).value;
      ListedByIndex(m, c, target);
      if target in m.rooms[c].byId {
        DepartTakesOut(m, c, target, m.rooms[c].room.hostId);
      }
    }
  }

  /* A player voted out goes, and a host voted out is followed by the next in line. */
  lemma ExecuteKickExactly(m: Manager, c: string, target: string)
    requires Inv(m) && c in m.rooms && target in m.rooms[c].byId
    ensures TakenOutTo(m, ExecuteKick(m, c, target), c, target, target)
  {
    var h, others := m.rooms[c].room.hostId, Others(m, c, target);
    var next := NextHost(others);
    DepartTakesOut(m, c, target, if h == target && next.Some? then next.value.id else h);
    NextIsHeir(others, h, target, target);
  }

  // ---- Hosts ----

  ghost predicate Rehosted(m: Manager, r: Manager, c: string, host: string) {
    && OnlyRoom(m, r, c) && r.playerToRoom == m.playerToRoom && c in m.rooms && c in r.rooms
    && r.rooms[c] == m.rooms[c].(room := m.rooms[c].room.(hostId := host))
  }

  lemma RehostIs(m: Manager, c: string, host: string)
    requires c in m.rooms
    ensures Rehosted(m, PutRoom(m, c, m.rooms[c].(room := m.rooms[c].room.(hostId := host))), c, host)
  {
  }

  /* The host hands over to another connected player who is no spectator. */
  lemma TransferHostExactly(m: Manager, host: string, target: string)
    requires Inv(m)
    ensures FindRoom(m, host).None? ==> TransferHost(m, host, target) == m
    ensures FindRoom(m, host).Some? ==>
              var c := FindRoom(m, host).value;
              && c in m.rooms
              && var ok := && m.rooms[c].room.hostId == host && target != host && target in m.rooms[c].byId
                           && m.rooms[c].byId[target].connected && !m.rooms[c].byId[target].spectator;
                 && (ok ==> Rehosted(m, TransferHost(m, host, target), c, target))
                 && (!ok ==> TransferHost(m, host, target) == m)
  {
    if FindRoom(m, host).Some? {
      FoundRoom(m, host);
      var c := FindRoom(m, host).value;
      ListedByIndex(m, c, target);
      RehostIs(m, c, target);
    }
  }

  ghost predicate RehostedToNext(m: Manager, r: Manager, c: string) {
    && c in m.rooms
    && exists p: Player :: && Rehosted(m, r, c, p.id)
                   && FirstOf(m.rooms[c].room.players,
                              if Any(m.rooms[c].room.players, CanDraw()) then CanDraw() else IsConnected(), p)
  }

  /* A host who is still away is replaced by the next in line; with nobody connected a lobby or a
     finished game goes, and a game under way is left alone. */
  lemma ReassignHostExactly(m: Manager, c: string, oldHost: string)
    requires Inv(m)
    ensures var away := && c in m.rooms && m.rooms[c].room.hostId == oldHost
                        && !(oldHost in m.rooms[c].byId && m.rooms[c].byId[oldHost].connected);
            var r := ReassignHost(m, c, oldHost);
            && (!away ==> r == m)
            && (away && Any(m.rooms[c].room.players, IsConnected()) ==> RehostedToNext(m, r, c))
            && (away && !Any(m.rooms[c].room.players, IsConnected()) && !InPlay(m.rooms[c].room) ==> RoomGone(m, r, c))
            && (away && !Any(m.rooms[c].room.players, IsConnected()) && InPlay(m.rooms[c].room) ==> r == m)
  {
    if c in m.rooms {
      ListedByIndex(m, c, oldHost);
      if m.rooms[c].room.hostId == oldHost && !(oldHost in m.rooms[c].byId && m.rooms[c].byId[oldHost].connected) {
        AwayHost(m, c, oldHost);
      }
    }
  }

  lemma AwayHost(m: Manager, c: string, oldHost: string)
    requires Inv(m) && c in m.rooms && m.rooms[c].room.hostId == oldHost
    requires var p := GetPlayer(m.rooms[c], oldHost); p.Some? ==> !p.value.connected
    ensures var r, ps := ReassignHost(m, c, oldHost), m.rooms[c].room.players;
            && (Any(ps, IsConnected()) ==> RehostedToNext(m, r, c))
            && (!Any(ps, IsConnected()) && !InPlay(m.rooms[c].room) ==> RoomGone(m, r, c))
            && (!Any(ps, IsConnected()) && InPlay(m.rooms[c].room) ==> r == m)
  {
    NextHostExactly(m.rooms[c].room.players);
    match NextHost(m.rooms[c].room.players)
    case Some(next) => NextIsRehosted(m, c, next);
    case None => DeleteIsGone(m, c);
  }

  lemma NextIsRehosted(m: Manager, c: string, next: Player)
    requires c in m.rooms
    requires FirstOf(m.rooms[c].room.players,
                     if Any(m.rooms[c].room.players, CanDraw()) then CanDraw() else IsConnected(), next)
    ensures RehostedToNext(m, PutRoom(m, c, m.rooms[c].(room := m.rooms[c].room.(hostId := next.id))), c)
  {
    RehostIs(m, c, next.id);
  }

  predicate InPlay(r: Room) { r.state != Lobby && r.state != GameOver }
}
