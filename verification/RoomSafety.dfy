/** What every run of the room registry keeps. */
module RoomSafety {
  import opened Models
  import opened RoomManager

  ghost predicate Sound(e: Entry, c: string) { e.room.code == c && Indexed(e) }

  ghost predicate Hosted(e: Entry) { e.room.hostId in e.byId }

  ghost predicate WithinCaps(e: Entry) {
    Active(e.room.players) <= MAX_PLAYERS_HARD_CAP && Spectators(e.room.players) <= MAX_SPECTATORS
  }

  /* Indexes in agreement, host present, and capacity respected unless the room came from a snapshot. */
  ghost predicate Good(e: Entry, c: string, restored: set<string>) {
    Sound(e, c) && Hosted(e) && (c !in restored ==> WithinCaps(e))
  }

  ghost predicate AllGood(rooms: map<string, Entry>, restored: set<string>) {
    forall c :: c in rooms ==> Good(rooms[c], c, restored)
  }

  ghost function Members(rooms: map<string, Entry>): map<string, set<string>> {
    map c | c in rooms :: rooms[c].byId.Keys
  }

  /* The player-to-room map names exactly the room that has the player. */
  ghost predicate Mapped(members: map<string, set<string>>, p2r: map<string, string>) {
    && (forall id :: id in p2r ==> p2r[id] in members && id in members[p2r[id]])
    && (forall c, id :: c in members && id in members[c] ==> id in p2r && p2r[id] == c)
  }

  ghost predicate Inv(m: Manager) {
    && AllGood(m.rooms, m.restored)
    && Mapped(Members(m.rooms), m.playerToRoom)
    && m.votes.Keys <= m.rooms.Keys
  }

  /* List, index and map say the same about a player and a room. */
  lemma ListedIndexedMapped(m: Manager, c: string, id: string)
    requires Inv(m) && c in m.rooms
    ensures id in m.rooms[c].byId <==> id in Ids(m.rooms[c].room.players)
    ensures id in m.rooms[c].byId <==> GetPlayer(m.rooms[c], id).Some?
    ensures id in m.rooms[c].byId <==> id in m.playerToRoom && m.playerToRoom[id] == c
  {
    assert Good(m.rooms[c], c, m.restored);
    LookupIsScan(m.rooms[c], id);
    MappedExactly(Members(m.rooms), m.playerToRoom, c, id);
  }

  lemma MappedExactly(members: map<string, set<string>>, p2r: map<string, string>, c: string, id: string)
    requires Mapped(members, p2r) && c in members
    ensures id in members[c] <==> id in p2r && p2r[id] == c
  {
  }

  lemma MappedToRoom(m: Manager, id: string)
    requires Inv(m) && id in m.playerToRoom
    ensures m.playerToRoom[id] in m.rooms
  {
  }

  /* The indexed search for a player's room finds exactly the room that lists the player. */
  lemma FindRoomExact(m: Manager, id: string)
    requires Inv(m)
    ensures FindRoom(m, id).None? <==> forall c :: c in m.rooms ==> id !in Ids(m.rooms[c].room.players)
    ensures FindRoom(m, id).Some? ==>
              var c := FindRoom(m, id).value;
              c in m.rooms && id in m.rooms[c].byId && id in Ids(m.rooms[c].room.players)
  {
    if id in m.playerToRoom {
      MappedToRoom(m, id);
      ListedIndexedMapped(m, m.playerToRoom[id], id);
    } else {
      ScanFindsNothingNew(m, id);
    }
  }

  lemma FoundRoom(m: Manager, id: string)
    requires Inv(m) && FindRoom(m, id).Some?
    ensures FindRoom(m, id).value in m.rooms && id in m.rooms[FindRoom(m, id).value].byId
  {
    FindRoomExact(m, id);
  }

  /* The scan behind the index never finds what the index misses. */
  lemma ScanFindsNothingNew(m: Manager, id: string)
    requires Inv(m) && id !in m.playerToRoom
    ensures FindRoom(m, id).None?
    ensures forall c :: c in m.rooms ==> GetPlayer(m.rooms[c], id).None? && id !in Ids(m.rooms[c].room.players)
  {
    forall c | c in m.rooms
      ensures GetPlayer(m.rooms[c], id).None? && id !in Ids(m.rooms[c].room.players)
    {
      ListedIndexedMapped(m, c, id);
    }
  }

  // ---- Changing one room ----

  lemma MappedAdd(members: map<string, set<string>>, p2r: map<string, string>, c: string, id: string)
    requires Mapped(members, p2r) && id !in p2r
    ensures Mapped(members[c := (if c in members then members[c] else {}) + {id}], p2r[id := c])
  {
  }

  lemma MappedRemove(members: map<string, set<string>>, p2r: map<string, string>, c: string, id: string)
    requires Mapped(members, p2r) && c in members && id in members[c]
    ensures Mapped(members[c := members[c] - {id}], p2r - {id})
  {
    var left := members[c := members[c] - {id}];
    forall d, x | d in left && x in left[d]
      ensures x in p2r - {id} && (p2r - {id})[x] == d
    {
      assert x in members[d];
      assert p2r[id] == c;
    }
  }

  lemma MappedDelete(members: map<string, set<string>>, p2r: map<string, string>, c: string)
    requires Mapped(members, p2r) && c in members
    ensures Mapped(members - {c}, p2r - members[c])
  {
    var left := members - {c};
    forall d, x | d in left && x in left[d]
      ensures x in p2r - members[c] && (p2r - members[c])[x] == d
    {
      assert x in members[d] && p2r[x] == d;
    }
  }

  /* Storing a good room under a map that knows its members. */
  lemma StoreKeeps(m: Manager, c: string, e: Entry, p2r: map<string, string>)
    requires Inv(m) && Good(e, c, m.restored)
    requires Mapped(Members(m.rooms)[c := e.byId.Keys], p2r)
    ensures Inv(m.(rooms := m.rooms[c := e], playerToRoom := p2r))
  {
    assert Members(m.rooms[c := e]) == Members(m.rooms)[c := e.byId.Keys];
  }

  lemma PutKeeps(m: Manager, c: string, e: Entry)
    requires Inv(m) && c in m.rooms && Good(e, c, m.restored) && e.byId.Keys == m.rooms[c].byId.Keys
    ensures Inv(PutRoom(m, c, e))
  {
    assert Members(m.rooms)[c := e.byId.Keys] == Members(m.rooms);
    StoreKeeps(m, c, e, m.playerToRoom);
  }

  lemma DeleteKeeps(m: Manager, c: string)
    requires Inv(m) && c in m.rooms
    ensures Inv(DeleteRoom(m, c))
  {
    DeleteGood(m, c);
    assert m.rooms[c].byId.Keys == Ids(m.rooms[c].room.players) by {
      assert Good(m.rooms[c], c, m.restored);
    }
    DeleteMapped(m.rooms, m.playerToRoom, c);
  }

  lemma DeleteGood(m: Manager, c: string)
    requires AllGood(m.rooms, m.restored)
    ensures AllGood(m.rooms - {c}, m.restored - {c})
  {
    forall d | d in m.rooms - {c}
      ensures Good((m.rooms - {c})[d], d, m.restored - {c})
    {
      assert Good(m.rooms[d], d, m.restored);
    }
  }

  lemma MembersDelete(rooms: map<string, Entry>, c: string)
    ensures Members(rooms - {c}) == Members(rooms) - {c}
  {
  }

  lemma DeleteMapped(rooms: map<string, Entry>, p2r: map<string, string>, c: string)
    requires c in rooms && Mapped(Members(rooms), p2r)
    ensures Mapped(Members(rooms - {c}), p2r - rooms[c].byId.Keys)
  {
    MembersDelete(rooms, c);
    MappedDelete(Members(rooms), p2r, c);
    assert Members(rooms)[c] == rooms[c].byId.Keys;
  }

  // ---- Players of one room ----

  lemma RemoveSound(e: Entry, c: string, id: string)
    requires Sound(e, c)
    ensures Sound(RemovePlayer(e, id), c)
    ensures RemovePlayer(e, id).byId.Keys == e.byId.Keys - {id}
  {
    var ps := e.room.players;
    var qs := Without(ps, id);
    WithoutKeeps(ps, id);
    forall i | 0 <= i < |qs|
      ensures (e.byId - {id})[qs[i].id] == qs[i]
    {
      assert qs[i] in ps;
    }
  }

  lemma IdsAppend(ps: seq<Player>, p: Player)
    ensures Ids(ps + [p]) == Ids(ps) + {p.id}
    ensures UniqueIds(ps) && p.id !in Ids(ps) ==> UniqueIds(ps + [p])
  {
    var qs := ps + [p];
    assert qs[|ps|] == p;
    forall i | 0 <= i < |ps|
      ensures qs[i] == ps[i] && ps[i].id in Ids(ps) && ps[i].id in Ids(qs)
    {
      assert qs[i].id in Ids(qs);
    }
  }

  lemma AddSound(e: Entry, c: string, p: Player)
    requires Sound(e, c) && p.id !in e.byId
    ensures Sound(AddPlayer(e, p), c)
    ensures AddPlayer(e, p).byId.Keys == e.byId.Keys + {p.id}
  {
    IdsAppend(e.room.players, p);
    forall i | 0 <= i < |e.room.players|
      ensures e.byId[p.id := p][e.room.players[i].id] == e.room.players[i]
    {
      assert e.room.players[i].id in Ids(e.room.players);
    }
  }

  lemma SetSound(e: Entry, c: string, p: Player)
    requires Sound(e, c)
    ensures Sound(SetPlayer(e, p), c)
    ensures SetPlayer(e, p).byId.Keys == e.byId.Keys
  {
  }

  // ---- Counts ----

  lemma {:induction false} CountsWithout(ps: seq<Player>, id: string)
    ensures Active(Without(ps, id)) <= Active(ps)
    ensures Spectators(Without(ps, id)) <= Spectators(ps)
  {
    if ps != [] {
      CountsWithout(ps[1..], id);
      var head := if ps[0].id == id then [] else [ps[0]];
      if head != [] {
        assert (head + Without(ps[1..], id))[1..] == Without(ps[1..], id);
      } else {
        assert head + Without(ps[1..], id) == Without(ps[1..], id);
      }
    }
  }

  lemma {:induction false} CountsAppend(ps: seq<Player>, p: Player)
    ensures Active(ps + [p]) == Active(ps) + if p.spectator then 0 else 1
    ensures Spectators(ps + [p]) == Spectators(ps) + if p.spectator then 1 else 0
  {
    if ps == [] {
      assert ps + [p] == [p];
    } else {
      CountsAppend(ps[1..], p);
      assert (ps + [p])[1..] == ps[1..] + [p];
    }
  }

  lemma {:induction false} CountsSameRoles(ps: seq<Player>, qs: seq<Player>)
    requires |ps| == |qs| && forall i :: 0 <= i < |ps| ==> ps[i].spectator == qs[i].spectator
    ensures Active(ps) == Active(qs) && Spectators(ps) == Spectators(qs)
  {
    if ps != [] {
      CountsSameRoles(ps[1..], qs[1..]);
    }
  }

  /* Turning at most one listed spectator into a player. */
  lemma {:induction false} CountsPromote(ps: seq<Player>, p: Player)
    requires UniqueIds(ps) && !p.spectator
    ensures Active(Replace(ps, p)) <= Active(ps) + 1
    ensures Spectators(Replace(ps, p)) <= Spectators(ps)
  {
    if ps != [] {
      assert Replace(ps, p)[1..] == Replace(ps[1..], p);
      CountsPromote(ps[1..], p);
      if ps[0].id == p.id {
        assert Replace(ps[1..], p) == ps[1..];
      }
    }
  }

  // ---- Departures ----

  lemma DepartedGood(e: Entry, c: string, restored: set<string>, id: string, host: string)
    requires Good(e, c, restored) && host in e.byId && host != id
    ensures var r := RemovePlayer(e, id);
            Good(r.(room := r.room.(hostId := host)), c, restored)
  {
    RemoveSound(e, c, id);
    CountsWithout(e.room.players, id);
  }

  lemma DepartKeeps(m: Manager, c: string, id: string, host: string)
    requires Inv(m) && c in m.rooms && id in m.rooms[c].byId && host in m.rooms[c].byId && host != id
    ensures Inv(Depart(m, c, id, host))
  {
    var e := m.rooms[c];
    assert Good(e, c, m.restored);
    DepartedGood(e, c, m.restored, id, host);
    RemoveSound(e, c, id);
    assert Members(m.rooms)[c] == e.byId.Keys;
    MappedRemove(Members(m.rooms), m.playerToRoom, c, id);
    var r := RemovePlayer(e, id);
    StoreKeeps(m, c, r.(room := r.room.(hostId := host)), m.playerToRoom - {id});
  }

  /* Deleting the room a player has just left is deleting the room. */
  lemma DepartDelete(m: Manager, c: string, id: string, host: string)
    requires c in m.rooms && id in Ids(m.rooms[c].room.players)
    ensures DeleteRoom(Depart(m, c, id, host), c) == DeleteRoom(m, c)
  {
    var ps := m.rooms[c].room.players;
    WithoutKeeps(ps, id);
    var d := Depart(m, c, id, host);
    assert d.rooms - {c} == m.rooms - {c};
    assert {id} + Ids(d.rooms[c].room.players) == Ids(ps);
    assert (m.playerToRoom - {id}) - Ids(d.rooms[c].room.players) == m.playerToRoom - Ids(ps);
  }

  lemma DepartDeleteKeeps(m: Manager, c: string, id: string, host: string)
    requires Inv(m) && c in m.rooms && id in m.rooms[c].byId
    ensures Inv(DeleteRoom(Depart(m, c, id, host), c))
  {
    assert id in Ids(m.rooms[c].room.players) by {
      assert Good(m.rooms[c], c, m.restored);
    }
    DepartDelete(m, c, id, host);
    DeleteKeeps(m, c);
  }

  lemma {:induction false} FirstConnectedListed(ps: seq<Player>, spectators: bool)
    ensures FirstConnected(ps, spectators).Some? ==>
              FirstConnected(ps, spectators).value in ps && FirstConnected(ps, spectators).value.connected
    ensures spectators && FirstConnected(ps, spectators).None? ==>
              forall i :: 0 <= i < |ps| ==> !ps[i].connected
  {
    if ps != [] {
      FirstConnectedListed(ps[1..], spectators);
    }
  }

  /* A new host is a connected listed player, and there is one unless nobody is connected. */
  lemma NextHostListed(ps: seq<Player>)
    ensures NextHost(ps).Some? ==> NextHost(ps).value in ps && NextHost(ps).value.connected
    ensures NextHost(ps).None? ==> forall i :: 0 <= i < |ps| ==> !ps[i].connected
  {
    FirstConnectedListed(ps, false);
    FirstConnectedListed(ps, true);
  }

  lemma Listed(e: Entry, c: string, p: Player, id: string)
    requires Sound(e, c) && p in Without(e.room.players, id)
    ensures p.id in e.byId && p.id != id
  {
    var i :| 0 <= i < |e.room.players| && e.room.players[i] == p;
    assert p.id in Ids(e.room.players);
  }

  // ---- Handlers ----

  lemma CreatedGood(code: string, host: Player, config: GameConfig, restored: set<string>)
    ensures Good(NewRoom(code, host, config), code, restored)
  {
    CountsAppend([], host);
    assert [] + [host] == [host];
  }

  lemma CreateKeeps(m: Manager, code: string, host: Player, config: GameConfig)
    requires Inv(m) && code !in m.rooms && host.id !in m.playerToRoom
    ensures Inv(CreateRoom(m, code, host, config))
  {
    CreatedGood(code, host, config, m.restored);
    MappedAdd(Members(m.rooms), m.playerToRoom, code, host.id);
    assert {} + {host.id} == NewRoom(code, host, config).byId.Keys;
    StoreKeeps(m, code, NewRoom(code, host, config), m.playerToRoom[host.id := code]);
  }

  lemma JoinedGood(e: Entry, c: string, restored: set<string>, p: Player)
    requires Good(e, c, restored) && p.id !in e.byId && Admits(e.room, p.spectator)
    ensures Good(AddPlayer(e, p), c, restored)
  {
    AddSound(e, c, p);
    CountsAppend(e.room.players, p);
  }

  lemma JoinKeeps(m: Manager, c: string, p: Player, approved: bool)
    requires Inv(m) && p.id !in m.playerToRoom
    ensures Inv(Join(m, c, p, approved))
  {
    if c in m.rooms && Admits(m.rooms[c].room, p.spectator) {
      AdmitKeeps(m, c, p);
    }
  }

  lemma Unlisted(m: Manager, c: string, id: string)
    requires Mapped(Members(m.rooms), m.playerToRoom) && c in m.rooms && id !in m.playerToRoom
    ensures id !in m.rooms[c].byId
  {
    assert Members(m.rooms)[c] == m.rooms[c].byId.Keys;
  }

  lemma AdmitKeeps(m: Manager, c: string, p: Player)
    requires Inv(m) && p.id !in m.playerToRoom && c in m.rooms && Admits(m.rooms[c].room, p.spectator)
    ensures Inv(PutRoom(m.(playerToRoom := m.playerToRoom[p.id := c]), c, AddPlayer(m.rooms[c], p)))
  {
    var e := m.rooms[c];
    Unlisted(m, c, p.id);
    assert Good(e, c, m.restored);
    JoinedGood(e, c, m.restored, p);
    AddSound(e, c, p);
    MappedAdd(Members(m.rooms), m.playerToRoom, c, p.id);
    StoreKeeps(m, c, AddPlayer(e, p), m.playerToRoom[p.id := c]);
  }

  lemma AcceptRoleKeeps(m: Manager, c: string, id: string)
    requires Inv(m)
    ensures Inv(AcceptRole(m, c, id))
  {
    if AcceptRole(m, c, id) != m {
      var e := m.rooms[c];
      assert Good(e, c, m.restored);
      LookupIsScan(e, id);
      var p := GetPlayer(e, id).value.(spectator := false, score := 0, hasGuessed := false);
      SetSound(e, c, p);
      CountsPromote(e.room.players, p);
      PutKeeps(m, c, SetPlayer(e, p));
    }
  }

  /* Rewriting a looked-up player without changing the role. */
  lemma SetGood(e: Entry, c: string, restored: set<string>, id: string, q: Player)
    requires Good(e, c, restored) && GetPlayer(e, id).Some?
    requires q.id == id && q.spectator == GetPlayer(e, id).value.spectator
    ensures Good(SetPlayer(e, q), c, restored) && SetPlayer(e, q).byId.Keys == e.byId.Keys
  {
    LookupIsScan(e, id);
    SetSound(e, c, q);
    ReplaceSameRoles(e.room.players, q);
    CountsSameRoles(e.room.players, Replace(e.room.players, q));
  }

  lemma ReplaceSameRoles(ps: seq<Player>, q: Player)
    requires UniqueIds(ps) && Find(ps, q.id).Some? && q.spectator == Find(ps, q.id).value.spectator
    ensures forall i :: 0 <= i < |ps| ==> ps[i].spectator == Replace(ps, q)[i].spectator
  {
    forall i | 0 <= i < |ps|
      ensures ps[i].spectator == Replace(ps, q)[i].spectator
    {
      FindMember(ps, i);
    }
  }

  lemma SetKeeps(m: Manager, c: string, id: string, q: Player)
    requires Inv(m) && c in m.rooms && GetPlayer(m.rooms[c], id).Some?
    requires q.id == id && q.spectator == GetPlayer(m.rooms[c], id).value.spectator
    ensures Inv(PutRoom(m, c, SetPlayer(m.rooms[c], q)))
  {
    assert Good(m.rooms[c], c, m.restored);
    SetGood(m.rooms[c], c, m.restored, id, q);
    PutKeeps(m, c, SetPlayer(m.rooms[c], q));
  }

  lemma ReconnectKeeps(m: Manager, c: string, id: string)
    requires Inv(m)
    ensures Inv(Reconnect(m, c, id))
  {
    if c in m.rooms && GetPlayer(m.rooms[c], id).Some? {
      assert Good(m.rooms[c], c, m.restored);
      LookupIsScan(m.rooms[c], id);
      SetKeeps(m, c, id, GetPlayer(m.rooms[c], id).value.(connected := true, disconnectTime := None));
    }
  }

  /* A listed player other than the one who leaves can be host. */
  lemma DepartToKeeps(m: Manager, c: string, id: string, next: Player)
    requires Inv(m) && c in m.rooms && id in m.rooms[c].byId
    requires next in Without(m.rooms[c].room.players, id)
    ensures var host := m.rooms[c].room.hostId;
            Inv(Depart(m, c, id, if host == id then next.id else host))
  {
    var e := m.rooms[c];
    assert Good(e, c, m.restored);
    Listed(e, c, next, id);
    DepartKeeps(m, c, id, if e.room.hostId == id then next.id else e.room.hostId);
  }

  lemma LeaveKeeps(m: Manager, id: string)
    requires Inv(m)
    ensures Inv(Leave(m, id))
  {
    if FindRoom(m, id).Some? {
      FoundRoom(m, id);
      var c := FindRoom(m, id).value;
      var rest := Without(m.rooms[c].room.players, id);
      if rest == [] {
        DepartDeleteKeeps(m, c, id, m.rooms[c].room.hostId);
      } else {
        DepartToKeeps(m, c, id, rest[0]);
      }
    }
  }

  lemma RemoveKeeps(m: Manager, id: string)
    requires Inv(m)
    ensures Inv(Remove(m, id))
  {
    if FindRoom(m, id).Some? {
      FoundRoom(m, id);
      var c := FindRoom(m, id).value;
      var rest := Without(m.rooms[c].room.players, id);
      if rest == [] {
        DepartDeleteKeeps(m, c, id, m.rooms[c].room.hostId);
      } else {
        NextHostListed(rest);
        DepartToKeeps(m, c, id, if NextHost(rest).Some? then NextHost(rest).value else rest[0]);
      }
    }
  }

  lemma ExpireKeeps(m: Manager, id: string)
    requires Inv(m)
    ensures Inv(Expire(m, id))
  {
    if FindRoom(m, id).Some? {
      FoundRoom(m, id);
      var c := FindRoom(m, id).value;
      var rest := Without(m.rooms[c].room.players, id);
      NextHostListed(rest);
      if NextHost(rest).None? {
        DepartDeleteKeeps(m, c, id, m.rooms[c].room.hostId);
      } else {
        DepartToKeeps(m, c, id, NextHost(rest).value);
      }
    }
  }

  lemma HostKickKeeps(m: Manager, host: string, target: string)
    requires Inv(m)
    ensures Inv(HostKick(m, host, target))
  {
    if HostKick(m, host, target) != m {
      FoundRoom(m, host);
      var c := FindRoom(m, host).value;
      assert Good(m.rooms[c], c, m.restored);
      LookupIsScan(m.rooms[c], target);
      DepartKeeps(m, c, target, m.rooms[c].room.hostId);
    }
  }

  lemma TransferHostKeeps(m: Manager, host: string, target: string)
    requires Inv(m)
    ensures Inv(TransferHost(m, host, target))
  {
    if TransferHost(m, host, target) != m {
      FoundRoom(m, host);
      var c := FindRoom(m, host).value;
      var e := m.rooms[c];
      assert Good(e, c, m.restored);
      LookupIsScan(e, target);
      PutKeeps(m, c, e.(room := e.room.(hostId := target)));
    }
  }

  lemma ReassignHostKeeps(m: Manager, c: string, oldHost: string)
    requires Inv(m)
    ensures Inv(ReassignHost(m, c, oldHost))
  {
    if c in m.rooms {
      var e := m.rooms[c];
      assert Good(e, c, m.restored);
      NextHostListed(e.room.players);
      match NextHost(e.room.players)
      case Some(next) =>
        var i :| 0 <= i < |e.room.players| && e.room.players[i] == next;
        assert next.id in Ids(e.room.players);
        PutKeeps(m, c, e.(room := e.room.(hostId := next.id)));
      case None =>
        DeleteKeeps(m, c);
    }
  }

  // ---- Vote-kicks ----

  /* A connected player other than the target leaves someone who can be host. */
  lemma ExecuteKickKeeps(m: Manager, c: string, target: string, voter: Player)
    requires Inv(m) && c in m.rooms && target in m.rooms[c].byId
    requires voter in m.rooms[c].room.players && IsVoter(voter, target)
    ensures Inv(ExecuteKick(m, c, target))
  {
    var rest := Without(m.rooms[c].room.players, target);
    assert voter in rest;
    NextHostListed(rest);
    DepartToKeeps(m, c, target, NextHost(rest).value);
  }

  lemma {:induction false} SomeVoter(ps: seq<Player>, target: string)
    requires Voters(ps, target) > 0
    ensures exists i :: 0 <= i < |ps| && IsVoter(ps[i], target)
  {
    if IsVoter(ps[0], target) {
    } else {
      SomeVoter(ps[1..], target);
      var i :| 0 <= i < |ps[1..]| && IsVoter(ps[1..][i], target);
      assert IsVoter(ps[i + 1], target);
    }
  }

  lemma DropVoteKeeps(m: Manager, votes: map<string, Vote>)
    requires Inv(m) && votes.Keys <= m.rooms.Keys
    ensures Inv(m.(votes := votes))
  {
  }

  lemma CountKeeps(m: Manager, c: string, voter: Player)
    requires Inv(m) && c in m.rooms && c in m.votes
    requires voter in m.rooms[c].room.players && IsVoter(voter, m.votes[c].target)
    ensures Inv(Count(m, c))
  {
    var target := m.votes[c].target;
    var m1 := m.(votes := m.votes - {c});
    DropVoteKeeps(m, m.votes - {c});
    if GetPlayer(m.rooms[c], target).Some? {
      assert target in m.rooms[c].byId by {
        assert Good(m.rooms[c], c, m.restored);
        LookupIsScan(m.rooms[c], target);
      }
      ExecuteKickKeeps(m1, c, target, voter);
    }
  }

  lemma {:induction false} OneNonVoter(ps: seq<Player>, target: string)
    requires UniqueIds(ps)
    ensures Connected(ps) <= Voters(ps, target) + 1
    ensures target !in Ids(ps) ==> Connected(ps) == Voters(ps, target)
  {
    if ps != [] {
      OneNonVoter(ps[1..], target);
      if ps[0].id == target {
        assert target !in Ids(ps[1..]);
      } else {
        assert target in Ids(ps[1..]) ==> target in Ids(ps) by {
          if target in Ids(ps[1..]) {
            var i :| 0 <= i < |ps[1..]| && ps[1..][i].id == target;
            assert ps[i + 1].id == target;
          }
        }
      }
    }
  }

  /* With three connected players one vote is never enough: a vote does not pass when it starts. */
  lemma NoImmediatePass(m: Manager, c: string, target: string)
    requires Inv(m) && c in m.rooms && Connected(m.rooms[c].room.players) >= 3
    ensures 1 < Required(m.rooms[c].room.players, target)
  {
    assert Good(m.rooms[c], c, m.restored);
    OneNonVoter(m.rooms[c].room.players, target);
  }

  /* Starting a vote changes nothing but the votes, and those of one room. */
  lemma StartVoteOnlyVotes(m: Manager, initiator: string, target: string, cooling: bool)
    requires Inv(m)
    ensures var r := StartVote(m, initiator, target, cooling);
            || r == m
            || exists c :: c in m.rooms && r == m.(votes := m.votes[c := Vote(target, {initiator})])
  {
    var room := FindRoom(m, initiator);
    if room.Some? && Connected(m.rooms[room.value].room.players) >= 3 {
      NoImmediatePass(m, room.value, target);
    }
  }

  lemma StartVoteKeeps(m: Manager, initiator: string, target: string, cooling: bool)
    requires Inv(m)
    ensures Inv(StartVote(m, initiator, target, cooling))
  {
    StartVoteOnlyVotes(m, initiator, target, cooling);
    var r := StartVote(m, initiator, target, cooling);
    if r != m {
      DropVoteKeeps(m, r.votes);
    }
  }

  lemma CastVoteKeeps(m: Manager, voter: string, yes: bool)
    requires Inv(m)
    ensures Inv(CastVote(m, voter, yes))
  {
    if CastVote(m, voter, yes) != m {
      FoundRoom(m, voter);
      var c := FindRoom(m, voter).value;
      var v := m.votes[c];
      var ballot := v.(votes := if yes then v.votes + {voter} else v.votes - {voter});
      BallotKeeps(m, c, voter, ballot);
    }
  }

  lemma BallotKeeps(m: Manager, c: string, voter: string, v: Vote)
    requires Inv(m) && c in m.rooms && c in m.votes && voter in m.rooms[c].byId
    requires m.rooms[c].byId[voter].connected && voter != v.target
    ensures Inv(Count(m.(votes := m.votes[c := v]), c))
  {
    assert Sound(m.rooms[c], c) by {
      assert Good(m.rooms[c], c, m.restored);
    }
    VoterListed(m.rooms[c], c, voter);
    DropVoteKeeps(m, m.votes[c := v]);
    CountKeeps(m.(votes := m.votes[c := v]), c, m.rooms[c].byId[voter]);
  }

  lemma VoterListed(e: Entry, c: string, id: string)
    requires Sound(e, c) && id in e.byId
    ensures e.byId[id] in e.room.players && e.byId[id].id == id
  {
    LookupIsScan(e, id);
  }

  lemma VoteTimeoutKeeps(m: Manager, c: string, target: string)
    requires Inv(m)
    ensures Inv(VoteTimeout(m, c, target))
  {
    DropVoteKeeps(m, m.votes - {c});
  }

  /* Recounting after a voter has gone, when at least two are left. */
  lemma RecountKeeps(m: Manager, c: string, votes: set<string>)
    requires Inv(m) && c in m.rooms && c in m.votes
    requires Voters(m.rooms[c].room.players, m.votes[c].target) >= 2
    ensures Inv(Count(m.(votes := m.votes[c := m.votes[c].(votes := votes)]), c))
  {
    var v := m.votes[c].(votes := votes);
    var m1 := m.(votes := m.votes[c := v]);
    DropVoteKeeps(m, m1.votes);
    var ps := m.rooms[c].room.players;
    SomeVoter(ps, v.target);
    var i :| 0 <= i < |ps| && IsVoter(ps[i], v.target);
    CountKeeps(m1, c, ps[i]);
  }

  lemma WithdrawVoterKeeps(m: Manager, c: string, id: string)
    requires Inv(m) && c in m.rooms
    ensures Inv(WithdrawVoter(m, c, id))
  {
    if c in m.votes {
      var v := m.votes[c];
      DropVoteKeeps(m, m.votes - {c});
      if v.target != id && Voters(m.rooms[c].room.players, v.target) >= 2 {
        RecountKeeps(m, c, v.votes - {id});
      }
    }
  }

  lemma UnplugKeeps(m: Manager, c: string, id: string)
    requires Inv(m) && c in m.rooms && GetPlayer(m.rooms[c], id).Some?
    ensures Inv(Unplug(m, c, GetPlayer(m.rooms[c], id).value))
  {
    var p := GetPlayer(m.rooms[c], id).value;
    assert p.id == id by {
      assert Good(m.rooms[c], c, m.restored);
      LookupIsScan(m.rooms[c], id);
    }
    SetKeeps(m, c, id, p.(connected := false));
  }

  lemma CloseIfAbandonedKeeps(m: Manager, c: string, id: string)
    requires Inv(m)
    ensures Inv(CloseIfAbandoned(m, c, id))
  {
    if c in m.rooms {
      DeleteKeeps(m, c);
    }
  }

  lemma DisconnectKeeps(m: Manager, id: string)
    requires Inv(m)
    ensures Inv(Disconnect(m, id))
  {
    var room := FindRoom(m, id);
    if room.Some? && GetPlayer(m.rooms[room.value], id).Some? {
      var c := room.value;
      var m0 := Unplug(m, c, GetPlayer(m.rooms[c], id).value);
      UnplugKeeps(m, c, id);
      WithdrawVoterKeeps(m0, c, id);
      CloseIfAbandonedKeeps(WithdrawVoter(m0, c, id), c, id);
    }
  }

  // ---- Runs ----

  datatype Event =
    | ECreate(code: string, creator: Player, config: GameConfig)
    | EJoin(code: string, player: Player, approved: bool)
    | EAcceptRole(code: string, id: string)
    | ELeave(id: string)
    | ERemove(id: string)
    | EExpire(id: string)
    | EHostKick(host: string, target: string)
    | ETransferHost(host: string, target: string)
    | EReassignHost(code: string, oldHost: string)
    | EDisconnect(id: string)
    | EReconnect(code: string, id: string)
    | EStartVote(id: string, target: string, cooling: bool)
    | ECastVote(id: string, yes: bool)
    | EVoteTimeout(code: string, target: string)
    | EPlay(code: string, state: RoomState)
    | ESettings(code: string, config: GameConfig)
    | ERestore(code: string, entry: Entry)

  /* The game engine moving a room between states. */
  function Play(m: Manager, c: string, state: RoomState): Manager {
    if c !in m.rooms then m else PutRoom(m, c, m.rooms[c].(room := m.rooms[c].room.(state := state)))
  }

  function Settings(m: Manager, c: string, config: GameConfig): Manager {
    if c !in m.rooms then m else PutRoom(m, c, m.rooms[c].(room := m.rooms[c].room.(config := config)))
  }

  ghost function Restore(m: Manager, c: string, e: Entry): Manager {
    Manager(m.rooms[c := e], m.playerToRoom + (map id | id in e.byId.Keys :: c), m.votes, m.restored + {c})
  }

  ghost function Apply(m: Manager, e: Event): Manager {
    match e
    case ECreate(code, host, config) => CreateRoom(m, code, host, config)
    case EJoin(c, p, approved) => Join(m, c, p, approved)
    case EAcceptRole(c, id) => AcceptRole(m, c, id)
    case ELeave(id) => Leave(m, id)
    case ERemove(id) => Remove(m, id)
    case EExpire(id) => Expire(m, id)
    case EHostKick(host, target) => HostKick(m, host, target)
    case ETransferHost(host, target) => TransferHost(m, host, target)
    case EReassignHost(c, h) => ReassignHost(m, c, h)
    case EDisconnect(id) => Disconnect(m, id)
    case EReconnect(c, id) => Reconnect(m, c, id)
    case EStartVote(id, target, cooling) => StartVote(m, id, target, cooling)
    case ECastVote(id, yes) => CastVote(m, id, yes)
    case EVoteTimeout(c, target) => VoteTimeout(m, c, target)
    case EPlay(c, state) => Play(m, c, state)
    case ESettings(c, config) => Settings(m, c, config)
    case ERestore(c, entry) => Restore(m, c, entry)
  }

  /* New codes and ids are fresh, and a snapshot restores a room that was sound when it was taken. */
  ghost predicate Legal(m: Manager, e: Event) {
    match e
    case ECreate(code, host, _) => code !in m.rooms && host.id !in m.playerToRoom
    case EJoin(_, p, _) => p.id !in m.playerToRoom
    case ERestore(c, entry) =>
      c !in m.rooms && Sound(entry, c) && Hosted(entry) && entry.byId.Keys !! m.playerToRoom.Keys
    case _ => true
  }

  lemma MappedRestore(members: map<string, set<string>>, p2r: map<string, string>, c: string, ids: set<string>)
    requires Mapped(members, p2r) && c !in members && ids !! p2r.Keys
    ensures Mapped(members[c := ids], p2r + (map id | id in ids :: c))
  {
    var more := members[c := ids];
    forall d, x | d in more && x in more[d]
      ensures x in p2r + (map id | id in ids :: c) && (p2r + (map id | id in ids :: c))[x] == d
    {
      if d != c {
        assert x in members[d];
      }
    }
  }

  lemma RestoreKeeps(m: Manager, c: string, e: Entry)
    requires Inv(m) && Legal(m, ERestore(c, e))
    ensures Inv(Restore(m, c, e))
  {
    var m1 := m.(restored := m.restored + {c});
    assert AllGood(m1.rooms, m1.restored) by {
      forall d | d in m.rooms
        ensures Good(m.rooms[d], d, m1.restored)
      {
        assert Good(m.rooms[d], d, m.restored);
      }
    }
    MappedRestore(Members(m.rooms), m.playerToRoom, c, e.byId.Keys);
    StoreKeeps(m1, c, e, m.playerToRoom + (map id | id in e.byId.Keys :: c));
  }

  lemma PlayKeeps(m: Manager, c: string, state: RoomState, config: GameConfig)
    requires Inv(m)
    ensures Inv(Play(m, c, state)) && Inv(Settings(m, c, config))
  {
    if c in m.rooms {
      assert Good(m.rooms[c], c, m.restored);
      PutKeeps(m, c, m.rooms[c].(room := m.rooms[c].room.(state := state)));
      PutKeeps(m, c, m.rooms[c].(room := m.rooms[c].room.(config := config)));
    }
  }

  predicate ChangesMembership(e: Event) {
    || e.ECreate? || e.EJoin? || e.EAcceptRole? || e.ELeave? || e.ERemove? || e.EExpire? || e.EHostKick?
    || e.ERestore?
  }

  lemma MembershipKeeps(m: Manager, e: Event)
    requires Inv(m) && Legal(m, e)
    requires ChangesMembership(e)
    ensures Inv(Apply(m, e))
  {
    match e
    case ECreate(code, host, config) => CreateKeeps(m, code, host, config);
    case EJoin(c, p, approved) => JoinKeeps(m, c, p, approved);
    case EAcceptRole(c, id) => AcceptRoleKeeps(m, c, id);
    case ELeave(id) => LeaveKeeps(m, id);
    case ERemove(id) => RemoveKeeps(m, id);
    case EExpire(id) => ExpireKeeps(m, id);
    case EHostKick(host, target) => HostKickKeeps(m, host, target);
    case ERestore(c, entry) => RestoreKeeps(m, c, entry);
  }

  lemma ConductKeeps(m: Manager, e: Event)
    requires Inv(m) && Legal(m, e)
    requires !ChangesMembership(e)
    ensures Inv(Apply(m, e))
  {
    match e
    case ETransferHost(host, target) => TransferHostKeeps(m, host, target);
    case EReassignHost(c, h) => ReassignHostKeeps(m, c, h);
    case EDisconnect(id) => DisconnectKeeps(m, id);
    case EReconnect(c, id) => ReconnectKeeps(m, c, id);
    case EStartVote(id, target, cooling) => StartVoteKeeps(m, id, target, cooling);
    case ECastVote(id, yes) => CastVoteKeeps(m, id, yes);
    case EVoteTimeout(c, target) => VoteTimeoutKeeps(m, c, target);
    case EPlay(c, state) => PlayKeeps(m, c, state, DefaultConfig());
    case ESettings(c, config) => PlayKeeps(m, c, Lobby, config);
  }

  lemma ApplyKeeps(m: Manager, e: Event)
    requires Inv(m) && Legal(m, e)
    ensures Inv(Apply(m, e))
  {
    if ChangesMembership(e) {
      MembershipKeeps(m, e);
    } else {
      ConductKeeps(m, e);
    }
  }

  function DefaultConfig(): GameConfig { GameConfig(3, 80, 12, [], None) }

  function Empty(): Manager { Manager(map[], map[], map[], {}) }

  ghost function Run(m: Manager, es: seq<Event>): Manager {
    if es == [] then m else Apply(Run(m, es[..|es| - 1]), es[|es| - 1])
  }

  ghost predicate LegalRun(m: Manager, es: seq<Event>) {
    forall k :: 0 <= k < |es| ==> Legal(Run(m, es[..k]), es[k])
  }

  lemma LegalBefore(m: Manager, es: seq<Event>, n: nat)
    requires LegalRun(m, es) && n <= |es|
    ensures LegalRun(m, es[..n])
  {
    forall k | 0 <= k < n
      ensures Legal(Run(m, es[..n][..k]), es[..n][k])
    {
      assert es[..n][..k] == es[..k];
    }
  }

  /* In every state that a run reaches from the empty registry, or from any other that is in order:
     lookups by index equal lookups by scan, every room has a present host, and rooms not restored
     from a snapshot keep to 12 players and 50 spectators. */
  lemma {:induction false} EveryRunKeeps(m: Manager, es: seq<Event>)
    requires Inv(m) && LegalRun(m, es)
    ensures Inv(Run(m, es))
    decreases |es|
  {
    if es != [] {
      var n := |es| - 1;
      LegalBefore(m, es, n);
      EveryRunKeeps(m, es[..n]);
      ApplyKeeps(Run(m, es[..n]), es[n]);
    }
  }
}
