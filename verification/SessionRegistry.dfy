/** The gateway's session registry (gateway/session.go:27-239): sessions are shared objects indexed
    by player and, through one map per room, by room; a session's identity changes in place. */
module SessionRegistry {

  class PlayerSession {
    var playerId: string
    var roomCode: string
    var conn: int
    var done: bool

    constructor (playerId: string, roomCode: string, conn: int)
      ensures this.playerId == playerId && this.roomCode == roomCode && this.conn == conn && !done
    {
      this.playerId, this.roomCode, this.conn, this.done := playerId, roomCode, conn, false;
    }

    /* Closing a closed channel panics: the caller must know it is open. */
    method CloseDone()
      requires !done
      modifies this`done
      ensures done
    {
      done := true;
    }
  }

  type Index = map<string, map<string, PlayerSession>>

  /* Drops the given players from every room map, and then every room map left empty. */
  function DropPlayers(byRoom: Index, ids: set<string>): Index {
    map c | c in byRoom && byRoom[c].Keys - ids != {} :: byRoom[c] - ids
  }

  /* The same with only some of the rooms visited so far. */
  function DropSome(byRoom: Index, ids: set<string>, visited: set<string>): Index {
    map c | c in byRoom && (c in visited ==> byRoom[c].Keys - ids != {}) ::
      if c in visited then byRoom[c] - ids else byRoom[c]
  }

  /* One round of the loop over the rooms. */
  function DropInRoom(byRoom: Index, c: string, ids: set<string>): Index
    requires c in byRoom
  {
    var roomMap := byRoom[c] - ids;
    if roomMap == map[] then byRoom - {c} else byRoom[c := roomMap]
  }

  lemma DropSomeStep(byRoom: Index, ids: set<string>, visited: set<string>, c: string)
    requires c in byRoom && c !in visited
    ensures c in DropSome(byRoom, ids, visited)
    ensures DropInRoom(DropSome(byRoom, ids, visited), c, ids) == DropSome(byRoom, ids, visited + {c})
  {
    assert (byRoom[c] - ids).Keys == byRoom[c].Keys - ids;
  }

  lemma DropSomeAll(byRoom: Index, ids: set<string>)
    ensures DropSome(byRoom, ids, {}) == byRoom
    ensures DropSome(byRoom, ids, byRoom.Keys) == DropPlayers(byRoom, ids)
  {
  }

  function AddToRoom(byRoom: Index, code: string, id: string, s: PlayerSession): Index {
    if code == "" then byRoom
    else if code in byRoom then byRoom[code := byRoom[code][id := s]]
    else byRoom[code := map[id := s]]
  }

  type Sessions = map<string, PlayerSession>

  lemma Reinsert(sessions: Sessions, id: string, s: PlayerSession)
    ensures (sessions - {id})[id := s] == sessions[id := s]
  {
  }

  lemma Rekeyed(sessions: Sessions, oldId: string, newId: string, s: PlayerSession)
    ensures (sessions - {oldId, newId})[newId := s] == (sessions - {oldId})[newId := s]
  {
  }

  /* Every session is in the map of its room, */
  ghost predicate Holds(sessions: Sessions, codes: map<string, string>, byRoom: Index)
    requires codes.Keys == sessions.Keys
  {
    forall id :: id in sessions && codes[id] != "" ==> codes[id] in byRoom && id in byRoom[codes[id]]
  }

  /* the rooms' maps have no other entries, and the same objects as the player index, */
  ghost predicate HoldsOnly(sessions: Sessions, codes: map<string, string>, byRoom: Index)
    requires codes.Keys == sessions.Keys
  {
    forall c, id :: c in byRoom && id in byRoom[c] ==>
      id in sessions && byRoom[c][id] == sessions[id] && codes[id] == c
  }

  /* and no map is empty. */
  ghost predicate NoneEmpty(byRoom: Index) { forall c :: c in byRoom ==> c != "" && byRoom[c].Keys != {} }

  /* The two indexes agree, given each session's room code. */
  ghost predicate Agree(sessions: Sessions, codes: map<string, string>, byRoom: Index) {
    && codes.Keys == sessions.Keys
    && Holds(sessions, codes, byRoom) && HoldsOnly(sessions, codes, byRoom) && NoneEmpty(byRoom)
  }

  lemma DropAgrees(sessions: Sessions, codes: map<string, string>, byRoom: Index, ids: set<string>)
    requires Agree(sessions, codes, byRoom)
    ensures Agree(sessions - ids, codes - ids, DropPlayers(byRoom, ids))
  {
    var r := DropPlayers(byRoom, ids);
    forall c | c in r
      ensures r[c].Keys == byRoom[c].Keys - ids
    {
    }
    forall id | id in sessions - ids && codes[id] != ""
      ensures codes[id] in r && id in r[codes[id]]
    {
      assert id in byRoom[codes[id]].Keys - ids;
    }
  }

  lemma AddHolds(sessions: Sessions, codes: map<string, string>, byRoom: Index,
                 id: string, code: string, s: PlayerSession)
    requires codes.Keys == sessions.Keys && Holds(sessions, codes, byRoom)
    ensures Holds(sessions[id := s], codes[id := code], AddToRoom(byRoom, code, id, s))
  {
    var r := AddToRoom(byRoom, code, id, s);
    forall x | x in sessions && x != id && codes[x] != ""
      ensures codes[x] in r && x in r[codes[x]]
    {
      assert x in byRoom[codes[x]];
    }
  }

  lemma AddHoldsOnly(sessions: Sessions, codes: map<string, string>, byRoom: Index,
                     id: string, code: string, s: PlayerSession)
    requires codes.Keys == sessions.Keys && HoldsOnly(sessions, codes, byRoom) && NoneEmpty(byRoom)
    requires id !in sessions || codes[id] == code
    ensures HoldsOnly(sessions[id := s], codes[id := code], AddToRoom(byRoom, code, id, s))
  {
    var r := AddToRoom(byRoom, code, id, s);
    forall c, x | c in r && x in r[c]
      ensures x in sessions[id := s] && r[c][x] == sessions[id := s][x] && codes[id := code][x] == c
    {
      if !(x == id && c == code) {
        assert c in byRoom && x in byRoom[c] && r[c][x] == byRoom[c][x];
      }
    }
  }

  lemma AddNoneEmpty(byRoom: Index, id: string, code: string, s: PlayerSession)
    requires NoneEmpty(byRoom)
    ensures NoneEmpty(AddToRoom(byRoom, code, id, s))
  {
    if code != "" {
      assert id in AddToRoom(byRoom, code, id, s)[code].Keys;
    }
  }

  lemma AddAgrees(sessions: Sessions, codes: map<string, string>, byRoom: Index,
                  id: string, code: string, s: PlayerSession)
    requires Agree(sessions, codes, byRoom)
    requires id !in sessions || codes[id] == code
    ensures Agree(sessions[id := s], codes[id := code], AddToRoom(byRoom, code, id, s))
  {
    AddHolds(sessions, codes, byRoom, id, code, s);
    AddHoldsOnly(sessions, codes, byRoom, id, code, s);
    AddNoneEmpty(byRoom, id, code, s);
  }

  class Registry {
    var sessions: Sessions
    var byRoom: Index

    ghost function Codes(): map<string, string>
      reads this, sessions.Values
    {
      map id | id in sessions :: sessions[id].roomCode
    }

    ghost predicate Registered(id: string)
      requires id in sessions
      reads this, sessions.Values
    {
      sessions[id].playerId == id && !sessions[id].done
    }

    /* Every session is registered under its own id with `done` open, and the indexes agree. */
    ghost predicate Valid()
      reads this, sessions.Values
    {
      (forall id :: id in sessions ==> Registered(id)) && Agree(sessions, Codes(), byRoom)
    }

    /* Sessions of a room by filtering the whole registry. */
    ghost function InRoom(code: string): set<PlayerSession>
      reads this, sessions.Values
    {
      set id | id in sessions && sessions[id].roomCode == code :: sessions[id]
    }

    constructor ()
      ensures Valid() && sessions == map[] && byRoom == map[]
    {
      sessions, byRoom := map[], map[];
    }

    /* The loop over all rooms that deletes players and empty maps. */
    method DropFromRooms(ids: set<string>)
      modifies this`byRoom
      ensures byRoom == DropPlayers(old(byRoom), ids)
    {
      ghost var before := byRoom;
      DropSomeAll(before, ids);
      var todo := byRoom.Keys;
      assert before.Keys - todo == {};
      while todo != {}
        invariant todo <= before.Keys
        invariant byRoom == DropSome(before, ids, before.Keys - todo)
        decreases |todo|
      {
        var c :| c in todo;
        DropSomeStep(before, ids, before.Keys - todo, c);
        assert before.Keys - (todo - {c}) == (before.Keys - todo) + {c};
        byRoom := DropInRoom(byRoom, c, ids);
        todo := todo - {c};
      }
      assert before.Keys - todo == before.Keys;
    }

    method RemoveLocked(session: PlayerSession)
      requires Valid() && session in sessions.Values
      modifies this, session`done
      ensures Valid() && session.done
      ensures sessions == old(sessions) - {session.playerId}
    {
      var id := session.playerId;
      assert id in sessions && sessions[id] == session;
      DropAgrees(sessions, Codes(), byRoom, {id});
      ghost var codes := Codes() - {id};
      Stop(session);
      sessions := sessions - {id};
      DropFromRooms({id});
      assert Codes() == codes;
    }

    /* Enters a session into both indexes, over one of the same player and room if there is one. */
    method Insert(session: PlayerSession)
      requires forall id :: id in sessions && id != session.playerId ==> Registered(id)
      requires Agree(sessions, Codes(), byRoom) && !session.done
      requires session.playerId in sessions ==> sessions[session.playerId].roomCode == session.roomCode
      modifies this
      ensures Valid() && sessions == old(sessions)[session.playerId := session]
    {
      var id := session.playerId;
      AddAgrees(sessions, Codes(), byRoom, id, session.roomCode, session);
      ghost var codes := Codes()[id := session.roomCode];
      sessions := sessions[id := session];
      byRoom := AddToRoom(byRoom, session.roomCode, id, session);
      assert Codes() == codes;
    }

    /* Creates a session under an id that is not registered. */
    method Enter(playerId: string, roomCode: string, conn: int) returns (session: PlayerSession)
      requires Valid() && playerId !in sessions
      modifies this
      ensures Valid() && fresh(session)
      ensures session.playerId == playerId && session.roomCode == roomCode && session.conn == conn
      ensures sessions == old(sessions)[playerId := session]
    {
      session := new PlayerSession(playerId, roomCode, conn);
      assert Codes() == old(Codes());
      Insert(session);
    }

    /* Changes the identity of a session that is not registered at the moment. */
    method Rename(session: PlayerSession, newId: string, newRoom: string)
      requires Valid() && session !in sessions.Values && newId !in sessions
      modifies session`playerId, session`roomCode
      ensures Valid() && session.playerId == newId
      ensures session.roomCode == if newRoom != "" then newRoom else old(session.roomCode)
    {
      ghost var codes := Codes();
      session.playerId := newId;
      if newRoom != "" {
        session.roomCode := newRoom;
      }
      assert Codes() == codes;
      assert forall id :: id in sessions ==> Registered(id) by {
        assert forall id :: id in sessions ==> old(Registered(id)) && sessions[id] in sessions.Values;
      }
    }

    /* Closes a registered session's `done`, leaving everything else as it is. */
    method Stop(session: PlayerSession)
      requires Valid() && session in sessions.Values
      modifies session`done
      ensures session.done && Codes() == old(Codes())
      ensures forall id :: id in sessions && id != session.playerId ==> Registered(id)
    {
      assert forall id :: id in sessions ==> Registered(id);
      session.CloseDone();
    }

    /* Takes the entries of two ids out of both indexes. */
    method Detach(oldId: string, newId: string)
      requires Valid()
      modifies this
      ensures Valid() && sessions == old(sessions) - {oldId, newId}
    {
      DropAgrees(sessions, Codes(), byRoom, {oldId, newId});
      ghost var codes := Codes() - {oldId, newId};
      sessions := sessions - {oldId, newId};
      DropFromRooms({oldId, newId});
      assert Codes() == codes;
    }

    method Unregister(playerId: string)
      requires Valid()
      modifies this, sessions.Values
      ensures Valid() && sessions == old(sessions) - {playerId}
      ensures playerId in old(sessions) ==> old(sessions)[playerId].done
      ensures forall id :: id in old(sessions) && id != playerId ==> unchanged(old(sessions)[id])
    {
      if playerId !in sessions {
        return;
      }
      RemoveLocked(sessions[playerId]);
    }

    method Register(playerId: string, roomCode: string, conn: int) returns (session: PlayerSession)
      requires Valid()
      modifies this, sessions.Values
      ensures Valid() && fresh(session)
      ensures session.playerId == playerId && session.roomCode == roomCode && session.conn == conn
      ensures sessions == old(sessions)[playerId := session]
      ensures playerId in old(sessions) ==> old(sessions)[playerId].done
      ensures forall id :: id in old(sessions) && id != playerId ==> unchanged(old(sessions)[id])
    {
      Unregister(playerId);
      session := Enter(playerId, roomCode, conn);
      Reinsert(old(sessions), playerId, session);
    }

    method Update(playerId: string, conn: int)
      requires Valid()
      modifies this, sessions.Values
      ensures Valid() && sessions.Keys == old(sessions).Keys
      ensures forall id :: id in old(sessions) && id != playerId ==>
                sessions[id] == old(sessions)[id] && unchanged(old(sessions)[id])
      ensures playerId in old(sessions) ==>
                && fresh(sessions[playerId]) && old(sessions)[playerId].done
                && sessions[playerId].conn == conn
                && sessions[playerId].roomCode == old(sessions[playerId].roomCode)
    {
      if playerId !in sessions {
        return;
      }
      var session := sessions[playerId];
      assert Registered(playerId);
      Stop(session);
      var newSession := new PlayerSession(playerId, session.roomCode, conn);
      Insert(newSession);
    }

    /* The session keeps its connection and its open `done`; a session already registered under the
       new id is displaced without being closed. */
    method UpdateIdentity(oldId: string, newId: string, newRoom: string)
      requires Valid()
      modifies this, sessions.Values
      ensures Valid()
      ensures oldId !in old(sessions) ==> sessions == old(sessions) && byRoom == old(byRoom)
      ensures oldId in old(sessions) ==>
                var s := old(sessions)[oldId];
                && sessions == (old(sessions) - {oldId})[newId := s]
                && s.playerId == newId && s.conn == old(s.conn) && !s.done
                && s.roomCode == (if newRoom != "" then newRoom else old(s.roomCode))
      ensures forall id :: id in old(sessions) && id != oldId ==> unchanged(old(sessions)[id])
    {
      if oldId !in sessions {
        return;
      }
      OthersDiffer(oldId);
      var session := Release(oldId, newId);
      Rename(session, newId, newRoom);
      Insert(session);
      Rekeyed(old(sessions), oldId, newId, session);
    }

    /* Takes a session, and one under another id, out of both indexes. */
    method Release(oldId: string, newId: string) returns (session: PlayerSession)
      requires Valid() && oldId in sessions
      modifies this
      ensures Valid() && session == old(sessions)[oldId] && sessions == old(sessions) - {oldId, newId}
      ensures session !in sessions.Values && !session.done
    {
      session := sessions[oldId];
      OthersDiffer(oldId);
      assert Registered(oldId);
      Detach(oldId, newId);
    }

    /* No object is registered under two ids. */
    lemma OthersDiffer(id: string)
      requires Valid() && id in sessions
      ensures forall x :: x in sessions && x != id ==> sessions[x] != sessions[id]
    {
      assert Registered(id);
      assert forall x :: x in sessions ==> Registered(x);
    }

    method GetByPlayer(playerId: string) returns (found: bool, session: PlayerSession?)
      requires Valid()
      ensures found <==> playerId in sessions
      ensures found ==> session == sessions[playerId] && session.playerId == playerId && !session.done
    {
      found := playerId in sessions;
      session := if found then sessions[playerId] else null;
    }

    lemma RoomMapIsFilter(code: string)
      requires Valid() && code != ""
      ensures InRoom(code) == if code in byRoom then byRoom[code].Values else {}
      ensures code in byRoom ==> Injective(byRoom[code])
    {
      assert forall id :: id in sessions ==> Codes()[id] == sessions[id].roomCode;
      if code in byRoom {
        var roomMap := byRoom[code];
        assert forall id :: id in roomMap ==> id in sessions && roomMap[id] == sessions[id] && Registered(id);
        assert forall id :: id in sessions && sessions[id].roomCode == code ==> id in roomMap;
      }
    }

    /* Every session of the room once, and no other. */
    method GetByRoom(code: string) returns (r: seq<PlayerSession>)
      requires Valid()
      ensures (set s | s in r) == if code == "" then {} else InRoom(code)
      ensures forall i, j :: 0 <= i < j < |r| ==> r[i] != r[j]
    {
      if code == "" {
        return [];
      }
      RoomMapIsFilter(code);
      if code !in byRoom {
        return [];
      }
      r := Collect(byRoom[code]);
    }
  }

  ghost predicate Injective(m: Sessions) {
    forall a, b :: a in m && b in m && a != b ==> m[a] != m[b]
  }

  /* The values of a map, in some order. */
  method Collect(m: Sessions) returns (r: seq<PlayerSession>)
    requires Injective(m)
    ensures (set s | s in r) == m.Values
    ensures forall i, j :: 0 <= i < j < |r| ==> r[i] != r[j]
  {
    r := [];
    var todo := m.Keys;
    ghost var ids: seq<string> := [];
    while todo != {}
      invariant todo <= m.Keys && |ids| == |r|
      invariant forall k :: 0 <= k < |r| ==> ids[k] in m.Keys - todo && m[ids[k]] == r[k]
      invariant forall id :: id in m.Keys - todo ==> m[id] in r
      invariant forall i, j :: 0 <= i < j < |r| ==> r[i] != r[j]
      decreases |todo|
    {
      var id :| id in todo;
      r := r + [m[id]];
      ids := ids + [id];
      todo := todo - {id};
    }
  }
}
