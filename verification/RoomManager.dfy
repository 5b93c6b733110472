/** The worker's registry of rooms (backend/room_manager.py, backend/models.py:84-104): membership
    indexes, capacity, host reassignment and vote-kicks. */
module RoomManager {
  import opened Models

  const MAX_PLAYERS_HARD_CAP := 12
  const MAX_SPECTATORS := 50

  /* A room together with its players_by_id index. Both hold the same player objects, so a change
     to a player shows in both. */
  datatype Entry = Entry(room: Room, byId: map<string, Player>)

  datatype Vote = Vote(target: string, votes: set<string>)

  /* `restored` marks the rooms rebuilt from a snapshot. */
  datatype Manager = Manager(
    rooms: map<string, Entry>,
    playerToRoom: map<string, string>,
    votes: map<string, Vote>,
    restored: set<string>)

  // ---- models.Room ----

  function AddPlayer(e: Entry, p: Player): Entry {
    Entry(e.room.(players := e.room.players + [p]), e.byId[p.id := p])
  }

  function RemovePlayer(e: Entry, id: string): Entry {
    Entry(e.room.(players := Without(e.room.players, id)), e.byId - {id})
  }

  function SetPlayer(e: Entry, p: Player): Entry {
    Entry(e.room.(players := Replace(e.room.players, p)), if p.id in e.byId then e.byId[p.id := p] else e.byId)
  }

  /* The index first, then the list. */
  function GetPlayer(e: Entry, id: string): Option<Player> {
    if id in e.byId then Some(e.byId[id]) else Find(e.room.players, id)
  }

  ghost predicate Indexed(e: Entry) {
    && UniqueIds(e.room.players)
    && e.byId.Keys == Ids(e.room.players)
    && forall i :: 0 <= i < |e.room.players| ==> e.byId[e.room.players[i].id] == e.room.players[i]
  }

  /* The indexed lookup is the linear scan. */
  lemma LookupIsScan(e: Entry, id: string)
    requires Indexed(e)
    ensures GetPlayer(e, id) == Find(e.room.players, id)
  {
    if id in e.byId {
      var i :| 0 <= i < |e.room.players| && e.room.players[i].id == id;
      FindMember(e.room.players, i);
    }
  }

  // ---- Counting ----

  function Spectators(ps: seq<Player>): nat {
    if ps == [] then 0 else (if ps[0].spectator then 1 else 0) + Spectators(ps[1..])
  }

  predicate IsVoter(p: Player, target: string) { p.connected && p.id != target }

  function Voters(ps: seq<Player>, target: string): nat {
    if ps == [] then 0 else (if IsVoter(ps[0], target) then 1 else 0) + Voters(ps[1..], target)
  }

  function VoterIds(ps: seq<Player>, target: string): set<string> {
    set i | 0 <= i < |ps| && IsVoter(ps[i], target) :: ps[i].id
  }

  function Limit(r: Room): int {
    if r.config.maxPlayers < MAX_PLAYERS_HARD_CAP then r.config.maxPlayers else MAX_PLAYERS_HARD_CAP
  }

  predicate Admits(r: Room, spectator: bool) {
    if spectator then Spectators(r.players) < MAX_SPECTATORS else Active(r.players) < Limit(r)
  }

  // ---- Hosts ----

  function FirstConnected(ps: seq<Player>, spectators: bool): Option<Player> {
    if ps == [] then None
    else if ps[0].connected && (spectators || !ps[0].spectator) then Some(ps[0])
    else FirstConnected(ps[1..], spectators)
  }

  /* The first connected non-spectator, or else the first connected player. */
  function NextHost(ps: seq<Player>): Option<Player> {
    var active := FirstConnected(ps, false);
    if active.Some? then active else FirstConnected(ps, true)
  }

  // ---- Steps ----

  function PutRoom(m: Manager, c: string, e: Entry): Manager { m.(rooms := m.rooms[c := e]) }

  function DeleteRoom(m: Manager, c: string): Manager {
    if c !in m.rooms then m
    else Manager(m.rooms - {c}, m.playerToRoom - Ids(m.rooms[c].room.players), m.votes - {c}, m.restored - {c})
  }

  /* Takes a player out of a room, which then has the given host. */
  function Depart(m: Manager, c: string, id: string, host: string): Manager
    requires c in m.rooms
  {
    var e := RemovePlayer(m.rooms[c], id);
    PutRoom(m.(playerToRoom := m.playerToRoom - {id}), c, e.(room := e.room.(hostId := host)))
  }

  ghost function FindRoom(m: Manager, id: string): Option<string> {
    if id in m.playerToRoom then
      if m.playerToRoom[id] in m.rooms then Some(m.playerToRoom[id]) else None
    else if exists c :: c in m.rooms && GetPlayer(m.rooms[c], id).Some? then
      var c :| c in m.rooms && GetPlayer(m.rooms[c], id).Some?;
      Some(c)
    else None
  }

  function NewRoom(code: string, host: Player, config: GameConfig): Entry {
    Entry(Room(code, host.id, [host], config, Lobby, 0, 0, None, {}, []), map[host.id := host])
  }

  function CreateRoom(m: Manager, code: string, host: Player, config: GameConfig): Manager {
    m.(rooms := m.rooms[code := NewRoom(code, host, config)], playerToRoom := m.playerToRoom[host.id := code])
  }

  /* Joining the lobby, as a spectator, or with the host's approval during a game. */
  function Join(m: Manager, c: string, p: Player, approved: bool): Manager {
    if c !in m.rooms then m
    else
      var r := m.rooms[c].room;
      if r.state != Lobby && !p.spectator && !approved then m
      else if !Admits(r, p.spectator) then m
      else PutRoom(m.(playerToRoom := m.playerToRoom[p.id := c]), c, AddPlayer(m.rooms[c], p))
  }

  function AcceptRole(m: Manager, c: string, id: string): Manager {
    if c !in m.rooms then m
    else match GetPlayer(m.rooms[c], id)
      case None => m
      case Some(p) =>
        if !p.connected || !p.spectator || !Admits(m.rooms[c].room, false) then m
        else PutRoom(m, c, SetPlayer(m.rooms[c], p.(spectator := false, score := 0, hasGuessed := false)))
  }

  /* leave_room */
  ghost function Leave(m: Manager, id: string): Manager {
    match FindRoom(m, id)
    case None => m
    case Some(c) =>
      var r := m.rooms[c].room;
      if r.state != Lobby then m
      else
        var rest := Without(r.players, id);
        if rest == [] then DeleteRoom(Depart(m, c, id, r.hostId), c)
        else Depart(m, c, id, if r.hostId == id then rest[0].id else r.hostId)
  }

  /* remove_player */
  ghost function Remove(m: Manager, id: string): Manager {
    match FindRoom(m, id)
    case None => m
    case Some(c) =>
      var r := m.rooms[c].room;
      var rest := Without(r.players, id);
      if rest == [] then DeleteRoom(Depart(m, c, id, r.hostId), c)
      else
        var next := NextHost(rest);
        Depart(m, c, id, if r.hostId != id then r.hostId else if next.Some? then next.value.id else rest[0].id)
  }

  /* _permanently_remove_player */
  ghost function Expire(m: Manager, id: string): Manager {
    match FindRoom(m, id)
    case None => m
    case Some(c) =>
      var r := m.rooms[c].room;
      var rest := Without(r.players, id);
      var next := NextHost(rest);
      if next.None? then DeleteRoom(Depart(m, c, id, r.hostId), c)
      else Depart(m, c, id, if r.hostId != id then r.hostId else next.value.id)
  }

  /* kick_player */
  ghost function HostKick(m: Manager, host: string, target: string): Manager {
    match FindRoom(m, host)
    case None => m
    case Some(c) =>
      var r := m.rooms[c].room;
      if r.hostId != host || r.state != Lobby || GetPlayer(m.rooms[c], target).None? || target == r.hostId then m
      else Depart(m, c, target, r.hostId)
  }

  ghost function TransferHost(m: Manager, host: string, target: string): Manager {
    match FindRoom(m, host)
    case None => m
    case Some(c) =>
      var e := m.rooms[c];
      var t := GetPlayer(e, target);
      if e.room.hostId != host || target == host || t.None? || !t.value.connected || t.value.spectator then m
      else PutRoom(m, c, e.(room := e.room.(hostId := target)))
  }

  function ReassignHost(m: Manager, c: string, oldHost: string): Manager {
    if c !in m.rooms || m.rooms[c].room.hostId != oldHost then m
    else
      var e := m.rooms[c];
      var p := GetPlayer(e, oldHost);
      if p.Some? && p.value.connected then m
      else match NextHost(e.room.players)
        case Some(next) => PutRoom(m, c, e.(room := e.room.(hostId := next.id)))
        case None => if e.room.state == Lobby || e.room.state == GameOver then DeleteRoom(m, c) else m
  }

  function Reconnect(m: Manager, c: string, id: string): Manager {
    if c !in m.rooms then m
    else match GetPlayer(m.rooms[c], id)
      case None => m
      case Some(p) => PutRoom(m, c, SetPlayer(m.rooms[c], p.(connected := true, disconnectTime := None)))
  }

  // ---- Vote-kicks ----

  function Required(ps: seq<Player>, target: string): nat { Voters(ps, target) / 2 + 1 }

  /* _execute_vote_kick_passed: without an eligible player the host id is left as it is. */
  function ExecuteKick(m: Manager, c: string, target: string): Manager
    requires c in m.rooms
  {
    var r := m.rooms[c].room;
    var next := NextHost(Without(r.players, target));
    Depart(m, c, target, if r.hostId == target && next.Some? then next.value.id else r.hostId)
  }

  /* Ends the vote and kicks when the votes suffice. */
  function Count(m: Manager, c: string): Manager
    requires c in m.rooms && c in m.votes
  {
    var v := m.votes[c];
    if |v.votes| < Required(m.rooms[c].room.players, v.target) then m
    else
      var m1 := m.(votes := m.votes - {c});
      if GetPlayer(m.rooms[c], v.target).None? then m1 else ExecuteKick(m1, c, v.target)
  }

  /* `cooling` says whether a failed vote against the target is less than thirty seconds old. */
  ghost function StartVote(m: Manager, initiator: string, target: string, cooling: bool): Manager {
    match FindRoom(m, initiator)
    case None => m
    case Some(c) =>
      var e := m.rooms[c];
      var t := GetPlayer(e, target);
      if c in m.votes || initiator == target || t.None? || !t.value.connected then m
      else if Connected(e.room.players) < 3 || cooling then m
      else if 1 >= Required(e.room.players, target) then ExecuteKick(m, c, target)
      else m.(votes := m.votes[c := Vote(target, {initiator})])
  }

  function CastIn(m: Manager, c: string, voter: string, yes: bool): Manager
    requires c in m.rooms
  {
    var p := GetPlayer(m.rooms[c], voter);
    if c !in m.votes || voter == m.votes[c].target || p.None? || !p.value.connected then m
    else
      var v := m.votes[c];
      Count(m.(votes := m.votes[c := v.(votes := if yes then v.votes + {voter} else v.votes - {voter})]), c)
  }

  ghost function CastVote(m: Manager, voter: string, yes: bool): Manager {
    match FindRoom(m, voter)
    case None => m
    case Some(c) => CastIn(m, c, voter, yes)
  }

  function VoteTimeout(m: Manager, c: string, target: string): Manager {
    if c in m.votes && m.votes[c].target == target then m.(votes := m.votes - {c}) else m
  }

  /* The vote's part of a disconnect. */
  function WithdrawVoter(m: Manager, c: string, id: string): Manager
    requires c in m.rooms
  {
    if c !in m.votes then m
    else
      var v := m.votes[c];
      if v.target == id then m.(votes := m.votes - {c})
      else
        var m1 := m.(votes := m.votes[c := v.(votes := v.votes - {id})]);
        if Voters(m.rooms[c].room.players, v.target) < 2 then m.(votes := m.votes - {c}) else Count(m1, c)
  }

  function Unplug(m: Manager, c: string, p: Player): Manager
    requires c in m.rooms
  {
    PutRoom(m, c, SetPlayer(m.rooms[c], p.(connected := false)))
  }

  /* A lobby or finished game whose host leaves it with nobody connected is deleted. */
  function CloseIfAbandoned(m: Manager, c: string, id: string): Manager {
    if c !in m.rooms then m
    else
      var r := m.rooms[c].room;
      if r.hostId == id && Connected(r.players) == 0 && (r.state == Lobby || r.state == GameOver)
      then DeleteRoom(m, c)
      else m
  }

  ghost function Disconnect(m: Manager, id: string): Manager {
    match FindRoom(m, id)
    case None => m
    case Some(c) =>
      match GetPlayer(m.rooms[c], id)
      case None => m
      case Some(p) =>
        CloseIfAbandoned(WithdrawVoter(Unplug(m, c, p), c, id), c, id)
  }
}
