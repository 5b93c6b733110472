/** The records of backend/models.py. Players are values; a room's list of them is a sequence. */
module Models {

  datatype Option<+T> = None | Some(value: T)

  type Pos = n: int | n > 0 witness 1

  datatype RoomState = Lobby | WordSelection | Playing | GameOver

  datatype TurnEndReason = TimerExpired | AllGuessed | DrawerDisconnected

  datatype Player = Player(
    id: string,
    name: string,
    score: int,
    hasGuessed: bool,
    connected: bool,
    isReady: bool,
    avatar: Option<string>,
    disconnectTime: Option<real>,
    spectator: bool,
    guessTime: real)

  datatype GameConfig = GameConfig(
    numRounds: Pos,
    turnDuration: Pos,
    maxPlayers: int,
    customWords: seq<string>,
    password: Option<string>)

  /* `id` stands for the identity of the turn object, which timers compare with `is`. */
  datatype TurnState = TurnState(
    id: nat,
    drawerId: string,
    word: string,
    hint: string,
    startTime: real,
    wordChoices: seq<string>,
    guessOrder: seq<string>)

  datatype Room = Room(
    code: string,
    hostId: string,
    players: seq<Player>,
    config: GameConfig,
    state: RoomState,
    currentRound: int,
    drawerIndex: nat,
    turn: Option<TurnState>,
    usedWords: set<string>,
    wordPool: seq<string>)

  predicate Eligible(p: Player) { p.connected && !p.spectator }

  function Ids(ps: seq<Player>): set<string> { set i | 0 <= i < |ps| :: ps[i].id }

  predicate UniqueIds(ps: seq<Player>) {
    forall i, j :: 0 <= i < j < |ps| ==> ps[i].id != ps[j].id
  }

  /* The linear scan behind every lookup by id. */
  function Find(ps: seq<Player>, id: string): (r: Option<Player>)
    ensures r.Some? ==> r.value in ps && r.value.id == id
    ensures r.None? <==> id !in Ids(ps)
  {
    if ps == [] then None
    else if ps[0].id == id then assert id in Ids(ps); Some(ps[0])
    else
      assert forall i :: 0 < i < |ps| ==> ps[i] == ps[1..][i - 1];
      assert Ids(ps) == {ps[0].id} + Ids(ps[1..]);
      Find(ps[1..], id)
  }

  /* With distinct ids a player of the list is found under its id. */
  lemma {:induction false} FindMember(ps: seq<Player>, i: nat)
    requires UniqueIds(ps) && i < |ps|
    ensures Find(ps, ps[i].id) == Some(ps[i])
  {
    if i > 0 {
      assert ps[0].id != ps[i].id;
      FindMember(ps[1..], i - 1);
    }
  }

  function Without(ps: seq<Player>, id: string): (r: seq<Player>)
    ensures |r| <= |ps|
    ensures forall p :: p in r <==> p in ps && p.id != id
  {
    if ps == [] then []
    else (if ps[0].id == id then [] else [ps[0]]) + Without(ps[1..], id)
  }

  lemma {:induction false} WithoutKeeps(ps: seq<Player>, id: string)
    ensures Ids(Without(ps, id)) == Ids(ps) - {id}
    ensures UniqueIds(ps) ==> UniqueIds(Without(ps, id))
  {
    var r := Without(ps, id);
    forall x | x in Ids(ps) - {id}
      ensures x in Ids(r)
    {
      var i :| 0 <= i < |ps| && ps[i].id == x;
      assert ps[i] in r;
    }
    forall x | x in Ids(r)
      ensures x in Ids(ps) - {id}
    {
      var i :| 0 <= i < |r| && r[i].id == x;
      assert r[i] in ps;
    }
    if UniqueIds(ps) {
      WithoutUnique(ps, id);
    }
  }

  lemma {:induction false} WithoutUnique(ps: seq<Player>, id: string)
    requires UniqueIds(ps)
    ensures UniqueIds(Without(ps, id))
  {
    if ps != [] {
      WithoutUnique(ps[1..], id);
      var r := Without(ps[1..], id);
      forall i | 0 <= i < |r|
        ensures r[i].id != ps[0].id
      {
        assert r[i] in ps[1..];
      }
    }
  }

  /* Rewrites the player object with p's id, wherever it is listed. */
  function Replace(ps: seq<Player>, p: Player): (r: seq<Player>)
    ensures |r| == |ps|
    ensures forall i :: 0 <= i < |ps| ==> r[i] == if ps[i].id == p.id then p else ps[i]
    ensures Ids(r) == Ids(ps)
    ensures UniqueIds(ps) ==> UniqueIds(r)
  {
    var r := seq(|ps|, i requires 0 <= i < |ps| => if ps[i].id == p.id then p else ps[i]);
    assert forall i :: 0 <= i < |ps| ==> r[i].id == ps[i].id;
    r
  }

  lemma {:induction false} WithoutAbsent(ps: seq<Player>, id: string)
    requires forall i :: 0 <= i < |ps| ==> ps[i].id != id
    ensures Without(ps, id) == ps
  {
    if ps != [] {
      WithoutAbsent(ps[1..], id);
      assert [ps[0]] + ps[1..] == ps;
    }
  }

  /* Taking a player out leaves the others in their order. */
  lemma {:induction false} WithoutExactly(ps: seq<Player>, i: nat)
    requires UniqueIds(ps) && i < |ps|
    ensures Without(ps, ps[i].id) == ps[..i] + ps[i + 1..]
  {
    var tail := ps[1..];
    if i == 0 {
      WithoutAbsent(tail, ps[0].id);
    } else {
      assert ps[0].id != ps[i].id;
      WithoutExactly(tail, i - 1);
      assert tail[i - 1] == ps[i];
      OneMoreInFront(ps, i);
    }
  }

  lemma OneMoreInFront(ps: seq<Player>, i: nat)
    requires 0 < i < |ps|
    ensures [ps[0]] + (ps[1..][..i - 1] + ps[1..][i..]) == ps[..i] + ps[i + 1..]
  {
  }

  /* The ids of the players of a kind. */
  ghost function IdsWhere(ps: seq<Player>, kind: Player -> bool): set<string> {
    set i | 0 <= i < |ps| && kind(ps[i]) :: ps[i].id
  }

  lemma IdsWhereStep(ps: seq<Player>, kind: Player -> bool)
    requires UniqueIds(ps) && ps != []
    ensures IdsWhere(ps, kind) == (if kind(ps[0]) then {ps[0].id} else {}) + IdsWhere(ps[1..], kind)
    ensures ps[0].id !in IdsWhere(ps[1..], kind)
  {
    var tail := ps[1..];
    assert forall i :: 0 <= i < |tail| ==> tail[i] == ps[i + 1];
    forall x | x in IdsWhere(ps, kind)
      ensures x in IdsWhere(tail, kind) || (kind(ps[0]) && x == ps[0].id)
    {
      var i :| 0 <= i < |ps| && kind(ps[i]) && ps[i].id == x;
      if i > 0 {
        assert tail[i - 1] == ps[i];
      }
    }
  }

  function IsConnected(): Player -> bool { (p: Player) => p.connected }

  function IsActive(): Player -> bool { (p: Player) => !p.spectator }

  function CanDraw(): Player -> bool { (p: Player) => p.connected && !p.spectator }

  /* What the counts count. */
  lemma {:induction false} CountsExactly(ps: seq<Player>)
    requires UniqueIds(ps)
    ensures CountEligible(ps) == |IdsWhere(ps, CanDraw())|
    ensures Connected(ps) == |IdsWhere(ps, IsConnected())|
    ensures Active(ps) == |IdsWhere(ps, IsActive())|
  {
    if ps != [] {
      CountsExactly(ps[1..]);
      IdsWhereStep(ps, CanDraw());
      IdsWhereStep(ps, IsConnected());
      IdsWhereStep(ps, IsActive());
    }
  }

  /* How many listed players can draw: the sum over connected non-spectators. */
  function CountEligible(ps: seq<Player>): nat {
    if ps == [] then 0 else (if Eligible(ps[0]) then 1 else 0) + CountEligible(ps[1..])
  }

  function Connected(ps: seq<Player>): nat {
    if ps == [] then 0 else (if ps[0].connected then 1 else 0) + Connected(ps[1..])
  }

  function Active(ps: seq<Player>): nat {
    if ps == [] then 0 else (if ps[0].spectator then 0 else 1) + Active(ps[1..])
  }
}
