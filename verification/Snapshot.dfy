/** Saving a room to a dictionary and rebuilding it on another worker
    (backend/room_manager.py:202-303). */
module Snapshot {
  import opened Models
  import RM = RoomManager
  import RoomSafety
  import Game
  import GameSafety

  datatype SavedPlayer = SavedPlayer(
    id: string, name: string, score: int, hasGuessed: bool, connected: bool, isReady: bool,
    avatar: Option<string>, disconnectTime: Option<real>)

  datatype SavedTurn = SavedTurn(
    drawerId: string, word: string, hint: string, startTime: real, wordChoices: seq<string>, guessOrder: seq<string>)

  /* The password key is present only for a truthy password. */
  datatype SavedConfig = SavedConfig(
    numRounds: Pos, turnDuration: Pos, maxPlayers: int, customWords: seq<string>, isPrivate: bool,
    password: Option<string>)

  datatype Saved = Saved(
    code: string, hostId: string, state: string, currentRound: int, drawerIndex: nat, config: SavedConfig,
    usedWords: seq<string>, wordPool: seq<string>, players: seq<SavedPlayer>, turn: Option<SavedTurn>, time: real)

  function StateName(s: RoomState): string {
    match s
    case Lobby => "lobby"
    case WordSelection => "word_selection"
    case Playing => "playing"
    case GameOver => "game_over"
  }

  /* An unknown name falls back to the lobby. */
  function ParseState(name: string): RoomState {
    if name == "word_selection" then WordSelection
    else if name == "playing" then Playing
    else if name == "game_over" then GameOver
    else Lobby
  }

  /* The four names read back, and any other counts as the lobby. */
  lemma ParseStateExactly(state: RoomState, name: string)
    ensures StateName(Lobby) == "lobby" && StateName(WordSelection) == "word_selection"
    ensures StateName(Playing) == "playing" && StateName(GameOver) == "game_over"
    ensures ParseState(StateName(state)) == state
    ensures (forall x :: StateName(x) != name) ==> ParseState(name) == Lobby
  {
    if forall x :: StateName(x) != name {
      assert StateName(WordSelection) != name && StateName(Playing) != name && StateName(GameOver) != name;
    }
  }

  function SavePlayer(p: Player): SavedPlayer {
    SavedPlayer(p.id, p.name, p.score, p.hasGuessed, p.connected, p.isReady, p.avatar, p.disconnectTime)
  }

  function SavePlayers(ps: seq<Player>): seq<SavedPlayer> {
    seq(|ps|, i requires 0 <= i < |ps| => SavePlayer(ps[i]))
  }

  function SaveConfig(c: GameConfig): SavedConfig {
    SavedConfig(c.numRounds, c.turnDuration, c.maxPlayers, c.customWords, Game.Truthy(c.password),
                if Game.Truthy(c.password) then c.password else None)
  }

  /* A room is marked private, and its password kept, exactly when it has one that is not empty. */
  lemma SaveConfigExactly(c: GameConfig)
    ensures SaveConfig(c).isPrivate <==> c.password.Some? && c.password.value != ""
    ensures SaveConfig(c).isPrivate ==> SaveConfig(c).password == c.password
    ensures !SaveConfig(c).isPrivate ==> SaveConfig(c).password == None
  {
  }

  function SaveTurn(t: TurnState): SavedTurn {
    SavedTurn(t.drawerId, t.word, t.hint, t.startTime, t.wordChoices, t.guessOrder)
  }

  /* `order` is the order in which the set of used words happens to be listed. */
  function SaveRoom(r: Room, order: seq<string>, now: real): Saved {
    Saved(r.code, r.hostId, StateName(r.state), r.currentRound, r.drawerIndex, SaveConfig(r.config),
          order, r.wordPool, SavePlayers(r.players),
          if r.turn.Some? then Some(SaveTurn(r.turn.value)) else None, now)
  }

  function Words(order: seq<string>): set<string> { set w | w in order }

  function LoadConfig(c: SavedConfig): GameConfig {
    GameConfig(c.numRounds, c.turnDuration, c.maxPlayers, c.customWords, c.password)
  }

  /* Everybody comes back disconnected; the spectator flag is not saved. */
  function LoadPlayer(p: SavedPlayer, now: real): Player {
    Player(p.id, p.name, p.score, p.hasGuessed, false, p.isReady, p.avatar,
           Some(Game.LoadTime(p.disconnectTime, now)), false, now)
  }

  function LoadTurn(t: SavedTurn, now: real, id: nat): TurnState {
    TurnState(id, t.drawerId, t.word, t.hint, now, t.wordChoices, t.guessOrder)
  }

  function EmptyRoom(s: Saved): RM.Entry {
    RM.Entry(Room(s.code, s.hostId, [], LoadConfig(s.config), ParseState(s.state), s.currentRound, s.drawerIndex, None,
                  Words(s.usedWords), s.wordPool), map[])
  }

  function AddSaved(e: RM.Entry, ps: seq<SavedPlayer>, now: real): RM.Entry {
    if ps == [] then e
    else RM.AddPlayer(AddSaved(e, ps[..|ps| - 1], now), LoadPlayer(ps[|ps| - 1], now))
  }

  function TurnOf(s: Saved, now: real, id: nat): Option<TurnState> {
    var state := ParseState(s.state);
    if s.turn.Some? && (state == Playing || state == WordSelection) then Some(LoadTurn(s.turn.value, now, id)) else None
  }

  /* `id` is the identity of the turn object that is created. */
  function LoadRoom(s: Saved, now: real, id: nat): RM.Entry {
    var e := AddSaved(EmptyRoom(s), s.players, now);
    e.(room := e.room.(turn := TurnOf(s, now, id)))
  }

  method RestoreRoom(s: Saved, now: real, id: nat) returns (e: RM.Entry)
    ensures e == LoadRoom(s, now, id)
  {
    e := EmptyRoom(s);
    for i := 0 to |s.players|
      invariant e == AddSaved(EmptyRoom(s), s.players[..i], now)
    {
      assert s.players[..i + 1][..i] == s.players[..i];
      e := RM.AddPlayer(e, LoadPlayer(s.players[i], now));
    }
    assert s.players[..|s.players|] == s.players;
    var state := ParseState(s.state);
    if s.turn.Some? && (state == Playing || state == WordSelection) {
      e := e.(room := e.room.(turn := Some(LoadTurn(s.turn.value, now, id))));
    } else {
      e := e.(room := e.room.(turn := None));
    }
  }

  // ---- Round trips ----

  lemma {:induction false} AddSavedRoom(e: RM.Entry, ps: seq<SavedPlayer>, now: real)
    ensures var r := AddSaved(e, ps, now).room;
            r == e.room.(players := e.room.players + seq(|ps|, i requires 0 <= i < |ps| => LoadPlayer(ps[i], now)))
  {
    var loaded := seq(|ps|, i requires 0 <= i < |ps| => LoadPlayer(ps[i], now));
    if ps == [] {
      assert e.room.players + loaded == e.room.players;
    } else {
      var n := |ps| - 1;
      AddSavedRoom(e, ps[..n], now);
      var before := seq(n, i requires 0 <= i < n => LoadPlayer(ps[..n][i], now));
      assert loaded == before + [LoadPlayer(ps[n], now)];
      assert e.room.players + loaded == (e.room.players + before) + [LoadPlayer(ps[n], now)];
    }
  }

  lemma {:induction false} AddSavedIndexed(e: RM.Entry, ps: seq<SavedPlayer>, now: real)
    requires e.room.players == [] && e.byId == map[]
    requires forall i, j :: 0 <= i < j < |ps| ==> ps[i].id != ps[j].id
    ensures RoomSafety.Sound(AddSaved(e, ps, now), e.room.code)
    ensures AddSaved(e, ps, now).byId.Keys == set i | 0 <= i < |ps| :: ps[i].id
  {
    if ps != [] {
      var n := |ps| - 1;
      AddSavedIndexed(e, ps[..n], now);
      var before := AddSaved(e, ps[..n], now);
      assert ps[n].id !in before.byId;
      RoomSafety.AddSound(before, e.room.code, LoadPlayer(ps[n], now));
      assert (set i | 0 <= i < |ps| :: ps[i].id) == (set i | 0 <= i < n :: ps[..n][i].id) + {ps[n].id} by {
        assert forall i :: 0 <= i < n ==> ps[..n][i].id == ps[i].id;
      }
    }
  }

  predicate TurnSurvives(r: Room) { r.turn.None? || r.state == Playing || r.state == WordSelection }

  /* Restoring a snapshot gives back the room with everybody offline and a fresh clock on the turn,
     which is lost exactly when the room is in the lobby or the game is over. An empty password
     comes back as none. */
  lemma RestoreInvertsSnapshot(r: Room, order: seq<string>, t0: real, t1: real, id: nat)
    requires Words(order) == r.usedWords
    ensures LoadRoom(SaveRoom(r, order, t0), t1, id).room ==
            r.(players := Game.AllOffline(r.players, t1),
               config := r.config.(password := if Game.Truthy(r.config.password) then r.config.password else None),
               turn := if r.turn.Some? && TurnSurvives(r) then Some(r.turn.value.(id := id, startTime := t1)) else None)
  {
    var s := SaveRoom(r, order, t0);
    AddSavedRoom(EmptyRoom(s), s.players, t1);
    var loaded := seq(|s.players|, i requires 0 <= i < |s.players| => LoadPlayer(s.players[i], t1));
    assert [] + loaded == Game.AllOffline(r.players, t1);
  }

  /* The restored room is fit to be registered: its indexes agree and its host is present. */
  lemma RestoredRoomSound(r: Room, order: seq<string>, t0: real, t1: real, id: nat)
    requires UniqueIds(r.players) && r.hostId in Ids(r.players)
    ensures var e := LoadRoom(SaveRoom(r, order, t0), t1, id);
            RoomSafety.Sound(e, r.code) && RoomSafety.Hosted(e)
  {
    var s := SaveRoom(r, order, t0);
    AddSavedIndexed(EmptyRoom(s), s.players, t1);
    AddSavedRoom(EmptyRoom(s), s.players, t1);
    var i :| 0 <= i < |r.players| && r.players[i].id == r.hostId;
    assert s.players[i].id == r.hostId;
  }

  /* For a room in play that is the step which runs of the game take through a new worker. */
  lemma RestoreIsGameStep(s: Game.State, order: seq<string>, t0: real, t1: real)
    requires Words(order) == s.room.usedWords
    ensures LoadRoom(SaveRoom(s.room, order, t0), t1, s.nextTurn).room == Game.Restore(s, t1).room
  {
    RestoreInvertsSnapshot(s.room, order, t0, t1, s.nextTurn);
  }

  /* A room that play has reached never loses its turn in a snapshot. */
  lemma ReachableTurnSurvives(s: Game.State)
    requires GameSafety.Reachable(s)
    ensures TurnSurvives(s.room)
  {
    GameSafety.LiveTurnSafe(s);
  }

  /* A second snapshot differs from the first in connection and time fields, and in the order in
     which the set of used words happens to be listed. */
  lemma SecondSnapshot(r: Room, order: seq<string>, again: seq<string>, t0: real, t1: real, t2: real, id: nat)
    requires Words(order) == r.usedWords && TurnSurvives(r)
    ensures var s := SaveRoom(r, order, t0);
            && LoadRoom(s, t1, id).room.usedWords == r.usedWords
            && SaveRoom(LoadRoom(s, t1, id).room, again, t2) ==
            s.(usedWords := again,
               players := seq(|s.players|, i requires 0 <= i < |s.players| =>
                 s.players[i].(connected := false,
                               disconnectTime := Some(Game.LoadTime(s.players[i].disconnectTime, t1)))),
               turn := if s.turn.Some? then Some(s.turn.value.(startTime := t1)) else None,
               time := t2)
  {
    RestoreInvertsSnapshot(r, order, t0, t1, id);
  }
}
