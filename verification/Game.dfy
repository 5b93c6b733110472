/** Turns, guesses and scores of one room (backend/game_engine.py, backend/room_manager.py).
    Every handler is one step of a state machine; timers are pending events that may fire in
    any order, also after their turn is over. */
module Game {
  import opened Models
  import opened Rotation
  import opened Hints
  import opened Scoring
  import opened Text

  datatype TimerKind = Hint40 | Hint70 | TurnEnd

  datatype Timer = Timer(kind: TimerKind, turn: nat)

  type Payload = map<string, int>

  /* What has happened so far: the `scores` of every turn_ended message and the turn it was sent
     for; where in that list each player's score started from zero; the positions drawn since the
     game began, in a game that began in round `base`, and the largest roster at a drawing. */
  datatype History = History(
    payloads: seq<Payload>,
    ended: seq<nat>,
    since: map<string, nat>,
    drawn: seq<Slot>,
    base: int,
    widest: nat)

  datatype State = State(
    room: Room,
    pending: Option<seq<string>>,
    timers: set<Timer>,
    nextTurn: nat,
    waiting: bool,
    log: History)

  // ---- Scoring a turn ----

  function Clamp(x: real, hi: real): real {
    var y := if x < hi then x else hi;
    if y > 0.0 then y else 0.0
  }

  function ScoreOf(guessTime: real, t: TurnState, duration: Pos, position: nat): int {
    GuesserScore(Clamp(guessTime - t.startTime, duration as real), duration as real, position)
  }

  function AddScore(ps: seq<Player>, id: string, points: int): (r: seq<Player>)
    ensures |r| == |ps|
    ensures forall i :: 0 <= i < |ps| ==>
              r[i] == ps[i].(score := ps[i].score + if ps[i].id == id then points else 0)
  {
    seq(|ps|, i requires 0 <= i < |ps| => ps[i].(score := ps[i].score + if ps[i].id == id then points else 0))
  }

  /* The loop over the first k entries of guess_order: players, scores_payload, guesser_scores. */
  datatype Tally = Tally(players: seq<Player>, payload: Payload, scores: seq<int>)

  function TallyGuessers(ps: seq<Player>, t: TurnState, duration: Pos, k: nat): Tally
    requires k <= |t.guessOrder|
  {
    if k == 0 then Tally(ps, map[], [])
    else
      var before := TallyGuessers(ps, t, duration, k - 1);
      var id := t.guessOrder[k - 1];
      match Find(ps, id)
      case None => before
      case Some(p) =>
        var s := ScoreOf(p.guessTime, t, duration, k);
        Tally(AddScore(before.players, id, s), before.payload[id := s], before.scores + [s])
  }

  function TallyTurn(ps: seq<Player>, t: TurnState, duration: Pos, reason: TurnEndReason): Tally {
    if reason == DrawerDisconnected then Tally(ps, map[], [])
    else
      var g := TallyGuessers(ps, t, duration, |t.guessOrder|);
      if Find(ps, t.drawerId).None? then g
      else
        var bonus := DrawerBonus(g.scores);
        Tally(AddScore(g.players, t.drawerId, bonus), g.payload[t.drawerId := bonus], g.scores)
  }

  // ---- Handlers ----

  function StartTurn(s: State, offer: seq<string>): State {
    s.(room := s.room.(state := WordSelection),
       pending := Some(offer),
       log := s.log.(drawn := s.log.drawn + [Slot(s.room.currentRound, s.room.drawerIndex)],
                     widest := if s.log.widest < |s.room.players| then |s.room.players| else s.log.widest))
  }

  function Advance(s: State, offer: seq<string>): State {
    match Next(s.room.players, s.room.currentRound, s.room.drawerIndex, s.room.config.numRounds)
    case Pause => s.(waiting := true)
    case Finish(r, i) => s.(room := s.room.(state := GameOver, currentRound := r, drawerIndex := i))
    case Draw(r, i) => StartTurn(s.(room := s.room.(currentRound := r, drawerIndex := i)), offer)
  }

  /* Scores, the turn_ended broadcast and clearing the turn. */
  function Settle(s: State, reason: TurnEndReason): State
    requires s.room.turn.Some?
  {
    var t := s.room.turn.value;
    var tally := TallyTurn(s.room.players, t, s.room.config.turnDuration, reason);
    s.(room := s.room.(players := tally.players, turn := None),
       log := s.log.(payloads := s.log.payloads + [tally.payload], ended := s.log.ended + [t.id]))
  }

  function EndTurn(s: State, reason: TurnEndReason, offer: seq<string>): State {
    if s.room.turn.None? then s else Advance(Settle(s, reason), offer)
  }

  function ResetGuesses(ps: seq<Player>): (r: seq<Player>)
    ensures |r| == |ps|
    ensures forall i :: 0 <= i < |ps| ==> r[i] == ps[i].(hasGuessed := false)
  {
    seq(|ps|, i requires 0 <= i < |ps| => ps[i].(hasGuessed := false))
  }

  /* An out-of-range drawer index raises in the source, which leaves the room as it was. */
  function SelectWord(s: State, who: string, word: string, now: real): State {
    var room := s.room;
    if room.drawerIndex >= |room.players| || who != room.players[room.drawerIndex].id then s
    else if s.pending.None? || word !in s.pending.value then s
    else
      var t := TurnState(s.nextTurn, who, word, InitialHint(word), now, s.pending.value, []);
      s.(room := room.(turn := Some(t), state := Playing, players := ResetGuesses(room.players),
                       usedWords := room.usedWords + {word}),
         pending := None,
         timers := s.timers + {Timer(Hint40, t.id), Timer(Hint70, t.id), Timer(TurnEnd, t.id)},
         nextTurn := s.nextTurn + 1)
  }

  function AutoSelect(s: State, drawer: string, pick: nat, now: real): State {
    if s.room.state == WordSelection && s.pending.Some? && s.pending.value != []
    then SelectWord(s, drawer, s.pending.value[pick % |s.pending.value|], now)
    else s
  }

  predicate Live(s: State, turn: nat) {
    s.room.turn.Some? && s.room.turn.value.id == turn && s.room.state == Playing
  }

  function FireTimer(s: State, t: Timer, pick: nat, offer: seq<string>): State {
    if t !in s.timers then s
    else
      var s1 := s.(timers := s.timers - {t});
      if !Live(s, t.turn) then s1
      else if t.kind == TurnEnd then EndTurn(s1, TimerExpired, offer)
      else
        var turn := s.room.turn.value;
        if |turn.hint| != |turn.word| then s1
        else s1.(room := s.room.(turn := Some(turn.(hint := Reveal(turn.hint, turn.word, pick)))))
  }

  predicate AllHaveGuessed(ps: seq<Player>, drawerId: string) {
    forall i :: 0 <= i < |ps| && ps[i].id != drawerId && Eligible(ps[i]) ==> ps[i].hasGuessed
  }

  predicate MayGuess(s: State, id: string, text: string) {
    && s.room.turn.Some? && s.room.state == Playing
    && |text| <= 100
    && Find(s.room.players, id).Some?
    && id != s.room.turn.value.drawerId
    && var p := Find(s.room.players, id).value; Eligible(p) && !p.hasGuessed
  }

  predicate Correct(text: string, word: string) { LowerAll(Strip(text)) == LowerAll(word) }

  function MarkGuess(s: State, p: Player, now: real): State
    requires s.room.turn.Some?
  {
    var t := s.room.turn.value;
    s.(room := s.room.(players := Replace(s.room.players, p.(hasGuessed := true, guessTime := now)),
                       turn := Some(t.(guessOrder := t.guessOrder + [p.id]))))
  }

  function Guess(s: State, id: string, text: string, now: real, offer: seq<string>): State {
    if !MayGuess(s, id, text) || !Correct(text, s.room.turn.value.word) then s
    else
      var s1 := MarkGuess(s, Find(s.room.players, id).value, now);
      if AllHaveGuessed(s1.room.players, s1.room.turn.value.drawerId) then EndTurn(s1, AllGuessed, offer) else s1
  }

  predicate InGame(r: Room) { r.state == Playing || r.state == WordSelection }

  /* What a departure means for the game under way. */
  function CheckRoster(s: State, offer: seq<string>): State {
    if CountEligible(s.room.players) < 2 then s.(waiting := true)
    else if s.room.turn.Some? && s.room.state == Playing &&
            AllHaveGuessed(s.room.players, s.room.turn.value.drawerId)
    then EndTurn(s, AllGuessed, offer)
    else s
  }

  function Disconnect(s: State, id: string, now: real, offer: seq<string>): State {
    match Find(s.room.players, id)
    case None => s
    case Some(p) =>
      var ps := Replace(s.room.players, p.(connected := false, disconnectTime := Some(now)));
      var s1 := s.(room := s.room.(players := ps));
      if !InGame(s.room) then s1
      else if s.room.turn.Some? && s.room.turn.value.drawerId == id
      then EndTurn(s1, DrawerDisconnected, offer)
      else CheckRoster(s1, offer)
  }

  function Reconnect(s: State, id: string): State {
    match Find(s.room.players, id)
    case None => s
    case Some(p) =>
      var ps := Replace(s.room.players, p.(connected := true, disconnectTime := None));
      s.(room := s.room.(players := ps), waiting := s.waiting && Connected(ps) < 2)
  }

  function NewPlayer(id: string, name: string, spectator: bool): Player {
    Player(id, name, 0, false, true, false, None, None, spectator, 0.0)
  }

  function Join(s: State, id: string, name: string, spectator: bool, approved: bool): State {
    var ps := s.room.players + [NewPlayer(id, name, spectator)];
    s.(room := s.room.(players := ps),
       waiting := s.waiting && !(approved && Connected(ps) >= 2),
       log := s.log.(since := s.log.since[id := |s.log.payloads|]))
  }

  /* A spectator accepted as a player starts from zero. */
  function BecomePlayer(s: State, id: string): State {
    match Find(s.room.players, id)
    case None => s
    case Some(p) =>
      if !p.connected || !p.spectator then s
      else
        var ps := Replace(s.room.players, p.(spectator := false, score := 0, hasGuessed := false));
        s.(room := s.room.(players := ps),
           log := s.log.(since := s.log.since[id := |s.log.payloads|]))
  }

  /* Removal when the grace window ends or on leaving the lobby. */
  function Remove(s: State, id: string): State {
    var ps := Without(s.room.players, id);
    s.(room := s.room.(players := ps), waiting := s.waiting || (InGame(s.room) && Connected(ps) < 2))
  }

  /* Removal by majority vote. */
  function Kick(s: State, id: string, offer: seq<string>): State {
    var wasDrawer := s.room.turn.Some? && s.room.turn.value.drawerId == id;
    var s1 := s.(room := s.room.(players := Without(s.room.players, id)));
    if wasDrawer then
      var s2 := EndTurn(s1, DrawerDisconnected, offer);
      if InGame(s2.room) && CountEligible(s2.room.players) < 2 then s2.(waiting := true) else s2
    else if InGame(s1.room) then CheckRoster(s1, offer)
    else s1
  }

  function WaitExpires(s: State): State {
    if !s.waiting then s
    else if Connected(s.room.players) < 2
    then s.(waiting := false, room := s.room.(turn := None, state := GameOver))
    else s.(waiting := false)
  }

  function StartIndex(r: Room): nat {
    match FirstEligible(r.players, 0)
    case Some(i) => i
    case None => r.drawerIndex
  }

  function ResetReady(ps: seq<Player>): (r: seq<Player>)
    ensures |r| == |ps|
    ensures forall i :: 0 <= i < |ps| ==> r[i] == ps[i].(isReady := false)
  {
    seq(|ps|, i requires 0 <= i < |ps| => ps[i].(isReady := false))
  }

  /* start_game followed by the start_turn that its caller issues. */
  function StartGame(s: State, who: string, offer: seq<string>): State {
    if s.room.hostId != who || s.room.state != Lobby || Active(s.room.players) < 2 then s
    else
      var s1 := s.(room := s.room.(players := ResetReady(s.room.players), state := WordSelection, currentRound := 1,
                                    drawerIndex := StartIndex(s.room)),
                   log := s.log.(drawn := [], base := 1, widest := 0));
      StartTurn(s1, offer)
  }

  function ZeroScores(ps: seq<Player>): (r: seq<Player>)
    ensures |r| == |ps|
    ensures forall i :: 0 <= i < |ps| ==> r[i] == ps[i].(score := 0, hasGuessed := false)
  {
    seq(|ps|, i requires 0 <= i < |ps| => ps[i].(score := 0, hasGuessed := false))
  }

  function Rematch(s: State, who: string): State {
    if s.room.hostId != who || s.room.state != GameOver then s
    else
      s.(room := s.room.(players := ZeroScores(s.room.players), currentRound := 0, drawerIndex := 0,
                         usedWords := {}, wordPool := [], turn := None, state := Lobby),
         log := s.log.(since := map id | id in s.log.since :: |s.log.payloads|, drawn := [], base := 0, widest := 0))
  }

  /* The settings in a request; absent ones are left alone. The words and the password are as the
     handler has cleaned them. */
  datatype Settings = Settings(
    numRounds: Option<int>,
    turnDuration: Option<int>,
    maxPlayers: Option<int>,
    customWords: Option<seq<string>>,
    password: Option<Option<string>>)

  predicate InRange(x: Option<int>, lo: int, hi: int) { x.Some? ==> lo <= x.value <= hi }

  predicate ValidSettings(x: Settings) {
    InRange(x.numRounds, 2, 10) && InRange(x.turnDuration, 30, 180) && InRange(x.maxPlayers, 2, 12)
  }

  function Or<T>(x: Option<T>, other: T): T { if x.Some? then x.value else other }

  function Configured(c: GameConfig, x: Settings): GameConfig
    requires ValidSettings(x)
  {
    GameConfig(Or(x.numRounds, c.numRounds), Or(x.turnDuration, c.turnDuration), Or(x.maxPlayers, c.maxPlayers),
               Or(x.customWords, c.customWords), Or(x.password, c.password))
  }

  function UpdateSettings(s: State, who: string, x: Settings): State {
    if s.room.hostId != who || s.room.state != Lobby || !ValidSettings(x) then s
    else s.(room := s.room.(config := Configured(s.room.config, x)))
  }

  /* The room registry hands the host role to a listed player. */
  function ChangeHost(s: State, id: string): State {
    if Find(s.room.players, id).None? then s else s.(room := s.room.(hostId := id))
  }

  // ---- A new worker takes over ----

  predicate Truthy(s: Option<string>) { s.Some? && s.value != "" }

  /* A missing or zero time counts as none. */
  function LoadTime(t: Option<real>, now: real): real {
    if t.Some? && t.value != 0.0 then t.value else now
  }

  /* What a player is after a restore. */
  function Offline(p: Player, now: real): Player {
    p.(connected := false, spectator := false, disconnectTime := Some(LoadTime(p.disconnectTime, now)),
       guessTime := now)
  }

  function AllOffline(ps: seq<Player>, now: real): (r: seq<Player>)
    ensures |r| == |ps|
    ensures forall i :: 0 <= i < |ps| ==> r[i] == Offline(ps[i], now)
  {
    seq(|ps|, i requires 0 <= i < |ps| => Offline(ps[i], now))
  }

  /* snapshot_room on one worker and restore_room on another: everybody is offline, the turn is a new
     object with a fresh clock, and offered words, timers and countdowns are gone. */
  function Restore(s: State, now: real): State {
    var c, t := s.room.config, s.room.turn;
    s.(room := s.room.(players := AllOffline(s.room.players, now),
                       config := c.(password := if Truthy(c.password) then c.password else None),
                       turn := if t.Some? && InGame(s.room)
                               then Some(t.value.(id := s.nextTurn, startTime := now)) else None),
       pending := None, timers := {}, nextTurn := s.nextTurn + 1, waiting := false)
  }

  // ---- Runs ----

  datatype Event =
    | EStartGame(who: string, offer: seq<string>)
    | ESelectWord(who: string, word: string, now: real)
    | EAutoSelect(drawer: string, pick: nat, now: real)
    | EFire(timer: Timer, pick: nat, offer: seq<string>)
    | EGuess(who: string, text: string, now: real, offer: seq<string>)
    | EDisconnect(id: string, now: real, offer: seq<string>)
    | EReconnect(id: string)
    | EJoin(id: string, name: string, spectator: bool, approved: bool)
    | EBecomePlayer(id: string)
    | ERemove(id: string)
    | EKick(id: string, offer: seq<string>)
    | EWaitExpires
    | ERematch(who: string)
    | ESettings(who: string, settings: Settings)
    | EChangeHost(id: string)
    | ERestore(now: real)

  function Apply(s: State, e: Event): State {
    match e
    case EStartGame(who, offer) => StartGame(s, who, offer)
    case ESelectWord(who, word, now) => SelectWord(s, who, word, now)
    case EAutoSelect(d, pick, now) => AutoSelect(s, d, pick, now)
    case EFire(t, pick, offer) => FireTimer(s, t, pick, offer)
    case EGuess(who, text, now, offer) => Guess(s, who, text, now, offer)
    case EDisconnect(id, now, offer) => Disconnect(s, id, now, offer)
    case EReconnect(id) => Reconnect(s, id)
    case EJoin(id, name, spectator, approved) => Join(s, id, name, spectator, approved)
    case EBecomePlayer(id) => BecomePlayer(s, id)
    case ERemove(id) => Remove(s, id)
    case EKick(id, offer) => Kick(s, id, offer)
    case EWaitExpires => WaitExpires(s)
    case ERematch(who) => Rematch(s, who)
    case ESettings(who, x) => UpdateSettings(s, who, x)
    case EChangeHost(id) => ChangeHost(s, id)
    case ERestore(now) => Restore(s, now)
  }

  /* Ids are freshly drawn UUIDs: a join never reuses one. */
  predicate Fresh(s: State, e: Event) { e.EJoin? ==> e.id !in s.log.since }

  function Run(s: State, es: seq<Event>): State
    decreases |es|
  {
    if es == [] then s else Apply(Run(s, es[..|es| - 1]), es[|es| - 1])
  }

  ghost predicate FreshRun(s: State, es: seq<Event>) {
    forall k :: 0 <= k < |es| ==> Fresh(Run(s, es[..k]), es[k])
  }

  /* A room just created by its host. */
  function Created(code: string, host: string, name: string, config: GameConfig): State {
    State(Room(code, host, [NewPlayer(host, name, false)], config, Lobby, 0, 0, None, {}, []),
          None, {}, 0, false, History([], [], map[host := 0], [], 0, 0))
  }
}
