/** What each event of a game does, in terms of the players, the turn and the timers
    (backend/game_engine.py, backend/room_manager.py): when it is ignored, what changes and what does
    not. All of it holds in every state that satisfies the invariant, so in every reachable one. */
module GameSteps {
  import opened Models
  import opened Rotation
  import opened Hints
  import opened Text
  import opened Game
  import opened GameSafety
  import Scoring

  // ---- Choosing a word ----

  /* The player at the drawer index asks for a word that was offered. */
  ghost predicate Chosen(s: State, who: string, word: string) {
    && s.room.drawerIndex < |s.room.players| && s.room.players[s.room.drawerIndex].id == who
    && s.pending.Some? && word in s.pending.value
  }

  ghost predicate FullyHidden(hint: string, word: string) {
    |hint| == |word| && forall k :: 0 <= k < |word| ==> hint[k] == if word[k] == ' ' then ' ' else '_'
  }

  ghost predicate FlagsCleared(ps: seq<Player>, qs: seq<Player>) {
    |qs| == |ps| && forall i :: 0 <= i < |ps| ==> qs[i] == ps[i].(hasGuessed := false)
  }

  ghost predicate NewTurn(s: State, t: TurnState, who: string, word: string, now: real) {
    && t.word == word && t.drawerId == who && t.startTime == now && t.guessOrder == []
    && Some(t.wordChoices) == s.pending && FullyHidden(t.hint, word)
    && t.id !in s.log.ended && (forall x :: x in s.timers ==> x.turn != t.id)
  }

  function TimersOf(turn: nat): set<Timer> { {Timer(Hint40, turn), Timer(Hint70, turn), Timer(TurnEnd, turn)} }

  /* A new turn on this word by this player, with its three timers and nobody having guessed. */
  ghost predicate TurnBegins(s: State, s': State, who: string, word: string, now: real) {
    && s'.room.turn.Some? && NewTurn(s, s'.room.turn.value, who, word, now)
    && s'.timers == s.timers + TimersOf(s'.room.turn.value.id)
    && s'.room.state == Playing && s'.pending.None? && FlagsCleared(s.room.players, s'.room.players)
    && s'.room.usedWords == s.room.usedWords + {word}
    && s'.room.(turn := s.room.turn, state := s.room.state, players := s.room.players,
                usedWords := s.room.usedWords) == s.room
    && s'.waiting == s.waiting && s'.log == s.log
  }

  /* A turn begins on the chosen word exactly when its drawer chose it from the offer; every other
     request changes nothing. */
  lemma SelectWordExactly(s: State, who: string, word: string, now: real)
    requires Inv(s)
    ensures Chosen(s, who, word) ==> TurnBegins(s, Apply(s, ESelectWord(who, word, now)), who, word, now)
    ensures !Chosen(s, who, word) ==> Apply(s, ESelectWord(who, word, now)) == s
  {
  }

  /* When the time to choose is up, a word of the offer is chosen, and any of them can be; otherwise
     nothing happens. */
  lemma AutoSelectExactly(s: State, drawer: string, pick: nat, now: real)
    requires Inv(s)
    ensures var s' := Apply(s, EAutoSelect(drawer, pick, now));
            if s.room.state == WordSelection && s.pending.Some? && s.pending.value != [] then
              && (exists word :: word in s.pending.value && s' == Apply(s, ESelectWord(drawer, word, now)))
              && (pick < |s.pending.value| ==> s' == Apply(s, ESelectWord(drawer, s.pending.value[pick], now)))
            else s' == s
  {
    if s.pending.Some? && s.pending.value != [] {
      var offer := s.pending.value;
      assert offer[pick % |offer|] in offer;
      assert pick < |offer| ==> pick % |offer| == pick;
    }
  }

  // ---- Ending a turn ----

  /* The entries of the guessers who are still there, in the order of their guesses. */
  function PresentEntries(ps: seq<Player>, order: seq<string>, p: Payload): seq<int> {
    if order == [] then []
    else
      var n := |order| - 1;
      PresentEntries(ps, order[..n], p) +
      if Find(ps, order[n]).Some? && order[n] in p then [p[order[n]]] else []
  }

  /* A drawer who is still there gets the rounded average of those entries, and nothing without any. */
  ghost predicate DrawerShare(ps: seq<Player>, t: TurnState, p: Payload) {
    Find(ps, t.drawerId).Some? ==>
      && t.drawerId in p
      && var scores := PresentEntries(ps, t.guessOrder, p);
         if scores == [] then p[t.drawerId] == 0
         else Scoring.NearestEven(Scoring.Sum(scores) as real / |scores| as real, p[t.drawerId])
  }

  lemma {:induction false} ScoresArePresent(ps: seq<Player>, t: TurnState, duration: Pos, k: nat, p: Payload)
    requires k <= |t.guessOrder| && forall j :: 0 <= j < k ==> PaidForPlace(ps, t, duration, p, j)
    ensures TallyGuessers(ps, t, duration, k).scores == PresentEntries(ps, t.guessOrder[..k], p)
  {
    if k > 0 {
      ScoresArePresent(ps, t, duration, k - 1, p);
      assert t.guessOrder[..k][..k - 1] == t.guessOrder[..k - 1];
      assert PaidForPlace(ps, t, duration, p, k - 1);
    }
  }

  lemma DrawerShareExactly(ps: seq<Player>, t: TurnState, duration: Pos, reason: TurnEndReason)
    requires NoDup(t.guessOrder) && t.drawerId !in t.guessOrder && reason != DrawerDisconnected
    ensures DrawerShare(ps, t, TallyTurn(ps, t, duration, reason).payload)
  {
    var p := TallyTurn(ps, t, duration, reason).payload;
    GuessersPaidExactly(ps, t, duration, reason);
    ScoresArePresent(ps, t, duration, |t.guessOrder|, p);
    assert t.guessOrder[..|t.guessOrder|] == t.guessOrder;
    Scoring.DrawerBonusExactly(TallyGuessers(ps, t, duration, |t.guessOrder|).scores);
  }

  /* Who is paid what at the end of a turn. */
  ghost predicate RightPayload(ps: seq<Player>, t: TurnState, duration: Pos, reason: TurnEndReason, p: Payload) {
    if reason == DrawerDisconnected then p == map[]
    else
      && (forall k :: 0 <= k < |t.guessOrder| ==> PaidForPlace(ps, t, duration, p, k))
      && (forall id :: id in p ==> id == t.drawerId || id in t.guessOrder)
      && DrawerShare(ps, t, p)
  }

  lemma PayloadExactly(ps: seq<Player>, t: TurnState, duration: Pos, reason: TurnEndReason)
    requires NoDup(t.guessOrder) && t.drawerId !in t.guessOrder
    ensures RightPayload(ps, t, duration, reason, TallyTurn(ps, t, duration, reason).payload)
  {
    if reason != DrawerDisconnected {
      GuessersPaidExactly(ps, t, duration, reason);
      DrawerShareExactly(ps, t, duration, reason);
    }
  }

  /* A place is paid by the time of the guess within the turn. */
  lemma PlacePaidByTime(g: real, t: TurnState, duration: Pos, position: nat)
    ensures ScoreOf(g, t, duration, position)
            == Scoring.GuesserScore(g - t.startTime, duration as real, position)
  {
    Scoring.ScoreOutside(g - t.startTime, duration as real, position);
  }

  ghost predicate Paid(ps: seq<Player>, qs: seq<Player>, p: Payload) {
    |qs| == |ps| && forall i :: 0 <= i < |ps| ==> qs[i] == ps[i].(score := ps[i].score + Entry(p, ps[i].id))
  }

  /* Where the room goes from a position: it waits, is over, or offers words to the next drawer. */
  ghost predicate MovesOn(s: State, s': State, offer: seq<string>) {
    var r, r' := s.room, s'.room;
    match Next(r'.players, r.currentRound, r.drawerIndex, r.config.numRounds)
    case Pause =>
      && s'.waiting && s'.pending == s.pending && s'.log.drawn == s.log.drawn && s'.log.widest == s.log.widest
      && r'.state == r.state && r'.currentRound == r.currentRound && r'.drawerIndex == r.drawerIndex
    case Finish(n, i) =>
      && s'.waiting == s.waiting && s'.pending == s.pending && s'.log.drawn == s.log.drawn
      && s'.log.widest == s.log.widest
      && r'.state == GameOver && r'.currentRound == n && r'.drawerIndex == i
    case Draw(n, i) =>
      && s'.waiting == s.waiting && s'.pending == Some(offer) && s'.log.drawn == s.log.drawn + [Slot(n, i)]
      && r'.state == WordSelection && r'.currentRound == n && r'.drawerIndex == i
  }

  ghost predicate Ends(s: State, s': State, reason: TurnEndReason, offer: seq<string>) {
    && s.room.turn.Some? && s'.room.turn.None?
    && |s'.log.payloads| == |s.log.payloads| + 1 && s'.log.payloads[..|s.log.payloads|] == s.log.payloads
    && s'.log.ended == s.log.ended + [s.room.turn.value.id]
    && RightPayload(s.room.players, s.room.turn.value, s.room.config.turnDuration, reason,
                    s'.log.payloads[|s.log.payloads|])
    && Paid(s.room.players, s'.room.players, s'.log.payloads[|s.log.payloads|])
    && MovesOn(s, s', offer)
    && s'.timers == s.timers && s'.nextTurn == s.nextTurn && s'.log.since == s.log.since && s'.log.base == s.log.base
    && s'.room.code == s.room.code && s'.room.hostId == s.room.hostId && s'.room.config == s.room.config
    && s'.room.usedWords == s.room.usedWords && s'.room.wordPool == s.room.wordPool
  }

  lemma AdvanceMoves(s: State, offer: seq<string>)
    ensures MovesOn(s, Advance(s, offer), offer)
    ensures var s' := Advance(s, offer);
            && s'.room.turn == s.room.turn && s'.room.players == s.room.players
            && s'.log.payloads == s.log.payloads && s'.log.ended == s.log.ended
            && s'.timers == s.timers && s'.nextTurn == s.nextTurn && s'.log.since == s.log.since
            && s'.log.base == s.log.base
            && s'.room.code == s.room.code && s'.room.hostId == s.room.hostId && s'.room.config == s.room.config
            && s'.room.usedWords == s.room.usedWords && s'.room.wordPool == s.room.wordPool
  {
  }

  /* A turn that ends is paid for, announced once, recorded and cleared, and the room moves on. */
  lemma EndTurnExactly(s: State, reason: TurnEndReason, offer: seq<string>)
    requires GuessOk(s) && s.room.turn.Some?
    ensures Ends(s, EndTurn(s, reason, offer), reason, offer)
  {
    var t, d := s.room.turn.value, s.room.config.turnDuration;
    PayloadExactly(s.room.players, t, d, reason);
    TallyExact(s.room.players, t, d, reason);
    AdvanceMoves(Settle(s, reason), offer);
  }

  // ---- Timers ----

  /* The timer of the live turn's end ends it; */
  lemma TurnTimerExactly(s: State, x: Timer, pick: nat, offer: seq<string>)
    requires Inv(s) && x in s.timers && x.kind == TurnEnd
    requires s.room.turn.Some? && s.room.turn.value.id == x.turn
    ensures Ends(s.(timers := s.timers - {x}), Apply(s, EFire(x, pick, offer)), TimerExpired, offer)
  {
    EndTurnExactly(s.(timers := s.timers - {x}), TimerExpired, offer);
  }

  /* a hint timer of the live turn shows one hidden character if two or more are hidden; */
  lemma HintTimerExactly(s: State, x: Timer, pick: nat, offer: seq<string>)
    requires Inv(s) && x in s.timers && x.kind != TurnEnd
    requires s.room.turn.Some? && s.room.turn.value.id == x.turn
    ensures var t, s' := s.room.turn.value, Apply(s, EFire(x, pick, offer));
            && s'.room.turn.Some? && |t.hint| == |t.word|
            && s' == s.(timers := s.timers - {x}, room := s.room.(turn := s'.room.turn))
            && s'.room.turn.value == t.(hint := s'.room.turn.value.hint)
            && (|Hidden(t.hint)| < 2 ==> s'.room.turn.value.hint == t.hint)
            && (|Hidden(t.hint)| >= 2 ==>
                 exists i :: i in Hidden(t.hint) && s'.room.turn.value.hint == t.hint[i := t.word[i]])
  {
    var t := s.room.turn.value;
    RevealExactly(t.hint, t.word, pick);
  }

  /* and any other changes nothing but the set of pending timers. */
  lemma OtherTimerExactly(s: State, x: Timer, pick: nat, offer: seq<string>)
    requires s.room.turn.None? || s.room.turn.value.id != x.turn || x !in s.timers
    ensures Apply(s, EFire(x, pick, offer)) == s.(timers := s.timers - {x})
  {
    if x !in s.timers {
      assert s.timers - {x} == s.timers;
    }
  }

  // ---- Guesses ----

  ghost predicate SameIgnoringCase(u: string, v: string) {
    |u| == |v| && forall k :: 0 <= k < |u| ==> Lower(u[k]) == Lower(v[k])
  }

  /* A guess is correct exactly when it is the word up to letter case and outer whitespace. */
  lemma CorrectExactly(text: string, word: string)
    ensures Correct(text, word) <==> SameIgnoringCase(Strip(text), word)
  {
    var u := Strip(text);
    assert forall k :: 0 <= k < |u| ==> LowerAll(u)[k] == Lower(u[k]);
    assert forall k :: 0 <= k < |word| ==> LowerAll(word)[k] == Lower(word[k]);
    if SameIgnoringCase(u, word) {
      assert LowerAll(u) == LowerAll(word);
    }
  }

  /* A connected player of the live turn, neither its drawer nor a spectator, who has yet to guess. */
  ghost predicate YetToGuess(s: State, id: string) {
    && s.room.turn.Some? && id != s.room.turn.value.drawerId
    && exists i :: 0 <= i < |s.room.players| && s.room.players[i].id == id && s.room.players[i].connected
                   && !s.room.players[i].spectator && !s.room.players[i].hasGuessed
  }

  lemma MayGuessExactly(s: State, id: string, text: string)
    requires Inv(s)
    ensures MayGuess(s, id, text) <==> YetToGuess(s, id) && |text| <= 100
  {
    var ps := s.room.players;
    if i :| 0 <= i < |ps| && ps[i].id == id {
      FindMember(ps, i);
    }
  }

  ghost predicate Guessed(ps: seq<Player>, qs: seq<Player>, id: string, now: real) {
    && |qs| == |ps|
    && forall i :: 0 <= i < |ps| ==>
         qs[i] == if ps[i].id == id then ps[i].(hasGuessed := true, guessTime := now) else ps[i]
  }

  /* Everyone who is to guess has done so. */
  ghost predicate NobodyMissing(ps: seq<Player>, drawerId: string) {
    forall i :: 0 <= i < |ps| && ps[i].connected && !ps[i].spectator && ps[i].id != drawerId ==> ps[i].hasGuessed
  }

  /* A guess counts exactly for a correct text of at most 100 characters by a player who is yet to
     guess: flag and time are entered, and the player is last in the order. If nobody is missing then,
     the turn ends; otherwise it goes on. Every other guess changes nothing. */
  lemma GuessExactly(s: State, id: string, text: string, now: real, offer: seq<string>) returns (s1: State)
    requires Inv(s)
    ensures var s' := Apply(s, EGuess(id, text, now, offer));
            if YetToGuess(s, id) && |text| <= 100 && SameIgnoringCase(Strip(text), s.room.turn.value.word)
            then GuessEntered(s, s1, id, now) && AfterGuess(s1, s', offer)
            else s' == s
  {
    s1 := s;
    MayGuessExactly(s, id, text);
    if s.room.turn.Some? {
      CorrectExactly(text, s.room.turn.value.word);
    }
    if MayGuess(s, id, text) {
      s1 := MarkGuess(s, Find(s.room.players, id).value, now);
      GuessIsEntered(s, id, text, now);
      MarkGuessOrder(s, id, text, now);
      GuessFollows(s1, offer);
    }
  }

  ghost predicate GuessEntered(s: State, s1: State, id: string, now: real) {
    && s.room.turn.Some? && s1.room.turn.Some? && Guessed(s.room.players, s1.room.players, id, now)
    && s1.room.turn.value == s.room.turn.value.(guessOrder := s.room.turn.value.guessOrder + [id])
    && s1 == s.(room := s.room.(players := s1.room.players, turn := s1.room.turn))
  }

  ghost predicate AfterGuess(s1: State, s': State, offer: seq<string>) {
    && s1.room.turn.Some?
    && if NobodyMissing(s1.room.players, s1.room.turn.value.drawerId) then Ends(s1, s', AllGuessed, offer) else s' == s1
  }

  lemma GuessIsEntered(s: State, id: string, text: string, now: real)
    requires Inv(s) && MayGuess(s, id, text)
    ensures GuessEntered(s, MarkGuess(s, Find(s.room.players, id).value, now), id, now)
  {
    var p := Find(s.room.players, id).value;
    ReplaceFound(s.room.players, p, p.(hasGuessed := true, guessTime := now));
  }

  lemma GuessFollows(s1: State, offer: seq<string>)
    requires GuessOk(s1) && s1.room.turn.Some?
    ensures var t := s1.room.turn.value;
            var ended := AllHaveGuessed(s1.room.players, t.drawerId);
            AfterGuess(s1, if ended then EndTurn(s1, AllGuessed, offer) else s1, offer)
  {
    EndTurnExactly(s1, AllGuessed, offer);
  }

  // ---- Coming and going ----

  /* One listed player has changed into q and nothing else has. */
  ghost predicate Becomes(s: State, s1: State, id: string, q: Player) {
    && s1 == s.(room := s.room.(players := s1.room.players)) && |s1.room.players| == |s.room.players|
    && (forall i :: 0 <= i < |s.room.players| ==>
          s1.room.players[i] == if s.room.players[i].id == id then q else s.room.players[i])
  }

  ghost predicate Listed(s: State, id: string, p: Player) {
    exists i :: 0 <= i < |s.room.players| && s.room.players[i] == p && p.id == id
  }

  /* What a departure means for a game under way: with fewer than two who can draw it waits; a turn in
     which nobody is missing any more ends; otherwise it goes on. */
  ghost predicate RosterChecked(s1: State, s': State, offer: seq<string>) {
    if |IdsWhere(s1.room.players, CanDraw())| < 2 then s' == s1.(waiting := true)
    else if s1.room.turn.Some? && NobodyMissing(s1.room.players, s1.room.turn.value.drawerId)
    then Ends(s1, s', AllGuessed, offer)
    else s' == s1
  }

  lemma CheckRosterExactly(s1: State, offer: seq<string>)
    requires Inv(s1)
    ensures RosterChecked(s1, CheckRoster(s1, offer), offer)
  {
    CountsExactly(s1.room.players);
    if s1.room.turn.Some? {
      EndTurnExactly(s1, AllGuessed, offer);
    }
  }

  /* A word is being chosen or drawn. */
  predicate UnderWay(r: Room) { r.state == WordSelection || r.state == Playing }

  /* Outside a game only the flag changes; a drawer who goes ends the turn unpaid. */
  ghost predicate AfterDisconnect(s: State, s1: State, s': State, id: string, offer: seq<string>) {
    if !UnderWay(s.room) then s' == s1
    else if s.room.turn.Some? && s.room.turn.value.drawerId == id then Ends(s1, s', DrawerDisconnected, offer)
    else RosterChecked(s1, s', offer)
  }

  lemma ListedFound(s: State, id: string, p: Player)
    requires Inv(s) && Listed(s, id, p)
    ensures Find(s.room.players, id) == Some(p)
  {
    var i :| 0 <= i < |s.room.players| && s.room.players[i] == p && p.id == id;
    FindMember(s.room.players, i);
  }

  lemma DisconnectExactly(s: State, id: string, now: real, offer: seq<string>, p: Player) returns (s1: State)
    requires Inv(s) && Listed(s, id, p)
    ensures Becomes(s, s1, id, p.(connected := false, disconnectTime := Some(now)))
    ensures AfterDisconnect(s, s1, Apply(s, EDisconnect(id, now, offer)), id, offer)
  {
    ListedFound(s, id, p);
    var q := p.(connected := false, disconnectTime := Some(now));
    s1 := s.(room := s.room.(players := Replace(s.room.players, q)));
    OfflineFollows(s, s1, id, p, q, offer);
  }

  lemma OfflineFollows(s: State, s1: State, id: string, p: Player, q: Player, offer: seq<string>)
    requires Inv(s) && Find(s.room.players, id) == Some(p) && q.id == id
    requires q == p.(connected := false, disconnectTime := q.disconnectTime)
    requires s1 == s.(room := s.room.(players := Replace(s.room.players, q)))
    ensures Becomes(s, s1, id, q)
    ensures AfterDisconnect(s, s1, if !InGame(s.room) then s1
                                   else if s.room.turn.Some? && s.room.turn.value.drawerId == id
                                   then EndTurn(s1, DrawerDisconnected, offer) else CheckRoster(s1, offer), id, offer)
  {
    ReplaceFound(s.room.players, p, q);
    RewriteKeeps(s, s1.room.players);
    CheckRosterExactly(s1, offer);
    if s.room.turn.Some? {
      EndTurnExactly(s1, DrawerDisconnected, offer);
    }
  }

  lemma UnknownDisconnect(s: State, id: string, now: real, offer: seq<string>)
    requires id !in Ids(s.room.players)
    ensures Apply(s, EDisconnect(id, now, offer)) == s && Apply(s, EReconnect(id)) == s
    ensures Apply(s, EBecomePlayer(id)) == s && Apply(s, EChangeHost(id)) == s
  {
  }

  /* A player who comes back is connected; a countdown ends when two are. */
  lemma ReconnectExactly(s: State, id: string, p: Player) returns (s1: State)
    requires Inv(s) && Listed(s, id, p)
    ensures Becomes(s, s1, id, p.(connected := true, disconnectTime := None))
    ensures Apply(s, EReconnect(id)) == s1.(waiting := s.waiting && |IdsWhere(s1.room.players, IsConnected())| < 2)
  {
    ListedFound(s, id, p);
    s1 := s.(room := s.room.(players := Replace(s.room.players, p.(connected := true, disconnectTime := None))));
    BackOnline(s, s1, p);
  }

  lemma BackOnline(s: State, s1: State, p: Player)
    requires UniqueIds(s.room.players) && Find(s.room.players, p.id) == Some(p)
    requires var q := p.(connected := true, disconnectTime := None);
             s1 == s.(room := s.room.(players := Replace(s.room.players, q)))
    ensures Becomes(s, s1, p.id, p.(connected := true, disconnectTime := None))
    ensures Reconnect(s, p.id) == s1.(waiting := s.waiting && |IdsWhere(s1.room.players, IsConnected())| < 2)
  {
    ReplaceBecomes(s, s1, p, p.(connected := true, disconnectTime := None));
    ConnectedCount(s1.room.players);
  }

  lemma ReplaceBecomes(s: State, s1: State, p: Player, q: Player)
    requires q.id == p.id && s1 == s.(room := s.room.(players := Replace(s.room.players, q)))
    ensures Becomes(s, s1, p.id, q) && (UniqueIds(s.room.players) ==> UniqueIds(s1.room.players))
  {
  }

  lemma ConnectedCount(ps: seq<Player>)
    requires UniqueIds(ps)
    ensures Connected(ps) == |IdsWhere(ps, IsConnected())|
  {
    CountsExactly(ps);
  }

  ghost predicate Newcomer(p: Player, id: string, name: string, spectator: bool) {
    && p.id == id && p.name == name && p.spectator == spectator && p.connected
    && p.score == 0 && !p.hasGuessed && !p.isReady
  }

  /* A newcomer stands last, connected, with nothing scored and nothing guessed. */
  lemma JoinExactly(s: State, id: string, name: string, spectator: bool, approved: bool)
    requires Inv(s) && Fresh(s, EJoin(id, name, spectator, approved))
    ensures var s' := Apply(s, EJoin(id, name, spectator, approved));
            var n := |s.room.players|;
            && |s'.room.players| == n + 1 && s'.room.players[..n] == s.room.players
            && Newcomer(s'.room.players[n], id, name, spectator)
            && s'.waiting == (s.waiting && !(approved && |IdsWhere(s'.room.players, IsConnected())| >= 2))
            && s' == s.(room := s.room.(players := s'.room.players), waiting := s'.waiting,
                        log := s.log.(since := s.log.since[id := |s.log.payloads|]))
  {
    var s' := Join(s, id, name, spectator, approved);
    JoinKeeps(s, id, name, spectator, approved);
    CountsExactly(s'.room.players);
  }

  /* A connected spectator, and nobody else, becomes a player from zero. */
  lemma BecomePlayerExactly(s: State, id: string, p: Player) returns (s1: State)
    requires Inv(s) && Listed(s, id, p)
    ensures var s' := Apply(s, EBecomePlayer(id));
            if p.connected && p.spectator then
              && Becomes(s, s1, id, p.(spectator := false, score := 0, hasGuessed := false))
              && s' == s1.(log := s.log.(since := s.log.since[id := |s.log.payloads|]))
            else s' == s
  {
    ListedFound(s, id, p);
    var q := p.(spectator := false, score := 0, hasGuessed := false);
    s1 := s.(room := s.room.(players := Replace(s.room.players, q)));
    ReplaceBecomes(s, s1, p, q);
  }

  /* The player at place i is out, and the others keep their order. */
  ghost predicate WithoutPlace(s: State, s1: State, i: nat) {
    && i < |s.room.players|
    && s1 == s.(room := s.room.(players := s.room.players[..i] + s.room.players[i + 1..]))
  }

  lemma OutIsOneLess(s: State, i: nat)
    requires Inv(s) && i < |s.room.players|
    ensures WithoutPlace(s, s.(room := s.room.(players := Without(s.room.players, s.room.players[i].id))), i)
  {
    WithoutExactly(s.room.players, i);
  }

  /* A player removed from a game under way leaves it waiting when fewer than two are connected. */
  lemma RemoveExactly(s: State, i: nat) returns (s1: State)
    requires Inv(s) && i < |s.room.players|
    ensures WithoutPlace(s, s1, i)
    ensures Apply(s, ERemove(s.room.players[i].id)) ==
            s1.(waiting := s.waiting || (UnderWay(s.room) && |IdsWhere(s1.room.players, IsConnected())| < 2))
  {
    var id := s.room.players[i].id;
    s1 := s.(room := s.room.(players := Without(s.room.players, id)));
    OutIsOneLess(s, i);
    WithoutUnique(s.room.players, id);
    ConnectedCount(s1.room.players);
  }

  ghost predicate AfterKick(s: State, s1: State, s': State, id: string, offer: seq<string>) {
    if s.room.turn.Some? && s.room.turn.value.drawerId == id then Ends(s1, s', DrawerDisconnected, offer)
    else if UnderWay(s.room) then RosterChecked(s1, s', offer)
    else s' == s1
  }

  /* A drawer voted out ends the turn unpaid; anyone else leaves the game as by disconnecting. */
  lemma KickExactly(s: State, i: nat, offer: seq<string>) returns (s1: State)
    requires Inv(s) && i < |s.room.players|
    ensures WithoutPlace(s, s1, i)
    ensures var id := s.room.players[i].id; AfterKick(s, s1, Apply(s, EKick(id, offer)), id, offer)
  {
    var id := s.room.players[i].id;
    s1 := s.(room := s.room.(players := Without(s.room.players, id)));
    OutIsOneLess(s, i);
    KickedFrom(s, id, offer);
  }

  lemma KickedFrom(s: State, id: string, offer: seq<string>)
    requires Inv(s)
    ensures var s1 := s.(room := s.room.(players := Without(s.room.players, id)));
            AfterKick(s, s1, Kick(s, id, offer), id, offer)
  {
    RemoveKeeps(s, id);
    KickFollows(s, s.(room := s.room.(players := Without(s.room.players, id))), id, offer);
  }

  lemma KickFollows(s: State, s1: State, id: string, offer: seq<string>)
    requires Inv(s1) && s1 == s.(room := s.room.(players := Without(s.room.players, id)))
    ensures AfterKick(s, s1, Kick(s, id, offer), id, offer)
  {
    CheckRosterExactly(s1, offer);
    if s.room.turn.Some? && s.room.turn.value.drawerId == id {
      EndTurnExactly(s1, DrawerDisconnected, offer);
      AlreadyWaiting(s1, offer);
    }
  }

  /* A turn that ends with fewer than two who can draw leaves the room waiting. */
  lemma AlreadyWaiting(s1: State, offer: seq<string>)
    requires s1.room.turn.Some?
    ensures var s2 := EndTurn(s1, DrawerDisconnected, offer);
            CountEligible(s2.room.players) < 2 ==> s2.waiting && s2 == s2.(waiting := true)
  {
  }

  /* When the countdown ends, the game is over if fewer than two are connected. */
  lemma WaitExpiresExactly(s: State)
    requires Inv(s)
    ensures Apply(s, EWaitExpires) ==
            if s.waiting && |IdsWhere(s.room.players, IsConnected())| < 2
            then s.(waiting := false, room := s.room.(turn := None, state := GameOver))
            else s.(waiting := false)
  {
    CountsExactly(s.room.players);
  }

  // ---- The host's requests ----

  ghost predicate NobodyReady(ps: seq<Player>, qs: seq<Player>) {
    |qs| == |ps| && forall i :: 0 <= i < |ps| ==> qs[i] == ps[i].(isReady := false)
  }

  /* The first who can draw begins. */
  ghost predicate FirstDrawer(ps: seq<Player>, was: nat, index: nat) {
    if exists i :: 0 <= i < |ps| && Eligible(ps[i])
    then index < |ps| && Eligible(ps[index]) && forall j :: 0 <= j < index ==> !Eligible(ps[j])
    else index == was
  }

  ghost predicate GameBegins(s: State, s': State, offer: seq<string>) {
    && s'.room.state == WordSelection && s'.pending == Some(offer) && s'.room.currentRound == 1
    && FirstDrawer(s.room.players, s.room.drawerIndex, s'.room.drawerIndex)
    && NobodyReady(s.room.players, s'.room.players)
    && s'.log.drawn == [Slot(1, s'.room.drawerIndex)]
    && s'.room.(state := s.room.state, currentRound := s.room.currentRound, drawerIndex := s.room.drawerIndex,
                players := s.room.players) == s.room
    && s'.timers == s.timers && s'.waiting == s.waiting && s'.nextTurn == s.nextTurn
    && s'.log.payloads == s.log.payloads && s'.log.ended == s.log.ended && s'.log.since == s.log.since
  }

  /* The host starts a game from the lobby with two players or more, and otherwise nothing happens. */
  lemma StartGameExactly(s: State, who: string, offer: seq<string>)
    requires Inv(s)
    ensures var s' := Apply(s, EStartGame(who, offer));
            if s.room.hostId == who && s.room.state == Lobby && |IdsWhere(s.room.players, IsActive())| >= 2
            then GameBegins(s, s', offer) else s' == s
  {
    ActiveCount(s.room.players);
    if s.room.hostId == who && s.room.state == Lobby && Active(s.room.players) >= 2 {
      BeginsGame(s, who, offer);
    }
  }

  lemma ActiveCount(ps: seq<Player>)
    requires UniqueIds(ps)
    ensures Active(ps) == |IdsWhere(ps, IsActive())|
  {
    CountsExactly(ps);
  }

  lemma StartIndexIsFirst(r: Room)
    ensures FirstDrawer(r.players, r.drawerIndex, StartIndex(r))
  {
  }

  lemma BeginsGame(s: State, who: string, offer: seq<string>)
    requires s.room.hostId == who && s.room.state == Lobby && Active(s.room.players) >= 2
    ensures GameBegins(s, StartGame(s, who, offer), offer)
  {
    StartIndexIsFirst(s.room);
  }

  ghost predicate FromZero(ps: seq<Player>, qs: seq<Player>) {
    |qs| == |ps| && forall i :: 0 <= i < |ps| ==> qs[i] == ps[i].(score := 0, hasGuessed := false)
  }

  /* The host brings a finished game back to the lobby, with nothing scored, drawn or used. */
  lemma RematchExactly(s: State, who: string)
    ensures var s' := Apply(s, ERematch(who));
            if s.room.hostId == who && s.room.state == GameOver then
              && FromZero(s.room.players, s'.room.players)
              && s'.room == s.room.(players := s'.room.players, state := Lobby, currentRound := 0, drawerIndex := 0,
                                    turn := None, usedWords := {}, wordPool := [])
              && s'.pending == s.pending && s'.timers == s.timers && s'.nextTurn == s.nextTurn
              && s'.waiting == s.waiting && s'.log.payloads == s.log.payloads && s'.log.ended == s.log.ended
            else s' == s
  {
  }

  ghost predicate Kept<T>(x: Option<T>, before: T, after: T) { after == if x.Some? then x.value else before }

  /* The host changes settings in the lobby, if those given are in range; the others stay. */
  lemma SettingsExactly(s: State, who: string, x: Settings)
    ensures var s' := Apply(s, ESettings(who, x));
            var c, c' := s.room.config, s'.room.config;
            if && s.room.hostId == who && s.room.state == Lobby
               && (x.numRounds.Some? ==> 2 <= x.numRounds.value <= 10)
               && (x.turnDuration.Some? ==> 30 <= x.turnDuration.value <= 180)
               && (x.maxPlayers.Some? ==> 2 <= x.maxPlayers.value <= 12)
            then
              && Kept(x.numRounds, c.numRounds as int, c'.numRounds as int)
              && Kept(x.turnDuration, c.turnDuration as int, c'.turnDuration as int)
              && Kept(x.maxPlayers, c.maxPlayers, c'.maxPlayers)
              && Kept(x.customWords, c.customWords, c'.customWords) && Kept(x.password, c.password, c'.password)
              && s' == s.(room := s.room.(config := c'))
            else s' == s
  {
  }

  lemma ChangeHostExactly(s: State, id: string)
    ensures Apply(s, EChangeHost(id)) ==
            if exists i :: 0 <= i < |s.room.players| && s.room.players[i].id == id
            then s.(room := s.room.(hostId := id)) else s
  {
  }

  /* A new worker knows the room, and nothing of offers, timers and countdowns. */
  lemma RestoreExactly(s: State, now: real)
    requires Inv(s)
    ensures var s' := Apply(s, ERestore(now));
            && s'.pending.None? && s'.timers == {} && !s'.waiting && s'.log == s.log
            && |s'.room.players| == |s.room.players|
            && (forall i :: 0 <= i < |s.room.players| ==>
                 var p, q := s.room.players[i], s'.room.players[i];
                 && q.id == p.id && q.name == p.name && q.score == p.score && q.hasGuessed == p.hasGuessed
                 && q.avatar == p.avatar && q.isReady == p.isReady && !q.connected && !q.spectator)
            && (s.room.turn.None? ==> s'.room.turn.None?)
            && s'.room.(players := s.room.players, turn := s.room.turn, config := s.room.config) == s.room
  {
  }
}
