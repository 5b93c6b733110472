/** The engine's handlers as they change a room in place (backend/game_engine.py): each method
    leaves the room in the state that the corresponding step of `Game` describes. */
module GameRoom {
  import opened Models
  import opened Rotation
  import opened Hints
  import opened Scoring
  import G = Game

  /* Equal up to scores. */
  ghost predicate SameButScores(ps: seq<Player>, qs: seq<Player>) {
    |ps| == |qs| && forall i :: 0 <= i < |ps| ==> qs[i] == ps[i].(score := qs[i].score)
  }

  lemma {:induction false} FindSameButScores(ps: seq<Player>, qs: seq<Player>, id: string)
    requires SameButScores(ps, qs)
    ensures Find(ps, id).None? <==> Find(qs, id).None?
    ensures Find(ps, id).Some? ==> Find(qs, id).value.guessTime == Find(ps, id).value.guessTime
  {
    if ps != [] {
      assert qs[0] == ps[0].(score := qs[0].score);
      FindSameButScores(ps[1..], qs[1..], id);
    }
  }

  lemma {:induction false} TallyKeepsPlayer(ps: seq<Player>, t: TurnState, duration: Pos, k: nat, i: nat)
    requires k <= |t.guessOrder| && i < |ps|
    ensures var qs := G.TallyGuessers(ps, t, duration, k).players;
            |qs| == |ps| && qs[i] == ps[i].(score := qs[i].score)
  {
    if k > 0 {
      TallyKeepsPlayer(ps, t, duration, k - 1, i);
    }
  }

  lemma {:induction false} TallyKeepsLength(ps: seq<Player>, t: TurnState, duration: Pos, k: nat)
    requires k <= |t.guessOrder|
    ensures |G.TallyGuessers(ps, t, duration, k).players| == |ps|
  {
    if k > 0 {
      TallyKeepsLength(ps, t, duration, k - 1);
    }
  }

  lemma TallySameButScores(ps: seq<Player>, t: TurnState, duration: Pos, k: nat)
    requires k <= |t.guessOrder|
    ensures SameButScores(ps, G.TallyGuessers(ps, t, duration, k).players)
  {
    TallyKeepsLength(ps, t, duration, k);
    forall i | 0 <= i < |ps|
      ensures var qs := G.TallyGuessers(ps, t, duration, k).players; qs[i] == ps[i].(score := qs[i].score)
    {
      TallyKeepsPlayer(ps, t, duration, k, i);
    }
  }

  /* One round of the loop that pays guessers, reading the players as already paid so far. */
  lemma TallyStep(ps: seq<Player>, t: TurnState, duration: Pos, k: nat, g: G.Tally)
    requires k < |t.guessOrder| && g == G.TallyGuessers(ps, t, duration, k)
    ensures var id, next := t.guessOrder[k], G.TallyGuessers(ps, t, duration, k + 1);
            match Find(g.players, id)
            case None => next == g
            case Some(p) =>
              var s := G.ScoreOf(p.guessTime, t, duration, k + 1);
              next == G.Tally(G.AddScore(g.players, id, s), g.payload[id := s], g.scores + [s])
  {
    TallySameButScores(ps, t, duration, k);
    FindSameButScores(ps, g.players, t.guessOrder[k]);
  }

  /* The walk over list positions: nobody between `start` and `index` could draw, possibly with one wrap. */
  ghost predicate Walked(ps: seq<Player>, start: nat, index: nat, wrapped: bool, attempts: nat) {
    && start < |ps| && index < |ps|
    && (if wrapped then
          && attempts == |ps| - start + index
          && FirstEligible(ps, start).None?
          && (forall i :: 0 <= i < index ==> !Eligible(ps[i]))
        else
          && attempts == index - start
          && (forall i :: start <= i < index ==> !Eligible(ps[i])))
  }

  lemma NotAllSkipped(ps: seq<Player>, start: nat, index: nat, wrapped: bool, attempts: nat)
    requires CountEligible(ps) > 0 && Walked(ps, start, index, wrapped, attempts)
    ensures attempts < |ps|
  {
    SomeoneEligible(ps);
    var i :| 0 <= i < |ps| && Eligible(ps[i]);
  }

  lemma {:induction false} FirstEligibleAt(ps: seq<Player>, from: nat, index: nat)
    requires from <= index < |ps| && Eligible(ps[index])
    requires forall i :: from <= i < index ==> !Eligible(ps[i])
    ensures FirstEligible(ps, from) == Some(index)
  {
  }

  class Engine {
    const code: string
    const hostId: string
    const config: GameConfig
    const wordPool: seq<string>
    var players: seq<Player>
    var state: RoomState
    var currentRound: int
    var drawerIndex: nat
    var turn: Option<TurnState>
    var usedWords: set<string>
    var pending: Option<seq<string>>
    var timers: set<G.Timer>
    var nextTurn: nat
    var waiting: bool
    ghost var log: G.History

    constructor (s: G.State)
      ensures View() == s
    {
      code, hostId, config, wordPool := s.room.code, s.room.hostId, s.room.config, s.room.wordPool;
      players, state, turn, usedWords := s.room.players, s.room.state, s.room.turn, s.room.usedWords;
      currentRound, drawerIndex := s.room.currentRound, s.room.drawerIndex;
      pending, timers, nextTurn, waiting, log := s.pending, s.timers, s.nextTurn, s.waiting, s.log;
    }

    ghost function View(): G.State
      reads this
    {
      G.State(Room(code, hostId, players, config, state, currentRound, drawerIndex, turn, usedWords, wordPool),
              pending, timers, nextTurn, waiting, log)
    }

    method ConnectedActive() returns (n: nat)
      ensures n == CountEligible(players)
    {
      n := 0;
      for i := |players| downto 0
        invariant n == CountEligible(players[i..])
      {
        assert players[i..][1..] == players[i + 1..];
        if Eligible(players[i]) {
          n := n + 1;
        }
      }
      assert players[0..] == players;
    }

    method StartTurn(offer: seq<string>)
      modifies this
      ensures View() == G.StartTurn(old(View()), offer)
    {
      pending := Some(offer);
      state := WordSelection;
      log := G.StartTurn(View(), offer).log;
    }

    /* The next list position, which may open the next round. */
    method StepForward()
      modifies this`drawerIndex, this`currentRound
      ensures drawerIndex == (if old(drawerIndex) + 1 >= |players| then 0 else old(drawerIndex) + 1)
      ensures currentRound == old(currentRound) + (if old(drawerIndex) + 1 >= |players| then 1 else 0)
    {
      drawerIndex := drawerIndex + 1;
      if drawerIndex >= |players| {
        drawerIndex := 0;
        currentRound := currentRound + 1;
      }
    }

    /* Steps over players who cannot draw; false when that ends the last round. */
    method SkipToDrawer() returns (playing: bool)
      requires CountEligible(players) >= 2 && drawerIndex < |players| && currentRound <= config.numRounds
      modifies this`drawerIndex, this`currentRound
      ensures var first := FirstEligible(players, old(drawerIndex));
              if first.Some? then
                playing && currentRound == old(currentRound) && drawerIndex == first.value
              else if old(currentRound) + 1 > config.numRounds then
                !playing && currentRound == old(currentRound) + 1 && drawerIndex == 0
              else
                playing && currentRound == old(currentRound) + 1 && Some(drawerIndex) == FirstEligible(players, 0)
    {
      ghost var start, round, wrapped := drawerIndex, currentRound, false;
      var attempts := 0;
      while attempts < |players|
        invariant Walked(players, start, drawerIndex, wrapped, attempts)
        invariant currentRound == if wrapped then round + 1 else round
        invariant currentRound <= config.numRounds
      {
        if Eligible(players[drawerIndex]) {
          break;
        }
        drawerIndex := drawerIndex + 1;
        if drawerIndex >= |players| {
          NotAllSkipped(players, start, drawerIndex - 1, wrapped, attempts);
          drawerIndex := 0;
          currentRound := currentRound + 1;
          if currentRound > config.numRounds {
            return false;
          }
          wrapped := true;
        }
        attempts := attempts + 1;
      }
      // The branch for "no connected players" is never taken: the walk stops before a full circle.
      NotAllSkipped(players, start, drawerIndex, wrapped, attempts);
      assert attempts < |players|;
      FirstEligibleAt(players, if wrapped then 0 else start, drawerIndex);
      playing := true;
    }

    method AdvanceTurnOrRound(offer: seq<string>)
      modifies this
      ensures View() == G.Advance(old(View()), offer)
    {
      var connected := ConnectedActive();
      if connected < 2 {
        waiting := true;
        return;
      }
      StepForward();
      if currentRound > config.numRounds {
        state := GameOver;
        return;
      }
      SomeoneEligible(players);
      var playing := SkipToDrawer();
      if !playing {
        state := GameOver;
        return;
      }
      StartTurn(offer);
    }

    /* Pays the guessers in the order they guessed. */
    method PayGuessers(t: TurnState) returns (payload: G.Payload, scores: seq<int>)
      modifies this`players
      ensures G.Tally(players, payload, scores)
              == G.TallyGuessers(old(players), t, config.turnDuration, |t.guessOrder|)
    {
      payload, scores := map[], [];
      ghost var ps := players;
      for k := 0 to |t.guessOrder|
        invariant G.Tally(players, payload, scores) == G.TallyGuessers(ps, t, config.turnDuration, k)
      {
        var id := t.guessOrder[k];
        TallyStep(ps, t, config.turnDuration, k, G.Tally(players, payload, scores));
        var found := Find(players, id);
        if found.Some? {
          var score := G.ScoreOf(found.value.guessTime, t, config.turnDuration, k + 1);
          players := G.AddScore(players, id, score);
          payload := payload[id := score];
          scores := scores + [score];
        }
      }
    }

    /* The guessers, then the drawer's bonus; nothing when the drawer left. */
    method ScoreTurn(t: TurnState, reason: TurnEndReason) returns (payload: G.Payload)
      modifies this`players
      ensures var g := G.TallyTurn(old(players), t, config.turnDuration, reason);
              players == g.players && payload == g.payload
    {
      payload := map[];
      if reason == DrawerDisconnected {
        return;
      }
      ghost var ps := players;
      var scores;
      payload, scores := PayGuessers(t);
      TallySameButScores(ps, t, config.turnDuration, |t.guessOrder|);
      FindSameButScores(ps, players, t.drawerId);
      if Find(players, t.drawerId).Some? {
        var bonus := DrawerBonus(scores);
        players := G.AddScore(players, t.drawerId, bonus);
        payload := payload[t.drawerId := bonus];
      }
    }

    method EndTurn(reason: TurnEndReason, offer: seq<string>)
      modifies this
      ensures View() == G.EndTurn(old(View()), reason, offer)
    {
      if turn.None? {
        return;
      }
      var t := turn.value;
      var payload := ScoreTurn(t, reason);
      log := log.(payloads := log.payloads + [payload], ended := log.ended + [t.id]);
      turn := None;
      assert View() == G.Settle(old(View()), reason);
      AdvanceTurnOrRound(offer);
    }

    method HandleWordSelection(playerId: string, word: string, now: real)
      modifies this
      ensures View() == G.SelectWord(old(View()), playerId, word, now)
    {
      if drawerIndex >= |players| || playerId != players[drawerIndex].id {
        return;
      }
      if pending.None? || word !in pending.value {
        return;
      }
      usedWords := usedWords + {word};
      turn := Some(TurnState(nextTurn, playerId, word, InitialHint(word), now, pending.value, []));
      state := Playing;
      ResetGuesses();
      pending := None;
      timers := timers + {G.Timer(G.Hint40, nextTurn), G.Timer(G.Hint70, nextTurn), G.Timer(G.TurnEnd, nextTurn)};
      nextTurn := nextTurn + 1;
    }

    method ResetGuesses()
      modifies this`players
      ensures players == G.ResetGuesses(old(players))
    {
      ghost var ps := players;
      for i := 0 to |players|
        invariant |players| == |ps|
        invariant forall j :: 0 <= j < |ps| ==>
                    players[j] == if j < i then ps[j].(hasGuessed := false) else ps[j]
      {
        players := players[i := players[i].(hasGuessed := false)];
      }
    }

    method AllGuessersDone(drawerId: string) returns (done: bool)
      ensures done <==> G.AllHaveGuessed(players, drawerId)
    {
      for i := 0 to |players|
        invariant forall j :: 0 <= j < i && players[j].id != drawerId && Eligible(players[j]) ==> players[j].hasGuessed
      {
        if players[i].id != drawerId && Eligible(players[i]) && !players[i].hasGuessed {
          return false;
        }
      }
      return true;
    }

    method HandleGuess(playerId: string, text: string, now: real, offer: seq<string>)
      modifies this
      ensures View() == G.Guess(old(View()), playerId, text, now, offer)
    {
      if turn.None? || state != Playing || |text| > 100 {
        return;
      }
      var found := Find(players, playerId);
      if found.None? || playerId == turn.value.drawerId {
        return;
      }
      var player := found.value;
      if player.spectator || player.hasGuessed || !player.connected {
        return;
      }
      if G.Correct(text, turn.value.word) {
        players := Replace(players, player.(hasGuessed := true, guessTime := now));
        turn := Some(turn.value.(guessOrder := turn.value.guessOrder + [player.id]));
        assert View() == G.MarkGuess(old(View()), player, now);
        var done := AllGuessersDone(turn.value.drawerId);
        if done {
          EndTurn(AllGuessed, offer);
        }
      }
    }

    method FireTimer(t: G.Timer, pick: nat, offer: seq<string>)
      modifies this
      ensures View() == G.FireTimer(old(View()), t, pick, offer)
    {
      if t !in timers {
        return;
      }
      timers := timers - {t};
      if turn.Some? && turn.value.id == t.turn && state == Playing {
        if t.kind == G.TurnEnd {
          EndTurn(TimerExpired, offer);
        } else if |turn.value.hint| == |turn.value.word| {
          var hint := RevealHintChar(turn.value.hint, turn.value.word, pick);
          turn := Some(turn.value.(hint := hint));
        }
      }
    }
  }

  method CollectHidden(hint: string) returns (unrevealed: seq<nat>)
    ensures unrevealed == Unrevealed(hint)
  {
    unrevealed := [];
    for i := 0 to |hint|
      invariant unrevealed == Unrevealed(hint[..i])
    {
      assert hint[..i + 1][..i] == hint[..i];
      if hint[i] == '_' {
        unrevealed := unrevealed + [i];
      }
    }
    assert hint[..|hint|] == hint;
  }

  method RevealHintChar(hint: string, word: string, pick: nat) returns (r: string)
    requires |hint| == |word|
    ensures r == Reveal(hint, word, pick)
    ensures Truthful(hint, word) ==> Truthful(r, word)
    ensures '_' in hint ==> '_' in r
  {
    RevealKeepsOne(hint, word, pick);
    var unrevealed := CollectHidden(hint);
    if |unrevealed| <= 1 {
      return hint;
    }
    var idx := unrevealed[pick % |unrevealed|];
    r := hint[idx := word[idx]];
  }
}
