/** A whole game with a fixed roster (backend/room_manager.py:3235-3243, backend/game_engine.py:316-880):
    from start_game on, through every order of selections, guesses and timers, also stale ones. */
module FixedRoster {
  import opened Models
  import opened Rotation
  import opened Game
  import opened GameSafety

  // ---- The rotation depends on the seats only ----

  /* The same players in the same order, and the same ones can draw. */
  ghost predicate SameSeats(ps: seq<Player>, qs: seq<Player>) {
    && |ps| == |qs|
    && forall i :: 0 <= i < |ps| ==> ps[i].id == qs[i].id && Eligible(ps[i]) == Eligible(qs[i])
  }

  lemma {:induction false} SameCount(ps: seq<Player>, qs: seq<Player>)
    requires SameSeats(ps, qs)
    ensures CountEligible(ps) == CountEligible(qs)
  {
    if ps != [] {
      SameCount(ps[1..], qs[1..]);
    }
  }

  lemma {:induction false} EligibleCounted(ps: seq<Player>)
    ensures CountEligible(ps) <= Connected(ps) && CountEligible(ps) <= Active(ps)
  {
    if ps != [] {
      EligibleCounted(ps[1..]);
    }
  }

  lemma {:induction false} SameFirst(ps: seq<Player>, qs: seq<Player>, from: nat)
    requires SameSeats(ps, qs)
    ensures FirstEligible(ps, from) == FirstEligible(qs, from)
    decreases |ps| - from
  {
    if from < |ps| {
      SameFirst(ps, qs, from + 1);
    }
  }

  lemma SameNext(ps: seq<Player>, qs: seq<Player>, round: int, index: nat, rounds: int)
    requires SameSeats(ps, qs)
    ensures Next(ps, round, index, rounds) == Next(qs, round, index, rounds)
  {
    SameCount(ps, qs);
    SameFirst(ps, qs, 0);
    SameFirst(ps, qs, if index + 1 >= |ps| then 0 else index + 1);
  }

  // ---- The course of the game ----

  function Indexes(slots: seq<Slot>): (r: seq<nat>)
    ensures |r| == |slots|
  {
    seq(|slots|, k requires 0 <= k < |slots| => slots[k].index)
  }

  /* The drawers still to come after position (round, index). */
  function ToCome(ps: seq<Player>, round: int, index: nat, rounds: int): seq<nat> {
    DrawersFrom(ps, round, index, rounds)[1..]
  }

  /* Who draws now, who is still to draw, and how many turns have ended since `e0`. */
  ghost predicate UnderWay(ps: seq<Player>, rounds: nat, e0: nat, s: State) {
    var r := s.room;
    && r.drawerIndex < |ps| && r.currentRound <= rounds
    && s.log.drawn != [] && s.log.drawn[|s.log.drawn| - 1] == Slot(r.currentRound, r.drawerIndex)
    && Indexes(s.log.drawn) + ToCome(ps, r.currentRound, r.drawerIndex, rounds) == Repeat(EligibleFrom(ps, 0), rounds)
    && |s.log.ended| - e0 == |s.log.drawn| - 1
    && (r.state == WordSelection ==> r.turn.None?)
    && (r.state == Playing ==> r.turn.Some? && r.turn.value.drawerId == ps[r.drawerIndex].id)
  }

  ghost predicate Over(ps: seq<Player>, rounds: nat, e0: nat, s: State) {
    && s.room.turn.None? && s.pending.None?
    && Indexes(s.log.drawn) == Repeat(EligibleFrom(ps, 0), rounds)
    && |s.log.ended| - e0 == |s.log.drawn|
  }

  ghost predicate OnCourse(ps: seq<Player>, rounds: nat, e0: nat, s: State) {
    && SameSeats(ps, s.room.players) && s.room.config.numRounds == rounds
    && (InGame(s.room) ==> UnderWay(ps, rounds, e0, s))
    && (s.room.state == GameOver ==> Over(ps, rounds, e0, s))
    && s.room.state != Lobby
  }

  /* The next drawer is the first of those to come. */
  lemma AdvanceCourse(ps: seq<Player>, round: int, index: nat, rounds: int)
    ensures var n := Next(ps, round, index, rounds);
            && (n.Pause? ==> CountEligible(ps) < 2)
            && (n.Finish? ==> ToCome(ps, round, index, rounds) == [])
            && (n.Draw? ==> n.index < |ps| && n.round <= rounds &&
                            ToCome(ps, round, index, rounds) == [n.index] + ToCome(ps, n.round, n.index, rounds))
  {
    NextIsLeast(ps, round, index, rounds);
  }

  lemma SettleSeats(s: State, reason: TurnEndReason)
    requires Inv(s) && s.room.turn.Some?
    ensures SameSeats(s.room.players, Settle(s, reason).room.players)
  {
    TallyExact(s.room.players, s.room.turn.value, s.room.config.turnDuration, reason);
  }

  /* Between two turns: those drawn and those to come make up the game. */
  ghost predicate Between(ps: seq<Player>, rounds: nat, e0: nat, s: State) {
    && SameSeats(ps, s.room.players) && s.room.config.numRounds == rounds
    && s.room.turn.None? && s.pending.None?
    && Indexes(s.log.drawn) + ToCome(ps, s.room.currentRound, s.room.drawerIndex, rounds)
       == Repeat(EligibleFrom(ps, 0), rounds)
    && |s.log.ended| - e0 == |s.log.drawn|
  }

  lemma MoveOn(done: seq<nat>, i: nat, rest: seq<nat>, all: seq<nat>)
    requires done + ([i] + rest) == all
    ensures (done + [i]) + rest == all
  {
    assert done + ([i] + rest) == (done + [i]) + rest;
  }

  lemma DrawNext(ps: seq<Player>, rounds: nat, e0: nat, s: State, round: int, i: nat, offer: seq<string>)
    requires Between(ps, rounds, e0, s) && i < |ps| && round <= rounds
    requires ToCome(ps, s.room.currentRound, s.room.drawerIndex, rounds) == [i] + ToCome(ps, round, i, rounds)
    ensures OnCourse(ps, rounds, e0, StartTurn(s.(room := s.room.(currentRound := round, drawerIndex := i)), offer))
  {
    var drawn := s.log.drawn + [Slot(round, i)];
    assert Indexes(drawn) == Indexes(s.log.drawn) + [i];
    MoveOn(Indexes(s.log.drawn), i, ToCome(ps, round, i, rounds), Repeat(EligibleFrom(ps, 0), rounds));
  }

  lemma AdvanceFrom(ps: seq<Player>, rounds: nat, e0: nat, s: State, offer: seq<string>)
    requires CountEligible(ps) >= 2 && Between(ps, rounds, e0, s)
    ensures OnCourse(ps, rounds, e0, Advance(s, offer))
  {
    var r := s.room;
    SameNext(ps, r.players, r.currentRound, r.drawerIndex, rounds);
    AdvanceCourse(ps, r.currentRound, r.drawerIndex, rounds);
    match Next(ps, r.currentRound, r.drawerIndex, rounds)
    case Draw(round, i) =>
      DrawNext(ps, rounds, e0, s, round, i, offer);
    case Finish(_, _) =>
      assert Indexes(s.log.drawn) + [] == Indexes(s.log.drawn);
    case Pause =>
  }

  lemma EndTurnOnCourse(ps: seq<Player>, rounds: nat, e0: nat, s: State, reason: TurnEndReason, offer: seq<string>)
    requires CountEligible(ps) >= 2 && Inv(s) && s.room.turn.Some?
    requires OnCourse(ps, rounds, e0, s)
    ensures OnCourse(ps, rounds, e0, EndTurn(s, reason, offer))
  {
    SettleSeats(s, reason);
    AdvanceFrom(ps, rounds, e0, Settle(s, reason), offer);
  }

  // ---- Every event of play keeps the course ----

  lemma SelectOnCourse(ps: seq<Player>, rounds: nat, e0: nat, s: State, who: string, word: string, now: real)
    requires TurnOk(s) && OnCourse(ps, rounds, e0, s)
    ensures OnCourse(ps, rounds, e0, SelectWord(s, who, word, now))
  {
  }

  lemma FireOnCourse(ps: seq<Player>, rounds: nat, e0: nat, s: State, t: Timer, pick: nat, offer: seq<string>)
    requires CountEligible(ps) >= 2 && Inv(s) && OnCourse(ps, rounds, e0, s)
    ensures OnCourse(ps, rounds, e0, FireTimer(s, t, pick, offer))
  {
    if t in s.timers && Live(s, t.turn) && t.kind == TurnEnd {
      var s1 := s.(timers := s.timers - {t});
      assert PendingHints(s1.timers, t.turn) == PendingHints(s.timers, t.turn);
      EndTurnOnCourse(ps, rounds, e0, s1, TimerExpired, offer);
    }
  }

  lemma MarkGuessSeats(s: State, id: string, text: string, now: real)
    requires Inv(s) && MayGuess(s, id, text)
    ensures SameSeats(s.room.players, MarkGuess(s, Find(s.room.players, id).value, now).room.players)
  {
    var p := Find(s.room.players, id).value;
    ReplaceFound(s.room.players, p, p.(hasGuessed := true, guessTime := now));
  }

  lemma MarkOnCourse(ps: seq<Player>, rounds: nat, e0: nat, s: State, p: Player, now: real)
    requires s.room.turn.Some? && s.room.state == Playing && OnCourse(ps, rounds, e0, s)
    requires SameSeats(s.room.players, MarkGuess(s, p, now).room.players)
    ensures OnCourse(ps, rounds, e0, MarkGuess(s, p, now))
  {
  }

  lemma GuessOnCourse(ps: seq<Player>, rounds: nat, e0: nat, s: State,
                      id: string, text: string, now: real, offer: seq<string>)
    requires CountEligible(ps) >= 2 && Inv(s) && OnCourse(ps, rounds, e0, s)
    ensures OnCourse(ps, rounds, e0, Guess(s, id, text, now, offer))
  {
    if MayGuess(s, id, text) {
      var p := Find(s.room.players, id).value;
      MarkGuessSeats(s, id, text, now);
      MarkGuessKeeps(s, id, text, now);
      MarkOnCourse(ps, rounds, e0, s, p, now);
      EndTurnOnCourse(ps, rounds, e0, MarkGuess(s, p, now), AllGuessed, offer);
    }
  }

  lemma AutoSelectOnCourse(ps: seq<Player>, rounds: nat, e0: nat, s: State, drawer: string, pick: nat, now: real)
    requires Inv(s) && OnCourse(ps, rounds, e0, s)
    ensures OnCourse(ps, rounds, e0, AutoSelect(s, drawer, pick, now))
  {
    if s.pending.Some? && s.pending.value != [] {
      SelectOnCourse(ps, rounds, e0, s, drawer, s.pending.value[pick % |s.pending.value|], now);
    }
  }

  lemma WaitOnCourse(ps: seq<Player>, rounds: nat, e0: nat, s: State)
    requires CountEligible(ps) >= 2 && OnCourse(ps, rounds, e0, s)
    ensures OnCourse(ps, rounds, e0, WaitExpires(s))
  {
    SameCount(ps, s.room.players);
    EligibleCounted(s.room.players);
  }

  /* What happens in a game while nobody comes or goes and no rematch is asked for. */
  predicate PlayEvent(e: Event) {
    || e.EStartGame? || e.ESelectWord? || e.EAutoSelect? || e.EFire? || e.EGuess? || e.EWaitExpires?
    || e.ESettings? || e.EChangeHost?
  }

  /* Outside the lobby no game is started and no setting changed; a new host does not matter. */
  lemma IdleOnCourse(ps: seq<Player>, rounds: nat, e0: nat, s: State, e: Event)
    requires OnCourse(ps, rounds, e0, s) && (e.EStartGame? || e.ESettings? || e.EChangeHost?)
    ensures OnCourse(ps, rounds, e0, Apply(s, e))
  {
  }

  lemma PlayOnCourse(ps: seq<Player>, rounds: nat, e0: nat, s: State, e: Event)
    requires CountEligible(ps) >= 2 && Inv(s) && OnCourse(ps, rounds, e0, s) && PlayEvent(e)
    ensures OnCourse(ps, rounds, e0, Apply(s, e))
  {
    match e
    case EStartGame(_, _) => IdleOnCourse(ps, rounds, e0, s, e);
    case ESelectWord(who, word, now) => SelectOnCourse(ps, rounds, e0, s, who, word, now);
    case EAutoSelect(d, pick, now) => AutoSelectOnCourse(ps, rounds, e0, s, d, pick, now);
    case EFire(t, pick, offer) => FireOnCourse(ps, rounds, e0, s, t, pick, offer);
    case EGuess(who, text, now, offer) => GuessOnCourse(ps, rounds, e0, s, who, text, now, offer);
    case EWaitExpires => WaitOnCourse(ps, rounds, e0, s);
    case ESettings(_, _) => IdleOnCourse(ps, rounds, e0, s, e);
    case EChangeHost(_) => IdleOnCourse(ps, rounds, e0, s, e);
  }

  lemma {:induction false} RunOnCourse(ps: seq<Player>, rounds: nat, e0: nat, s: State, es: seq<Event>)
    requires CountEligible(ps) >= 2 && Inv(s) && OnCourse(ps, rounds, e0, s)
    requires forall k :: 0 <= k < |es| ==> PlayEvent(es[k])
    ensures Inv(Run(s, es)) && OnCourse(ps, rounds, e0, Run(s, es))
    decreases |es|
  {
    if es != [] {
      var most := es[..|es| - 1];
      RunOnCourse(ps, rounds, e0, s, most);
      PlayOnCourse(ps, rounds, e0, Run(s, most), es[|es| - 1]);
      ApplyKeeps(Run(s, most), es[|es| - 1]);
    }
  }

  lemma StartOnCourse(s: State, who: string, offer: seq<string>)
    requires Inv(s) && s.room.hostId == who && s.room.state == Lobby && CountEligible(s.room.players) >= 2
    ensures OnCourse(s.room.players, s.room.config.numRounds, |s.log.ended|, StartGame(s, who, offer))
  {
    var ps := s.room.players;
    EligibleCounted(ps);
    FixedRosterGame(ps, s.room.config.numRounds);
    var s' := StartGame(s, who, offer);
    assert Indexes(s'.log.drawn) == [StartIndex(s.room)];
  }

  /* The drawings so far begin the list of drawers, and the game is over when all have had their turn. */
  ghost predicate DrawsInOrder(ps: seq<Player>, rounds: nat, e0: nat, s: State) {
    var drawers := Repeat(EligibleFrom(ps, 0), rounds);
    && Indexes(s.log.drawn) <= drawers
    && (s.room.state == GameOver <==> |s.log.ended| - e0 == |drawers|)
    && (s.room.state == GameOver ==> Indexes(s.log.drawn) == drawers)
  }

  /* The live turn belongs to the player at the position drawn last. */
  ghost predicate DrawnLastDraws(ps: seq<Player>, s: State) {
    s.room.turn.Some? ==>
      && s.log.drawn != [] && s.log.drawn[|s.log.drawn| - 1].index < |ps|
      && s.room.turn.value.drawerId == ps[s.log.drawn[|s.log.drawn| - 1].index].id
  }

  lemma CourseInOrder(ps: seq<Player>, rounds: nat, e0: nat, s: State)
    requires OnCourse(ps, rounds, e0, s)
    ensures DrawsInOrder(ps, rounds, e0, s) && DrawnLastDraws(ps, s)
  {
  }

  /* A reachable lobby whose host starts a game with at least two players who can draw: whatever
     is selected, guessed and timed out in whatever order, those players draw in list order, once
     per round; the game is over exactly when the last of these turns has ended, and the live turn
     belongs to the player whose position was drawn last. */
  lemma FixedRosterRun(s: State, who: string, offer: seq<string>, es: seq<Event>)
    requires Reachable(s)
    requires s.room.hostId == who && s.room.state == Lobby && CountEligible(s.room.players) >= 2
    requires forall k :: 0 <= k < |es| ==> PlayEvent(es[k])
    ensures var s' := Run(StartGame(s, who, offer), es);
            && DrawsInOrder(s.room.players, s.room.config.numRounds, |s.log.ended|, s')
            && DrawnLastDraws(s.room.players, s')
  {
    var ps, rounds, e0 := s.room.players, s.room.config.numRounds, |s.log.ended|;
    ReachableOk(s);
    StartGameKeeps(s, who, offer);
    StartOnCourse(s, who, offer);
    var s1 := StartGame(s, who, offer);
    RunOnCourse(ps, rounds, e0, s1, es);
    CourseInOrder(ps, rounds, e0, Run(s1, es));
  }
}
