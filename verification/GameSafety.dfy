/** What every run of a room keeps: turns and timers, hints, guesses, scores, rotation. */
module GameSafety {
  import opened Models
  import opened Rotation
  import opened Hints
  import opened Game
  import Scoring

  ghost predicate NoDup<T>(s: seq<T>) {
    forall i, j :: 0 <= i < j < |s| ==> s[i] != s[j]
  }

  function Entry(p: Payload, id: string): int { if id in p then p[id] else 0 }

  /* Total of a player's turn_ended entries from a given message on. */
  function Earned(payloads: seq<Payload>, from: nat, id: string): int {
    if |payloads| <= from then 0
    else Earned(payloads[..|payloads| - 1], from, id) + Entry(payloads[|payloads| - 1], id)
  }

  // ---- The invariant ----

  ghost predicate RosterOk(s: State) {
    && UniqueIds(s.room.players)
    && (forall i :: 0 <= i < |s.room.players| ==> s.room.players[i].id in s.log.since)
    && (forall id :: id in s.log.since ==> s.log.since[id] <= |s.log.payloads|)
    && (forall i :: 0 <= i < |s.room.players| && s.room.players[i].spectator ==> !s.room.players[i].hasGuessed)
  }

  ghost predicate TurnOk(s: State) {
    s.room.turn.Some? ==>
      && s.room.state == Playing && s.pending.None?
      && s.room.turn.value.id < s.nextTurn && s.room.turn.value.id !in s.log.ended
  }

  ghost predicate ClockOk(s: State) {
    && (forall t :: t in s.timers ==> t.turn < s.nextTurn)
    && (forall k :: 0 <= k < |s.log.ended| ==> s.log.ended[k] < s.nextTurn)
    && NoDup(s.log.ended)
    && |s.log.ended| == |s.log.payloads|
  }

  function PendingHints(timers: set<Timer>, turn: nat): nat {
    (if Timer(Hint40, turn) in timers then 1 else 0) + (if Timer(Hint70, turn) in timers then 1 else 0)
  }

  ghost predicate HintOk(s: State) {
    s.room.turn.Some? ==>
      var t := s.room.turn.value; Fair(t.hint, t.word, 2 - PendingHints(s.timers, t.id))
  }

  ghost predicate OrderOk(ps: seq<Player>, t: TurnState) {
    && NoDup(t.guessOrder)
    && t.drawerId !in t.guessOrder
    && (forall i :: 0 <= i < |ps| ==> (ps[i].hasGuessed <==> ps[i].id in t.guessOrder))
  }

  ghost predicate GuessOk(s: State) {
    s.room.turn.Some? ==>
      && OrderOk(s.room.players, s.room.turn.value)
      && forall k :: 0 <= k < |s.room.turn.value.guessOrder| ==> s.room.turn.value.guessOrder[k] in s.log.since
  }

  ghost predicate ScoreOk(s: State)
    requires RosterOk(s)
  {
    forall i :: 0 <= i < |s.room.players| ==>
      var p := s.room.players[i]; p.score == Earned(s.log.payloads, s.log.since[p.id], p.id)
  }

  ghost predicate DrawnOk(s: State) {
    && Increasing(s.log.drawn)
    && s.log.base <= s.room.currentRound
    && (forall k :: 0 <= k < |s.log.drawn| ==>
         && s.log.base <= s.log.drawn[k].round <= s.room.config.numRounds
         && s.log.drawn[k].index < s.log.widest
         && !Before(s.room.currentRound, s.room.drawerIndex, s.log.drawn[k].round, s.log.drawn[k].index))
    && (s.room.state == Lobby ==> s.room.drawerIndex == 0 && s.log.drawn == [])
    && 0 <= s.log.base <= 1
  }

  ghost predicate Inv(s: State) {
    && RosterOk(s) && TurnOk(s) && ClockOk(s) && HintOk(s) && GuessOk(s) && ScoreOk(s) && DrawnOk(s)
  }

  // ---- Ending a turn ----

  lemma {:induction false} PayloadWithinOrder(ps: seq<Player>, t: TurnState, duration: Pos, k: nat)
    requires k <= |t.guessOrder|
    ensures forall id :: id in TallyGuessers(ps, t, duration, k).payload ==> id in t.guessOrder[..k]
  {
    if k > 0 {
      PayloadWithinOrder(ps, t, duration, k - 1);
      assert t.guessOrder[..k] == t.guessOrder[..k - 1] + [t.guessOrder[k - 1]];
    }
  }

  /* Every listed player's score changes by that player's entry in the payload. */
  ghost predicate PaidAsListed(ps: seq<Player>, g: Tally) {
    && |g.players| == |ps|
    && forall i :: 0 <= i < |ps| ==>
         g.players[i] == ps[i].(score := ps[i].score + Entry(g.payload, ps[i].id))
  }

  lemma PayOneMore(ps: seq<Player>, g: Tally, id: string, points: int, scores: seq<int>)
    requires PaidAsListed(ps, g) && id !in g.payload
    ensures PaidAsListed(ps, Tally(AddScore(g.players, id, points), g.payload[id := points], scores))
  {
  }

  lemma NotPaidYet(ps: seq<Player>, t: TurnState, duration: Pos, k: nat)
    requires NoDup(t.guessOrder) && k < |t.guessOrder|
    ensures t.guessOrder[k] !in TallyGuessers(ps, t, duration, k).payload
  {
    PayloadWithinOrder(ps, t, duration, k);
  }

  lemma {:induction false} TallyGuessersExact(ps: seq<Player>, t: TurnState, duration: Pos, k: nat)
    requires NoDup(t.guessOrder) && k <= |t.guessOrder|
    ensures PaidAsListed(ps, TallyGuessers(ps, t, duration, k))
  {
    if k > 0 {
      TallyGuessersExact(ps, t, duration, k - 1);
      NotPaidYet(ps, t, duration, k - 1);
      var b := TallyGuessers(ps, t, duration, k - 1);
      var id := t.guessOrder[k - 1];
      var found := Find(ps, id);
      if found.Some? {
        var s := ScoreOf(found.value.guessTime, t, duration, k);
        PayOneMore(ps, b, id, s, b.scores + [s]);
      }
    }
  }

  /* No entry of the broadcast payload is overwritten and none is paid twice. */
  lemma TallyExact(ps: seq<Player>, t: TurnState, duration: Pos, reason: TurnEndReason)
    requires NoDup(t.guessOrder) && t.drawerId !in t.guessOrder
    ensures PaidAsListed(ps, TallyTurn(ps, t, duration, reason))
    ensures reason == DrawerDisconnected ==> TallyTurn(ps, t, duration, reason).payload == map[]
  {
    if reason != DrawerDisconnected {
      TallyGuessersExact(ps, t, duration, |t.guessOrder|);
      PayloadWithinOrder(ps, t, duration, |t.guessOrder|);
      assert t.guessOrder[..|t.guessOrder|] == t.guessOrder;
      var g := TallyGuessers(ps, t, duration, |t.guessOrder|);
      PayOneMore(ps, g, t.drawerId, Scoring.DrawerBonus(g.scores), g.scores);
    }
  }

  lemma EarnedMore(payloads: seq<Payload>, p: Payload, from: nat, id: string)
    requires from <= |payloads|
    ensures Earned(payloads + [p], from, id) == Earned(payloads, from, id) + Entry(p, id)
  {
    assert (payloads + [p])[..|payloads|] == payloads;
  }

  lemma SettleScores(s: State, reason: TurnEndReason)
    requires Inv(s) && s.room.turn.Some?
    ensures RosterOk(Settle(s, reason)) && ScoreOk(Settle(s, reason))
  {
    var t := s.room.turn.value;
    var ps := s.room.players;
    TallyExact(ps, t, s.room.config.turnDuration, reason);
    var s' := Settle(s, reason);
    var p := TallyTurn(ps, t, s.room.config.turnDuration, reason).payload;
    forall i | 0 <= i < |ps|
      ensures s'.room.players[i].score == Earned(s'.log.payloads, s'.log.since[ps[i].id], ps[i].id)
    {
      EarnedMore(s.log.payloads, p, s.log.since[ps[i].id], ps[i].id);
    }
  }

  lemma SettleKeeps(s: State, reason: TurnEndReason)
    requires Inv(s) && s.room.turn.Some?
    ensures Inv(Settle(s, reason))
  {
    SettleScores(s, reason);
    SettleClears(s, reason);
  }

  lemma SettleClears(s: State, reason: TurnEndReason)
    requires s.room.turn.Some? && TurnOk(s) && ClockOk(s) && DrawnOk(s)
    ensures var s' := Settle(s, reason); TurnOk(s') && ClockOk(s') && HintOk(s') && GuessOk(s') && DrawnOk(s')
  {
  }

  lemma AdvanceKeeps(s: State, offer: seq<string>)
    requires Inv(s) && s.room.turn.None?
    ensures Inv(Advance(s, offer)) && Advance(s, offer).room.turn.None?
  {
    AdvanceDrawn(s, offer);
  }

  lemma AdvanceDrawn(s: State, offer: seq<string>)
    requires DrawnOk(s)
    ensures DrawnOk(Advance(s, offer))
  {
    var r := s.room;
    NextIsLeast(r.players, r.currentRound, r.drawerIndex, r.config.numRounds);
  }

  lemma EndTurnKeeps(s: State, reason: TurnEndReason, offer: seq<string>)
    requires Inv(s)
    ensures Inv(EndTurn(s, reason, offer)) && EndTurn(s, reason, offer).room.turn.None?
  {
    if s.room.turn.Some? {
      SettleKeeps(s, reason);
      AdvanceKeeps(Settle(s, reason), offer);
    }
  }

  // ---- The other handlers ----

  lemma SelectWordKeeps(s: State, who: string, word: string, now: real)
    requires Inv(s)
    ensures Inv(SelectWord(s, who, word, now))
  {
    InitialHintFair(word);
  }

  lemma FireTimerKeeps(s: State, t: Timer, pick: nat, offer: seq<string>)
    requires Inv(s)
    ensures Inv(FireTimer(s, t, pick, offer))
  {
    var s1 := s.(timers := s.timers - {t});
    if t in s.timers && Live(s, t.turn) && t.kind != TurnEnd {
      var turn := s.room.turn.value;
      assert PendingHints(s1.timers, turn.id) == PendingHints(s.timers, turn.id) - 1;
      RevealFair(turn.hint, turn.word, pick, 2 - PendingHints(s.timers, turn.id));
    } else if t in s.timers {
      assert s.room.turn.Some? ==>
          PendingHints(s1.timers, s.room.turn.value.id) == PendingHints(s.timers, s.room.turn.value.id);
      assert Inv(s1);
      EndTurnKeeps(s1, TimerExpired, offer);
    }
  }

  /* Only connection, time and profile fields differ. */
  ghost predicate SameStanding(ps: seq<Player>, qs: seq<Player>) {
    && |ps| == |qs|
    && forall i :: 0 <= i < |ps| ==>
         && ps[i].id == qs[i].id && ps[i].score == qs[i].score
         && ps[i].hasGuessed == qs[i].hasGuessed && ps[i].spectator == qs[i].spectator
  }

  lemma RewriteKeeps(s: State, qs: seq<Player>)
    requires Inv(s) && SameStanding(s.room.players, qs)
    ensures Inv(s.(room := s.room.(players := qs)))
  {
    var s' := s.(room := s.room.(players := qs));
    assert RosterOk(s');
    forall i | 0 <= i < |qs|
      ensures qs[i].score == Earned(s'.log.payloads, s'.log.since[qs[i].id], qs[i].id)
    {
      assert s.room.players[i].id == qs[i].id;
    }
  }

  /* A player found under an id is replaced only where that id stands. */
  lemma ReplaceFound(ps: seq<Player>, p: Player, q: Player)
    requires UniqueIds(ps) && Find(ps, q.id) == Some(p)
    ensures var r := Replace(ps, q);
            forall i :: 0 <= i < |ps| ==> if ps[i].id == q.id then ps[i] == p && r[i] == q else r[i] == ps[i]
  {
    forall i | 0 <= i < |ps| && ps[i].id == q.id
      ensures ps[i] == p
    {
      FindMember(ps, i);
    }
  }

  /* What marking a correct guess does to each listed player. */
  lemma MarkGuessPlayers(s: State, id: string, text: string, now: real)
    requires Inv(s) && MayGuess(s, id, text)
    ensures var p := Find(s.room.players, id).value;
            var ps, qs := s.room.players, MarkGuess(s, p, now).room.players;
            && p.id == id && !p.spectator && id in s.log.since && id !in s.room.turn.value.guessOrder
            && |qs| == |ps| && UniqueIds(qs)
            && forall i :: 0 <= i < |ps| ==>
                 && qs[i].id == ps[i].id && qs[i].score == ps[i].score && qs[i].spectator == ps[i].spectator
                 && qs[i].hasGuessed == (ps[i].hasGuessed || ps[i].id == id)
                 && (ps[i].id == id ==> !ps[i].spectator)
  {
    var ps := s.room.players;
    var p := Find(ps, id).value;
    ReplaceFound(ps, p, p.(hasGuessed := true, guessTime := now));
    var i :| 0 <= i < |ps| && ps[i] == p;
  }

  lemma MarkGuessOrder(s: State, id: string, text: string, now: real)
    requires Inv(s) && MayGuess(s, id, text)
    ensures GuessOk(MarkGuess(s, Find(s.room.players, id).value, now))
  {
    MarkGuessPlayers(s, id, text, now);
  }

  lemma MarkGuessKeeps(s: State, id: string, text: string, now: real)
    requires Inv(s) && MayGuess(s, id, text)
    ensures Inv(MarkGuess(s, Find(s.room.players, id).value, now))
  {
    MarkGuessOrder(s, id, text, now);
    MarkGuessPlayers(s, id, text, now);
    var s' := MarkGuess(s, Find(s.room.players, id).value, now);
    assert RosterOk(s');
    assert ScoreOk(s');
  }

  lemma GuessKeeps(s: State, id: string, text: string, now: real, offer: seq<string>)
    requires Inv(s)
    ensures Inv(Guess(s, id, text, now, offer))
  {
    if MayGuess(s, id, text) {
      MarkGuessKeeps(s, id, text, now);
      EndTurnKeeps(MarkGuess(s, Find(s.room.players, id).value, now), AllGuessed, offer);
    }
  }

  lemma CheckRosterKeeps(s: State, offer: seq<string>)
    requires Inv(s)
    ensures Inv(CheckRoster(s, offer))
  {
    EndTurnKeeps(s, AllGuessed, offer);
  }

  lemma DisconnectKeeps(s: State, id: string, now: real, offer: seq<string>)
    requires Inv(s)
    ensures Inv(Disconnect(s, id, now, offer))
  {
    match Find(s.room.players, id)
    case None =>
    case Some(p) =>
      var q := p.(connected := false, disconnectTime := Some(now));
      ReplaceFound(s.room.players, p, q);
      var qs := Replace(s.room.players, q);
      RewriteKeeps(s, qs);
      var s1 := s.(room := s.room.(players := qs));
      if s.room.turn.Some? && s.room.turn.value.drawerId == id {
        EndTurnKeeps(s1, DrawerDisconnected, offer);
      } else {
        CheckRosterKeeps(s1, offer);
      }
  }

  lemma ReconnectKeeps(s: State, id: string)
    requires Inv(s)
    ensures Inv(Reconnect(s, id))
  {
    match Find(s.room.players, id)
    case None =>
    case Some(p) =>
      var q := p.(connected := true, disconnectTime := None);
      ReplaceFound(s.room.players, p, q);
      RewriteKeeps(s, Replace(s.room.players, q));
  }

  lemma EarnedNothing(payloads: seq<Payload>, id: string)
    ensures Earned(payloads, |payloads|, id) == 0
  {
  }

  lemma JoinKeeps(s: State, id: string, name: string, spectator: bool, approved: bool)
    requires Inv(s) && id !in s.log.since
    ensures Inv(Join(s, id, name, spectator, approved))
  {
    EarnedNothing(s.log.payloads, id);
    var s' := Join(s, id, name, spectator, approved);
    var n := |s.room.players|;
    assert s'.room.players[n].id == id && s'.log.since[id] == |s.log.payloads|;
    assert forall i :: 0 <= i < n ==> s'.room.players[i] == s.room.players[i];
  }

  lemma BecomePlayerKeeps(s: State, id: string)
    requires Inv(s)
    ensures Inv(BecomePlayer(s, id))
  {
    match Find(s.room.players, id)
    case None =>
    case Some(p) =>
      if p.connected && p.spectator {
        var q := p.(spectator := false, score := 0, hasGuessed := false);
        ReplaceFound(s.room.players, p, q);
        EarnedNothing(s.log.payloads, id);
        var s' := BecomePlayer(s, id);
        FromZeroScores(s, s', id);
        FromZeroGuesses(s, s', id);
      }
  }

  /* One spectator has become a player with no score and no guess. */
  ghost predicate FromZero(ps: seq<Player>, qs: seq<Player>, id: string) {
    && |qs| == |ps|
    && forall i :: 0 <= i < |ps| ==>
         && qs[i].id == ps[i].id
         && if ps[i].id == id
            then ps[i].spectator && qs[i].score == 0 && !qs[i].hasGuessed
            else qs[i] == ps[i]
  }

  lemma FromZeroScores(s: State, s': State, id: string)
    requires RosterOk(s) && ScoreOk(s) && FromZero(s.room.players, s'.room.players, id)
    requires s'.log == s.log.(since := s.log.since[id := |s.log.payloads|])
    requires Earned(s.log.payloads, |s.log.payloads|, id) == 0
    ensures RosterOk(s') && ScoreOk(s')
  {
  }

  lemma FromZeroGuesses(s: State, s': State, id: string)
    requires RosterOk(s) && GuessOk(s) && FromZero(s.room.players, s'.room.players, id) && s'.room.turn == s.room.turn
    requires s'.log == s.log.(since := s.log.since[id := |s.log.payloads|])
    ensures GuessOk(s')
  {
  }

  lemma RemoveKeeps(s: State, id: string)
    requires Inv(s)
    ensures Inv(s.(room := s.room.(players := Without(s.room.players, id))))
    ensures Inv(Remove(s, id))
  {
    WithoutKeeps(s.room.players, id);
    FewerKeep(s, Without(s.room.players, id));
  }

  /* Leaving players out, whoever they are. */
  lemma FewerKeep(s: State, qs: seq<Player>)
    requires Inv(s) && UniqueIds(qs) && forall p :: p in qs ==> p in s.room.players
    ensures Inv(s.(room := s.room.(players := qs)))
  {
    var ps := s.room.players;
    forall i | 0 <= i < |qs|
      ensures exists j :: 0 <= j < |ps| && ps[j] == qs[i]
    {
      assert qs[i] in ps;
    }
  }

  lemma KickKeeps(s: State, id: string, offer: seq<string>)
    requires Inv(s)
    ensures Inv(Kick(s, id, offer))
  {
    RemoveKeeps(s, id);
    var s1 := s.(room := s.room.(players := Without(s.room.players, id)));
    EndTurnKeeps(s1, DrawerDisconnected, offer);
    CheckRosterKeeps(s1, offer);
  }

  lemma {:induction false} ActiveInList(ps: seq<Player>)
    ensures Active(ps) <= |ps|
  {
    if ps != [] {
      ActiveInList(ps[1..]);
    }
  }

  lemma StartGameKeeps(s: State, who: string, offer: seq<string>)
    requires Inv(s)
    ensures Inv(StartGame(s, who, offer))
  {
    ActiveInList(s.room.players);
    RewriteKeeps(s, ResetReady(s.room.players));
  }

  lemma RematchKeeps(s: State, who: string)
    requires Inv(s)
    ensures Inv(Rematch(s, who))
  {
    if s.room.hostId == who && s.room.state == GameOver {
      var s' := Rematch(s, who);
      assert RosterOk(s');
      forall i | 0 <= i < |s'.room.players|
        ensures var p := s'.room.players[i]; p.score == Earned(s'.log.payloads, s'.log.since[p.id], p.id)
      {
        EarnedNothing(s.log.payloads, s'.room.players[i].id);
      }
    }
  }

  // ---- Runs ----

  lemma WaitExpiresKeeps(s: State)
    requires Inv(s)
    ensures Inv(WaitExpires(s))
  {
  }

  lemma AutoSelectKeeps(s: State, drawer: string, pick: nat, now: real)
    requires Inv(s)
    ensures Inv(AutoSelect(s, drawer, pick, now))
  {
    if s.pending.Some? && s.pending.value != [] {
      SelectWordKeeps(s, drawer, s.pending.value[pick % |s.pending.value|], now);
    }
  }

  lemma PlayKeeps(s: State, e: Event)
    requires Inv(s)
    requires e.EStartGame? || e.ESelectWord? || e.EAutoSelect? || e.EFire? || e.EGuess? || e.ERematch?
    ensures Inv(Apply(s, e))
  {
    match e
    case EStartGame(who, offer) => StartGameKeeps(s, who, offer);
    case ESelectWord(who, word, now) => SelectWordKeeps(s, who, word, now);
    case EAutoSelect(d, pick, now) => AutoSelectKeeps(s, d, pick, now);
    case EFire(t, pick, offer) => FireTimerKeeps(s, t, pick, offer);
    case EGuess(who, text, now, offer) => GuessKeeps(s, who, text, now, offer);
    case ERematch(who) => RematchKeeps(s, who);
  }

  lemma RosterChangeKeeps(s: State, e: Event)
    requires Inv(s) && Fresh(s, e)
    requires e.EReconnect? || e.EJoin? || e.EBecomePlayer? || e.ERemove?
    ensures Inv(Apply(s, e))
  {
    match e
    case EReconnect(id) => ReconnectKeeps(s, id);
    case EJoin(id, name, spectator, approved) => JoinKeeps(s, id, name, spectator, approved);
    case EBecomePlayer(id) => BecomePlayerKeeps(s, id);
    case ERemove(id) => RemoveKeeps(s, id);
  }

  lemma LossKeeps(s: State, e: Event)
    requires Inv(s) && (e.EDisconnect? || e.EKick? || e.EWaitExpires?)
    ensures Inv(Apply(s, e))
  {
    match e
    case EDisconnect(id, now, offer) => DisconnectKeeps(s, id, now, offer);
    case EKick(id, offer) => KickKeeps(s, id, offer);
    case EWaitExpires => WaitExpiresKeeps(s);
  }

  /* Settings change in the lobby only, before anything is drawn. */
  lemma HostingKeeps(s: State, e: Event)
    requires Inv(s) && (e.ESettings? || e.EChangeHost?)
    ensures Inv(Apply(s, e))
  {
  }

  lemma RestoredRoster(s: State, now: real)
    requires RosterOk(s) && ScoreOk(s)
    ensures RosterOk(Restore(s, now)) && ScoreOk(Restore(s, now))
  {
    var ps, qs := s.room.players, Restore(s, now).room.players;
    assert forall i :: 0 <= i < |ps| ==> qs[i].id == ps[i].id && qs[i].score == ps[i].score && !qs[i].spectator;
  }

  lemma RestoredTurn(s: State, now: real)
    requires TurnOk(s) && ClockOk(s) && HintOk(s) && GuessOk(s)
    ensures var s' := Restore(s, now); TurnOk(s') && ClockOk(s') && HintOk(s') && GuessOk(s')
  {
    var ps, qs := s.room.players, Restore(s, now).room.players;
    assert forall i :: 0 <= i < |ps| ==> qs[i].id == ps[i].id && qs[i].hasGuessed == ps[i].hasGuessed;
  }

  /* A new worker goes on with the scores, the guesses, the hint and the rotation. */
  lemma RestoreKeeps(s: State, now: real)
    requires Inv(s)
    ensures Inv(Restore(s, now))
  {
    RestoredRoster(s, now);
    RestoredTurn(s, now);
  }

  lemma ApplyKeeps(s: State, e: Event)
    requires Inv(s) && Fresh(s, e)
    ensures Inv(Apply(s, e))
  {
    if e.EStartGame? || e.ESelectWord? || e.EAutoSelect? || e.EFire? || e.EGuess? || e.ERematch? {
      PlayKeeps(s, e);
    } else if e.ESettings? || e.EChangeHost? {
      HostingKeeps(s, e);
    } else if e.ERestore? {
      RestoreKeeps(s, e.now);
    } else if e.EDisconnect? || e.EKick? || e.EWaitExpires? {
      LossKeeps(s, e);
    } else {
      RosterChangeKeeps(s, e);
    }
  }

  lemma {:induction false} RunKeeps(s: State, es: seq<Event>)
    requires Inv(s) && FreshRun(s, es)
    ensures Inv(Run(s, es))
    decreases |es|
  {
    if es != [] {
      var most := es[..|es| - 1];
      forall k | 0 <= k < |most|
        ensures Fresh(Run(s, most[..k]), most[k])
      {
        assert most[..k] == es[..k];
      }
      RunKeeps(s, most);
      ApplyKeeps(Run(s, most), es[|es| - 1]);
    }
  }

  lemma CreatedOk(code: string, host: string, name: string, config: GameConfig)
    ensures Inv(Created(code, host, name, config))
    ensures var s := Created(code, host, name, config);
            && |s.room.players| == 1 && s.room.players[0].id == host && s.room.players[0].name == name
            && s.room.hostId == host && s.room.config == config && s.room.state == Lobby
            && s.room.turn.None? && s.pending.None? && s.timers == {} && !s.waiting
  {
  }

  // ---- What the runs of a room guarantee ----

  ghost predicate Reachable(s: State) {
    exists code, host, name, config, es ::
      FreshRun(Created(code, host, name, config), es) && s == Run(Created(code, host, name, config), es)
  }

  lemma ReachableOk(s: State)
    requires Reachable(s)
    ensures Inv(s)
  {
    var code, host, name, config, es :|
      FreshRun(Created(code, host, name, config), es) && s == Run(Created(code, host, name, config), es);
    CreatedOk(code, host, name, config);
    RunKeeps(Created(code, host, name, config), es);
  }

  /* A live turn means the room is playing; its hint is the word with at most two letters given
     away and one kept back; no turn is scored twice or scored while it is live. */
  lemma LiveTurnSafe(s: State)
    requires Reachable(s)
    ensures NoDup(s.log.ended)
    ensures s.room.turn.Some? ==>
              var t := s.room.turn.value;
              && s.room.state == Playing && s.pending.None? && t.id !in s.log.ended
              && Truthful(t.hint, t.word) && |Shown(t.hint, t.word)| <= 2
              && (HasLetter(t.word) ==> '_' in t.hint)
  {
    ReachableOk(s);
  }

  /* A timer of any turn but the live one changes nothing but the set of pending timers. */
  lemma StaleTimersIdle(s: State, t: Timer, pick: nat, offer: seq<string>)
    requires Reachable(s)
    requires t.turn in s.log.ended || s.room.turn.None? || s.room.turn.value.id != t.turn
    ensures FireTimer(s, t, pick, offer) == s.(timers := s.timers - {t})
  {
    ReachableOk(s);
    if t !in s.timers {
      assert s.timers - {t} == s.timers;
    }
  }

  /* The order of correct guesses lists each guesser once and never the drawer, and agrees with
     the flags of the players who are still there. */
  lemma GuessOrderExact(s: State)
    requires Reachable(s) && s.room.turn.Some?
    ensures var t := s.room.turn.value;
            && NoDup(t.guessOrder) && t.drawerId !in t.guessOrder
            && forall i :: 0 <= i < |s.room.players| ==>
                 (s.room.players[i].hasGuessed <==> s.room.players[i].id in t.guessOrder)
  {
    ReachableOk(s);
  }

  /* A player's score is the total of the entries that turn_ended messages gave that player since
     the score last started from zero. */
  lemma ScoresAreBroadcastTotals(s: State, i: nat)
    requires Reachable(s) && i < |s.room.players|
    ensures var p := s.room.players[i];
            p.id in s.log.since && p.score == Earned(s.log.payloads, s.log.since[p.id], p.id)
  {
    ReachableOk(s);
  }

  /* The k-th correct guesser, if still present, is paid for place k. */
  ghost predicate PaidForPlace(ps: seq<Player>, t: TurnState, duration: Pos, payload: Payload, k: nat)
    requires k < |t.guessOrder|
  {
    var id := t.guessOrder[k];
    Find(ps, id).Some? ==>
      id in payload && payload[id] == ScoreOf(Find(ps, id).value.guessTime, t, duration, k + 1)
  }

  lemma {:induction false} GuesserPaid(ps: seq<Player>, t: TurnState, duration: Pos, n: nat, k: nat)
    requires NoDup(t.guessOrder) && k < n <= |t.guessOrder|
    ensures PaidForPlace(ps, t, duration, TallyGuessers(ps, t, duration, n).payload, k)
  {
    if k < n - 1 {
      GuesserPaid(ps, t, duration, n - 1, k);
      assert t.guessOrder[k] != t.guessOrder[n - 1];
    }
  }

  lemma {:induction false} GuesserScoresInRange(ps: seq<Player>, t: TurnState, duration: Pos, n: nat)
    requires n <= |t.guessOrder|
    ensures forall k :: 0 <= k < |TallyGuessers(ps, t, duration, n).scores| ==>
              45 <= TallyGuessers(ps, t, duration, n).scores[k] <= 750
  {
    if n > 0 {
      GuesserScoresInRange(ps, t, duration, n - 1);
      match Find(ps, t.guessOrder[n - 1])
      case None =>
      case Some(p) =>
        Scoring.ScoreRange(Clamp(p.guessTime - t.startTime, duration as real), duration as real, n);
    }
  }

  /* Who is paid what when a turn ends with its drawer present or removed. */
  lemma GuessersPaidExactly(ps: seq<Player>, t: TurnState, duration: Pos, reason: TurnEndReason)
    requires NoDup(t.guessOrder) && t.drawerId !in t.guessOrder && reason != DrawerDisconnected
    ensures forall k :: 0 <= k < |t.guessOrder| ==>
              PaidForPlace(ps, t, duration, TallyTurn(ps, t, duration, reason).payload, k)
    ensures forall id :: id in TallyTurn(ps, t, duration, reason).payload ==> id == t.drawerId || id in t.guessOrder
  {
    var n := |t.guessOrder|;
    PayloadWithinOrder(ps, t, duration, n);
    assert t.guessOrder[..n] == t.guessOrder;
    forall k | 0 <= k < n
      ensures PaidForPlace(ps, t, duration, TallyTurn(ps, t, duration, reason).payload, k)
    {
      GuesserPaid(ps, t, duration, n, k);
      assert t.guessOrder[k] != t.drawerId;
    }
  }

  lemma DrawerPaidInRange(ps: seq<Player>, t: TurnState, duration: Pos, reason: TurnEndReason)
    requires reason != DrawerDisconnected && Find(ps, t.drawerId).Some?
    ensures var g := TallyTurn(ps, t, duration, reason);
            && t.drawerId in g.payload
            && if g.scores == [] then g.payload[t.drawerId] == 0 else 45 <= g.payload[t.drawerId] <= 750
  {
    GuesserScoresInRange(ps, t, duration, |t.guessOrder|);
    var g := TallyGuessers(ps, t, duration, |t.guessOrder|);
    if g.scores != [] {
      Scoring.DrawerBonusBounds(g.scores, 45, 750);
    }
  }

  lemma {:induction false} GuessersGain(ps: seq<Player>, t: TurnState, duration: Pos, n: nat, i: nat)
    requires n <= |t.guessOrder| && i < |ps|
    ensures |TallyGuessers(ps, t, duration, n).players| == |ps|
    ensures TallyGuessers(ps, t, duration, n).players[i].score >= ps[i].score
  {
    if n > 0 {
      GuessersGain(ps, t, duration, n - 1, i);
      match Find(ps, t.guessOrder[n - 1])
      case None =>
      case Some(p) =>
        Scoring.ScoreRange(Clamp(p.guessTime - t.startTime, duration as real), duration as real, n);
    }
  }

  lemma BonusNotNegative(ps: seq<Player>, t: TurnState, duration: Pos)
    ensures Scoring.DrawerBonus(TallyGuessers(ps, t, duration, |t.guessOrder|).scores) >= 0
  {
    var g := TallyGuessers(ps, t, duration, |t.guessOrder|);
    GuesserScoresInRange(ps, t, duration, |t.guessOrder|);
    if g.scores != [] {
      Scoring.DrawerBonusBounds(g.scores, 45, 750);
    }
  }

  /* The end of a turn never lowers a score. */
  lemma ScoresNeverDrop(s: State, reason: TurnEndReason, i: nat)
    requires s.room.turn.Some? && i < |s.room.players|
    ensures |Settle(s, reason).room.players| == |s.room.players|
    ensures Settle(s, reason).room.players[i].score >= s.room.players[i].score
  {
    var t := s.room.turn.value;
    GuessersGain(s.room.players, t, s.room.config.turnDuration, |t.guessOrder|, i);
    BonusNotNegative(s.room.players, t, s.room.config.turnDuration);
  }

  /* Everyone else who is to guess has done so. */
  ghost predicate OthersHaveGuessed(s: State, id: string)
    requires s.room.turn.Some?
  {
    forall i :: 0 <= i < |s.room.players| && Eligible(s.room.players[i]) &&
                s.room.players[i].id != s.room.turn.value.drawerId && s.room.players[i].id != id ==>
      s.room.players[i].hasGuessed
  }

  lemma LastMissing(s: State, id: string, text: string, now: real)
    requires Inv(s) && MayGuess(s, id, text)
    ensures var s1 := MarkGuess(s, Find(s.room.players, id).value, now);
            AllHaveGuessed(s1.room.players, s.room.turn.value.drawerId) <==> OthersHaveGuessed(s, id)
  {
    var p := Find(s.room.players, id).value;
    var q := p.(hasGuessed := true, guessTime := now);
    var ps, qs := s.room.players, Replace(s.room.players, q);
    ReplaceFound(ps, p, q);
    forall i | 0 <= i < |ps|
      ensures qs[i].id == ps[i].id && Eligible(qs[i]) == Eligible(ps[i])
      ensures qs[i].hasGuessed == (ps[i].hasGuessed || ps[i].id == id)
    {
    }
  }

  lemma MarkedPlayer(s: State, id: string, text: string, now: real)
    requires Inv(s) && MayGuess(s, id, text)
    ensures var p := Find(s.room.players, id).value;
            var q := p.(hasGuessed := true, guessTime := now);
            Find(MarkGuess(s, p, now).room.players, id) == Some(q)
  {
    var ps := s.room.players;
    var p := Find(ps, id).value;
    var q := p.(hasGuessed := true, guessTime := now);
    var i :| 0 <= i < |ps| && ps[i] == p;
    assert Replace(ps, q)[i] == q;
    FindMember(Replace(ps, q), i);
  }

  /* A correct guess ends the turn exactly when everyone else had guessed. If so, the turn's message
     pays the guesser for the last place at the time of the guess; if not, the guesser joins the
     order and has the flag. */
  lemma CorrectGuessCounts(s: State, id: string, text: string, now: real, offer: seq<string>)
    requires Reachable(s) && MayGuess(s, id, text) && Correct(text, s.room.turn.value.word)
    ensures var t, s' := s.room.turn.value, Guess(s, id, text, now, offer);
            && (s'.room.turn.None? <==> OthersHaveGuessed(s, id))
            && (s'.room.turn.None? ==> PaidLast(s, s', id, now))
            && (s'.room.turn.Some? ==>
                 && s'.room.turn.value == t.(guessOrder := t.guessOrder + [id])
                 && Find(s'.room.players, id).Some? && Find(s'.room.players, id).value.hasGuessed
                 && s'.log == s.log)
  {
    ReachableOk(s);
    var s1 := MarkGuess(s, Find(s.room.players, id).value, now);
    LastMissing(s, id, text, now);
    MarkedPlayer(s, id, text, now);
    EndTurnClears(s1, AllGuessed, offer);
    if OthersHaveGuessed(s, id) {
      GuessMarked(s, id, text, now);
      LastGuesserPaid(s, s1, id, now, offer);
    }
  }

  /* The message of the turn that ended last pays the player for the place after all earlier guesses. */
  ghost predicate PaidLast(s: State, s': State, id: string, now: real)
    requires s.room.turn.Some?
  {
    var t, n := s.room.turn.value, |s.log.payloads|;
    && |s'.log.payloads| == n + 1 && s'.log.payloads[..n] == s.log.payloads
    && id in s'.log.payloads[n]
    && s'.log.payloads[n][id] == ScoreOf(now, t, s.room.config.turnDuration, |t.guessOrder| + 1)
  }

  lemma LastPlacePaid(ps: seq<Player>, t: TurnState, duration: Pos, order: seq<string>, id: string)
    requires t.guessOrder == order + [id] && NoDup(t.guessOrder) && t.drawerId !in t.guessOrder && Find(ps, id).Some?
    ensures var payload := TallyTurn(ps, t, duration, AllGuessed).payload;
            id in payload && payload[id] == ScoreOf(Find(ps, id).value.guessTime, t, duration, |order| + 1)
  {
    GuessersPaidExactly(ps, t, duration, AllGuessed);
    assert PaidForPlace(ps, t, duration, TallyTurn(ps, t, duration, AllGuessed).payload, |order|);
  }

  /* s1 is s with the player's correct guess entered. */
  ghost predicate Marked(s: State, s1: State, id: string, now: real) {
    && s.room.turn.Some? && s1.room.turn.Some? && s1.room.config == s.room.config && s1.log == s.log
    && s1.room.turn.value == s.room.turn.value.(guessOrder := s.room.turn.value.guessOrder + [id])
    && NoDup(s1.room.turn.value.guessOrder) && s1.room.turn.value.drawerId !in s1.room.turn.value.guessOrder
    && Find(s1.room.players, id).Some? && Find(s1.room.players, id).value.guessTime == now
  }

  lemma GuessMarked(s: State, id: string, text: string, now: real)
    requires Inv(s) && MayGuess(s, id, text)
    ensures Marked(s, MarkGuess(s, Find(s.room.players, id).value, now), id, now)
  {
    MarkGuessOrder(s, id, text, now);
    MarkedPlayer(s, id, text, now);
  }

  lemma LastGuesserPaid(s: State, s1: State, id: string, now: real, offer: seq<string>)
    requires Marked(s, s1, id, now)
    ensures PaidLast(s, EndTurn(s1, AllGuessed, offer), id, now)
  {
    LastPlacePaid(s1.room.players, s1.room.turn.value, s.room.config.turnDuration, s.room.turn.value.guessOrder, id);
    EndTurnPayload(s1, AllGuessed, offer);
    var payload := TallyTurn(s1.room.players, s1.room.turn.value, s.room.config.turnDuration, AllGuessed).payload;
    PaidIn(s, EndTurn(s1, AllGuessed, offer), id, now, payload);
  }

  lemma PaidIn(s: State, s': State, id: string, now: real, payload: Payload)
    requires s.room.turn.Some? && s'.log.payloads == s.log.payloads + [payload] && id in payload
    requires var t := s.room.turn.value;
             payload[id] == ScoreOf(now, t, s.room.config.turnDuration, |t.guessOrder| + 1)
    ensures PaidLast(s, s', id, now)
  {
  }

  lemma EndTurnPayload(s: State, reason: TurnEndReason, offer: seq<string>)
    requires s.room.turn.Some?
    ensures var s' := EndTurn(s, reason, offer);
            var g := TallyTurn(s.room.players, s.room.turn.value, s.room.config.turnDuration, reason);
            && s'.log.payloads == s.log.payloads + [g.payload] && s'.room.players == g.players
  {
  }

  /* A turn that ends because its drawer disconnects or is voted out is announced with an empty
     payload, and nobody's score changes. */
  lemma DrawerDisconnectPaysNobody(s: State, id: string, now: real, offer: seq<string>)
    requires Reachable(s) && s.room.turn.Some? && s.room.turn.value.drawerId == id
    requires Find(s.room.players, id).Some?
    ensures EndedUnpaid(s, Disconnect(s, id, now, offer)) && EndedUnpaid(s, Kick(s, id, offer))
    ensures SameStandings(s.room.players, Disconnect(s, id, now, offer).room.players)
    ensures Kick(s, id, offer).room.players == Without(s.room.players, id)
  {
    ReachableOk(s);
    DrawerDisconnects(s, id, now, offer);
    DrawerKicked(s, id, offer);
  }

  ghost predicate EndedUnpaid(s: State, s': State) {
    s'.room.turn.None? && s'.log.payloads == s.log.payloads + [map[]]
  }

  ghost predicate SameStandings(ps: seq<Player>, qs: seq<Player>) {
    && |ps| == |qs|
    && forall i :: 0 <= i < |ps| ==> ps[i].id == qs[i].id && ps[i].score == qs[i].score
  }

  lemma DrawerDisconnects(s: State, id: string, now: real, offer: seq<string>)
    requires UniqueIds(s.room.players) && s.room.turn.Some? && s.room.state == Playing
    requires s.room.turn.value.drawerId == id && Find(s.room.players, id).Some?
    ensures EndedUnpaid(s, Disconnect(s, id, now, offer))
    ensures SameStandings(s.room.players, Disconnect(s, id, now, offer).room.players)
  {
    var p := Find(s.room.players, id).value;
    var q := p.(connected := false, disconnectTime := Some(now));
    var s1 := s.(room := s.room.(players := Replace(s.room.players, q)));
    ReplaceFound(s.room.players, p, q);
    EndTurnPayload(s1, DrawerDisconnected, offer);
    EndTurnClears(s1, DrawerDisconnected, offer);
  }

  lemma DrawerKicked(s: State, id: string, offer: seq<string>)
    requires s.room.turn.Some? && s.room.turn.value.drawerId == id
    ensures EndedUnpaid(s, Kick(s, id, offer)) && Kick(s, id, offer).room.players == Without(s.room.players, id)
  {
    var s1 := s.(room := s.room.(players := Without(s.room.players, id)));
    EndTurnPayload(s1, DrawerDisconnected, offer);
    EndTurnClears(s1, DrawerDisconnected, offer);
  }

  /* A game begun by start_game has at most as many turns as rounds times the largest roster. */
  lemma GameLengthBounded(s: State)
    requires Reachable(s) && s.log.base == 1
    ensures |s.log.drawn| <= s.room.config.numRounds * s.log.widest
    ensures Increasing(s.log.drawn)
  {
    ReachableOk(s);
    FewSlots(s.log.drawn, 1, s.room.config.numRounds, s.log.widest);
  }

  /* Whatever the roster has become, an advance that starts a turn names a listed, connected
     non-spectator at a strictly later position, at most one round on. */
  lemma AdvanceDrawsLater(s: State, offer: seq<string>)
    requires |Advance(s, offer).log.drawn| > |s.log.drawn|
    ensures var r, r' := s.room, Advance(s, offer).room;
            && r'.players == r.players && r'.state == WordSelection
            && r'.drawerIndex < |r.players| && Eligible(r.players[r'.drawerIndex])
            && r'.currentRound <= r.currentRound + 1 && r'.currentRound <= r.config.numRounds
            && Before(r.currentRound, r.drawerIndex, r'.currentRound, r'.drawerIndex)
  {
    var r := s.room;
    NextIsLeast(r.players, r.currentRound, r.drawerIndex, r.config.numRounds);
  }

  ghost predicate Continues(t: TurnState, o: Option<TurnState>) {
    o.Some? ==>
      && o.value.id == t.id && o.value.word == t.word && o.value.drawerId == t.drawerId
      && o.value.startTime == t.startTime && t.guessOrder <= o.value.guessOrder
  }

  lemma EndTurnClears(s: State, reason: TurnEndReason, offer: seq<string>)
    ensures EndTurn(s, reason, offer).room.turn.None?
  {
  }

  lemma CheckRosterContinues(s: State, offer: seq<string>, t: TurnState)
    requires s.room.turn == Some(t)
    ensures Continues(t, CheckRoster(s, offer).room.turn)
  {
    EndTurnClears(s, AllGuessed, offer);
  }

  lemma PlayContinues(s: State, e: Event, t: TurnState)
    requires s.room.turn == Some(t) && TurnOk(s)
    requires e.EStartGame? || e.ESelectWord? || e.EAutoSelect? || e.ERematch?
    ensures Apply(s, e) == s
  {
  }

  lemma FireContinues(s: State, x: Timer, pick: nat, offer: seq<string>, t: TurnState)
    requires s.room.turn == Some(t)
    ensures Continues(t, FireTimer(s, x, pick, offer).room.turn)
  {
    EndTurnClears(s.(timers := s.timers - {x}), TimerExpired, offer);
  }

  lemma GuessContinues(s: State, who: string, text: string, now: real, offer: seq<string>, t: TurnState)
    requires s.room.turn == Some(t)
    ensures Continues(t, Guess(s, who, text, now, offer).room.turn)
  {
    if MayGuess(s, who, text) {
      EndTurnClears(MarkGuess(s, Find(s.room.players, who).value, now), AllGuessed, offer);
    }
  }

  lemma DisconnectContinues(s: State, id: string, now: real, offer: seq<string>, t: TurnState)
    requires s.room.turn == Some(t)
    ensures Continues(t, Disconnect(s, id, now, offer).room.turn)
  {
    match Find(s.room.players, id)
    case None =>
    case Some(p) =>
      var qs := Replace(s.room.players, p.(connected := false, disconnectTime := Some(now)));
      EndTurnClears(s.(room := s.room.(players := qs)), DrawerDisconnected, offer);
      CheckRosterContinues(s.(room := s.room.(players := qs)), offer, t);
  }

  lemma KickContinues(s: State, id: string, offer: seq<string>, t: TurnState)
    requires s.room.turn == Some(t)
    ensures Continues(t, Kick(s, id, offer).room.turn)
  {
    var s1 := s.(room := s.room.(players := Without(s.room.players, id)));
    EndTurnClears(s1, DrawerDisconnected, offer);
    CheckRosterContinues(s1, offer, t);
  }

  /* Events that leave the turn object alone or clear it. */
  lemma RosterContinues(s: State, e: Event, t: TurnState)
    requires s.room.turn == Some(t)
    requires || e.EReconnect? || e.EJoin? || e.EBecomePlayer? || e.ERemove? || e.EWaitExpires?
             || e.ESettings? || e.EChangeHost?
    ensures Continues(t, Apply(s, e).room.turn)
  {
  }

  lemma TurnContinues(s: State, e: Event, t: TurnState)
    requires TurnOk(s) && s.room.turn == Some(t) && !e.ERestore?
    ensures Continues(t, Apply(s, e).room.turn)
  {
    if e.EFire? {
      FireContinues(s, e.timer, e.pick, e.offer, t);
    } else if e.EGuess? {
      GuessContinues(s, e.who, e.text, e.now, e.offer, t);
    } else if e.EDisconnect? {
      DisconnectContinues(s, e.id, e.now, e.offer, t);
    } else if e.EKick? {
      KickContinues(s, e.id, e.offer, t);
    } else if e.EStartGame? || e.ESelectWord? || e.EAutoSelect? || e.ERematch? {
      PlayContinues(s, e, t);
    } else {
      RosterContinues(s, e, t);
    }
  }

  /* A live turn is never replaced by another: it must end first. A new worker goes on with it under
     a fresh identity and clock. */
  lemma LiveTurnNotReplaced(s: State, e: Event)
    requires Reachable(s) && s.room.turn.Some?
    ensures Succeeds(s, e, Apply(s, e).room.turn)
  {
    ReachableOk(s);
    TurnSucceeds(s, e);
  }

  ghost predicate Succeeds(s: State, e: Event, o: Option<TurnState>)
    requires s.room.turn.Some?
  {
    if e.ERestore? then o == Some(s.room.turn.value.(id := s.nextTurn, startTime := e.now))
    else Continues(s.room.turn.value, o)
  }

  lemma TurnSucceeds(s: State, e: Event)
    requires TurnOk(s) && s.room.turn.Some?
    ensures Succeeds(s, e, Apply(s, e).room.turn)
  {
    if e.ERestore? {
      TurnTakenOver(s, e.now);
    } else {
      TurnContinues(s, e, s.room.turn.value);
    }
  }

  lemma TurnTakenOver(s: State, now: real)
    requires TurnOk(s) && s.room.turn.Some?
    ensures Restore(s, now).room.turn == Some(s.room.turn.value.(id := s.nextTurn, startTime := now))
  {
  }
}
