/** When a vote-kick starts, goes on, ends and removes its target (backend/room_manager.py:1369-1418
    and 2718-2898), in terms of who is connected and who has voted. */
module VoteSteps {
  import opened Models
  import opened RoomManager
  import opened RoomSafety
  import opened VoteSafety
  import opened RoomSteps

  /* There is no vote in the room, the target is another connected member, at least three are
     connected, and no failed vote is cooling down. */
  ghost predicate MayStart(m: Manager, c: string, initiator: string, target: string, cooling: bool) {
    && c in m.rooms && c !in m.votes && initiator != target && !cooling
    && target in m.rooms[c].byId && m.rooms[c].byId[target].connected
    && |IdsWhere(m.rooms[c].room.players, IsConnected())| >= 3
  }

  /* Exactly then a vote starts; it has the initiator's vote. */
  lemma StartVoteExactly(m: Manager, initiator: string, target: string, cooling: bool)
    requires Inv(m)
    ensures FindRoom(m, initiator).None? ==> StartVote(m, initiator, target, cooling) == m
    ensures FindRoom(m, initiator).Some? ==>
              var c := FindRoom(m, initiator).value;
              && (MayStart(m, c, initiator, target, cooling) ==>
                    StartVote(m, initiator, target, cooling) == m.(votes := m.votes[c := Vote(target, {initiator})]))
              && (!MayStart(m, c, initiator, target, cooling) ==> StartVote(m, initiator, target, cooling) == m)
  {
    if FindRoom(m, initiator).Some? {
      FoundRoom(m, initiator);
      var c := FindRoom(m, initiator).value;
      MayStartExactly(m, c, initiator, target, cooling);
    }
  }

  lemma MayStartExactly(m: Manager, c: string, initiator: string, target: string, cooling: bool)
    requires Inv(m) && c in m.rooms
    ensures var t := GetPlayer(m.rooms[c], target);
            MayStart(m, c, initiator, target, cooling) <==>
              !(c in m.votes || initiator == target || t.None? || !t.value.connected
                || Connected(m.rooms[c].room.players) < 3 || cooling)
    ensures Connected(m.rooms[c].room.players) >= 3 ==> 1 < Required(m.rooms[c].room.players, target)
  {
    ListedByIndex(m, c, target);
    assert UniqueIds(m.rooms[c].room.players) by {
      assert Good(m.rooms[c], c, m.restored);
    }
    CountsExactly(m.rooms[c].room.players);
    if Connected(m.rooms[c].room.players) >= 3 {
      NoImmediatePass(m, c, target);
    }
  }

  /* A timeout ends the vote it was set for. */
  lemma VoteTimeoutExactly(m: Manager, c: string, target: string)
    ensures var r := VoteTimeout(m, c, target);
            && r.rooms == m.rooms && r.playerToRoom == m.playerToRoom && r.restored == m.restored
            && forall d :: (d in r.votes <==> d in m.votes && !(d == c && m.votes[c].target == target))
                           && (d in r.votes ==> r.votes[d] == m.votes[d])
  {
  }

  // ---- Casting ----

  /* The votes have gone from v to w in room c: they pass and the target, if still there, goes; or the
     vote goes on with them. Nobody else is affected. */
  ghost predicate Counted(m: Manager, r: Manager, c: string, target: string, w: set<string>, passes: bool) {
    && c in m.rooms && c in m.votes && r.restored == m.restored
    && r.rooms - {c} == m.rooms - {c} && c in r.rooms && r.votes - {c} == m.votes - {c}
    && (c in r.votes <==> !passes) && (!passes ==> r.votes[c] == Vote(target, w))
    && r.rooms[c].byId == (if passes then m.rooms[c].byId - {target} else m.rooms[c].byId)
    && (!passes ==> r.rooms[c] == m.rooms[c] && r.playerToRoom == m.playerToRoom)
  }

  /* A vote counts exactly for connected members other than the target: a yes enters it, a no takes it
     out. The target goes exactly when the votes are then more than half of the voters, and the vote
     stays exactly when they are not. */
  lemma CastVoteExactly(m: Manager, voter: string, yes: bool, c: string)
    requires Inv(m) && FindRoom(m, voter) == Some(c) && c in m.votes
    ensures c in m.rooms
    ensures var v := m.votes[c];
            var voters := VoterIds(m.rooms[c].room.players, v.target);
            var w := if yes then v.votes + {voter} else v.votes - {voter};
            && (voter !in voters ==> CastVote(m, voter, yes) == m)
            && (voter in voters ==> Counted(m, CastVote(m, voter, yes), c, v.target, w, 2 * |w| > |voters|))
  {
    FoundRoom(m, voter);
    assert Sound(m.rooms[c], c) by {
      assert Good(m.rooms[c], c, m.restored);
    }
    CastInExactly(m, c, voter, yes);
  }

  lemma CastInExactly(m: Manager, c: string, voter: string, yes: bool)
    requires c in m.rooms && c in m.votes && Sound(m.rooms[c], c)
    ensures var v := m.votes[c];
            var voters := VoterIds(m.rooms[c].room.players, v.target);
            var w := if yes then v.votes + {voter} else v.votes - {voter};
            && (voter !in voters ==> CastIn(m, c, voter, yes) == m)
            && (voter in voters ==> Counted(m, CastIn(m, c, voter, yes), c, v.target, w, 2 * |w| > |voters|))
  {
    FoundOrAbsent(m.rooms[c], c, voter);
    VoterById(m.rooms[c], c, m.votes[c].target, voter);
    var w := if yes then m.votes[c].votes + {voter} else m.votes[c].votes - {voter};
    CountExactly(m, c, Vote(m.votes[c].target, w));
  }

  /* Without a vote in the room, or a room, nothing is cast. */
  lemma CastNothing(m: Manager, voter: string, yes: bool)
    requires FindRoom(m, voter).None? || FindRoom(m, voter).value !in m.votes
    ensures CastVote(m, voter, yes) == m
  {
  }

  lemma CountExactly(m: Manager, c: string, w: Vote)
    requires c in m.rooms && c in m.votes && Sound(m.rooms[c], c)
    ensures Counted(m, Count(m.(votes := m.votes[c := w]), c), c, w.target, w.votes,
                    2 * |w.votes| > |VoterIds(m.rooms[c].room.players, w.target)|)
  {
    var m1 := m.(votes := m.votes[c := w]);
    CountPassesExactly(m1, c);
    FoundOrAbsent(m.rooms[c], c, w.target);
    if 2 * |w.votes| > |VoterIds(m.rooms[c].room.players, w.target)| {
      EndedCount(m, c, w);
    } else {
      assert m1.votes - {c} == m.votes - {c};
    }
  }

  lemma EndedCount(m: Manager, c: string, w: Vote)
    requires c in m.rooms && c in m.votes && (GetPlayer(m.rooms[c], w.target).Some? <==> w.target in m.rooms[c].byId)
    requires |w.votes| >= Required(m.rooms[c].room.players, w.target)
    ensures Counted(m, Count(m.(votes := m.votes[c := w]), c), c, w.target, w.votes, true)
  {
    var m1 := m.(votes := m.votes[c := w] - {c});
    assert m.votes[c := w] - {c} == m.votes - {c};
    assert (m.votes - {c}) - {c} == m.votes - {c};
    if w.target in m.rooms[c].byId {
      KickFrame(m1, c, w.target);
    } else {
      assert m.rooms[c].byId - {w.target} == m.rooms[c].byId;
    }
  }

  lemma KickFrame(m: Manager, c: string, target: string)
    requires c in m.rooms
    ensures var r := ExecuteKick(m, c, target);
            && r.votes == m.votes && r.restored == m.restored && r.rooms - {c} == m.rooms - {c}
            && c in r.rooms && r.rooms[c].byId == m.rooms[c].byId - {target}
  {
  }

  lemma FoundOrAbsent(e: Entry, c: string, id: string)
    requires Sound(e, c)
    ensures GetPlayer(e, id).Some? <==> id in e.byId
    ensures id !in e.byId ==> e.byId - {id} == e.byId
  {
    LookupIsScan(e, id);
  }

  // ---- Disconnecting ----

  lemma VotersWithout(e: Entry, c: string, id: string, target: string)
    requires Sound(e, c) && id in e.byId
    ensures VoterIds(SetPlayer(e, e.byId[id].(connected := false)).room.players, target)
            == VoterIds(e.room.players, target) - {id}
  {
    FoundPlayer(e, c, id);
    var ps, q := e.room.players, e.byId[id].(connected := false);
    var qs := Replace(ps, q);
    forall x
      ensures x in VoterIds(qs, target) <==> x in VoterIds(ps, target) - {id}
    {
      if x in VoterIds(qs, target) {
        var i :| 0 <= i < |qs| && IsVoter(qs[i], target) && qs[i].id == x;
        assert IsVoter(ps[i], target) && ps[i].id == x;
      }
      if x in VoterIds(ps, target) - {id} {
        var i :| 0 <= i < |ps| && IsVoter(ps[i], target) && ps[i].id == x;
        assert qs[i] == ps[i];
      }
    }
  }

  ghost predicate Fate(m: Manager, r: Manager, c: string, id: string, voters: set<string>) {
    && c in m.rooms && c in m.votes
    && var v := m.votes[c];
       var left := v.votes - {id};
       && (v.target == id || |voters| < 2 ==> r == m.(votes := m.votes - {c}))
       && (v.target != id && |voters| >= 2 ==> Counted(m, r, c, v.target, left, 2 * |left| > |voters|))
  }

  /* The vote's part, in a room where the one who goes is already offline. */
  lemma WithdrawExactly(m: Manager, c: string, id: string)
    requires c in m.rooms && c in m.votes && Sound(m.rooms[c], c)
    ensures Fate(m, WithdrawVoter(m, c, id), c, id, VoterIds(m.rooms[c].room.players, m.votes[c].target))
  {
    var v := m.votes[c];
    VotersCounted(m.rooms[c].room.players, v.target);
    CountExactly(m, c, Vote(v.target, v.votes - {id}));
  }

  ghost function RemainingVoters(m: Manager, c: string, id: string): set<string>
    requires c in m.rooms && c in m.votes
  {
    VoterIds(m.rooms[c].room.players, m.votes[c].target) - {id}
  }

  /* The remaining votes suffice for the remaining voters. */
  ghost predicate NowPasses(m: Manager, c: string, id: string)
    requires c in m.rooms && c in m.votes
  {
    && m.votes[c].target != id && |RemainingVoters(m, c, id)| >= 2
    && 2 * |m.votes[c].votes - {id}| > |RemainingVoters(m, c, id)|
  }

  /* The remaining votes do not suffice, and there are enough voters to go on. */
  ghost predicate GoesOn(m: Manager, c: string, id: string)
    requires c in m.rooms && c in m.votes
  {
    && m.votes[c].target != id && |RemainingVoters(m, c, id)| >= 2
    && 2 * |m.votes[c].votes - {id}| <= |RemainingVoters(m, c, id)|
  }

  /* What becomes of the vote and the members of room c when a member goes offline. */
  ghost predicate Withdrawal(m: Manager, r: Manager, c: string, id: string) {
    && c in m.rooms && c in m.votes && id in m.rooms[c].byId && c in r.rooms
    && (c in r.votes <==> GoesOn(m, c, id))
    && (c in r.votes ==> r.votes[c] == Vote(m.votes[c].target, m.votes[c].votes - {id}))
    && r.votes - {c} == m.votes - {c} && r.rooms - {c} == m.rooms - {c}
    && r.rooms[c].byId == (if NowPasses(m, c, id) then OfflineIn(m.rooms[c], id) - {m.votes[c].target}
                           else OfflineIn(m.rooms[c], id))
    && (!NowPasses(m, c, id) ==> r.rooms[c].room == m.rooms[c].room.(players := r.rooms[c].room.players))
  }

  function OfflineIn(e: Entry, id: string): map<string, Player>
    requires id in e.byId
  {
    e.byId[id := e.byId[id].(connected := false)]
  }

  /* The room with one member offline and the vote as it was. */
  ghost predicate UnpluggedIn(m: Manager, r: Manager, c: string, id: string) {
    && c in m.rooms && c in m.votes && id in m.rooms[c].byId && r.votes == m.votes
    && r.rooms - {c} == m.rooms - {c} && c in r.rooms && r.rooms[c].byId == OfflineIn(m.rooms[c], id)
    && r.rooms[c].room == m.rooms[c].room.(players := r.rooms[c].room.players)
    && VoterIds(r.rooms[c].room.players, m.votes[c].target) == RemainingVoters(m, c, id)
  }

  lemma UnplugIs(m: Manager, c: string, id: string)
    requires c in m.rooms && c in m.votes && Sound(m.rooms[c], c) && id in m.rooms[c].byId
    ensures var r := Unplug(m, c, m.rooms[c].byId[id]); UnpluggedIn(m, r, c, id) && Sound(r.rooms[c], c)
  {
    FoundPlayer(m.rooms[c], c, id);
    SetSound(m.rooms[c], c, m.rooms[c].byId[id].(connected := false));
    VotersWithout(m.rooms[c], c, id, m.votes[c].target);
  }

  lemma WithdrawalIs(m: Manager, c: string, id: string)
    requires c in m.rooms && c in m.votes && Sound(m.rooms[c], c) && id in m.rooms[c].byId
    ensures Withdrawal(m, WithdrawVoter(Unplug(m, c, m.rooms[c].byId[id]), c, id), c, id)
  {
    UnplugIs(m, c, id);
    UnpluggedFate(m, Unplug(m, c, m.rooms[c].byId[id]), c, id);
  }

  lemma UnpluggedFate(m: Manager, m0: Manager, c: string, id: string)
    requires UnpluggedIn(m, m0, c, id) && Sound(m0.rooms[c], c)
    ensures Withdrawal(m, WithdrawVoter(m0, c, id), c, id)
  {
    WithdrawExactly(m0, c, id);
    FromUnplugged(m, m0, WithdrawVoter(m0, c, id), c, id);
  }

  lemma FromUnplugged(m: Manager, m0: Manager, r: Manager, c: string, id: string)
    requires UnpluggedIn(m, m0, c, id) && Fate(m0, r, c, id, RemainingVoters(m, c, id))
    ensures Withdrawal(m, r, c, id)
  {
    assert (m.votes - {c}) - {c} == m.votes - {c};
  }

  /* The handler in its parts. */
  lemma DisconnectUnfolds(m: Manager, id: string, c: string)
    requires FindRoom(m, id) == Some(c) && c in m.rooms && id in m.rooms[c].byId
    requires GetPlayer(m.rooms[c], id) == Some(m.rooms[c].byId[id])
    ensures Disconnect(m, id)
            == CloseIfAbandoned(WithdrawVoter(Unplug(m, c, m.rooms[c].byId[id]), c, id), c, id)
  {
  }

  // ---- Closing ----

  lemma {:induction false} NoneConnected(ps: seq<Player>)
    ensures Connected(ps) == 0 <==> !Any(ps, IsConnected())
  {
    if ps != [] {
      NoneConnected(ps[1..]);
      if !ps[0].connected {
        AnyInTail(ps, IsConnected());
      }
    }
  }

  /* Somebody other than the given player is connected. */
  ghost predicate OthersConnected(e: Entry, id: string) {
    exists x :: x in e.byId && x != id && e.byId[x].connected
  }

  lemma ConnectedByIndex(e: Entry, c: string)
    requires Sound(e, c)
    ensures Connected(e.room.players) > 0 <==> exists x :: x in e.byId && e.byId[x].connected
  {
    var ps := e.room.players;
    NoneConnected(ps);
    if i :| 0 <= i < |ps| && IsConnected()(ps[i]) {
      assert e.byId[ps[i].id] == ps[i];
    }
    if x :| x in e.byId && e.byId[x].connected {
      var i :| 0 <= i < |ps| && ps[i].id == x;
      assert e.byId[ps[i].id] == ps[i];
      assert IsConnected()(ps[i]);
    }
  }

  /* A room goes exactly when its host goes offline as the last one connected, outside a game. */
  ghost predicate Closes(e: Entry, id: string) {
    e.room.hostId == id && !OthersConnected(e, id) && !InPlay(e.room)
  }

  /* Without a vote in the room. */
  lemma CloseExactly(m: Manager, c: string, id: string)
    requires Inv(m) && c in m.rooms && id in m.rooms[c].byId && !m.rooms[c].byId[id].connected
    ensures Closes(m.rooms[c], id) ==> RoomGone(m, CloseIfAbandoned(m, c, id), c)
    ensures !Closes(m.rooms[c], id) ==> CloseIfAbandoned(m, c, id) == m
  {
    assert Sound(m.rooms[c], c) by {
      assert Good(m.rooms[c], c, m.restored);
    }
    ConnectedByIndex(m.rooms[c], c);
    DeleteIsGone(m, c);
  }

  /* A disconnect without a vote in the room: the member is offline, or the room goes with the last. */
  lemma DisconnectQuietly(m: Manager, id: string, c: string)
    requires Inv(m) && FindRoom(m, id) == Some(c) && c !in m.votes
    ensures c in m.rooms && id in m.rooms[c].byId
    ensures Closes(m.rooms[c], id) ==> c !in Disconnect(m, id).rooms
    ensures !Closes(m.rooms[c], id) ==>
              Rewritten(m, Disconnect(m, id), c, m.rooms[c].byId[id].(connected := false))
  {
    FoundRoom(m, id);
    ListedByIndex(m, c, id);
    UnplugKeeps(m, c, id);
    DisconnectUnfolds(m, id, c);
    var m0 := Unplug(m, c, m.rooms[c].byId[id]);
    assert WithdrawVoter(m0, c, id) == m0;
    QuietlyFrom(m, m0, c, id);
  }

  lemma QuietlyFrom(m: Manager, m0: Manager, c: string, id: string)
    requires Inv(m0) && c in m.rooms && id in m.rooms[c].byId && m.rooms[c].byId[id].id == id
    requires m0 == Unplug(m, c, m.rooms[c].byId[id])
    ensures Closes(m.rooms[c], id) ==> c !in CloseIfAbandoned(m0, c, id).rooms
    ensures !Closes(m.rooms[c], id) ==>
              Rewritten(m, CloseIfAbandoned(m0, c, id), c, m.rooms[c].byId[id].(connected := false))
  {
    SetRewrites(m, c, m.rooms[c].byId[id].(connected := false));
    SameCloses(m, m0, c, id);
    CloseExactly(m0, c, id);
  }

  lemma SameCloses(m: Manager, r: Manager, c: string, id: string)
    requires c in m.rooms && id in m.rooms[c].byId
    requires Rewritten(m, r, c, m.rooms[c].byId[id].(connected := false)) && m.rooms[c].byId[id].id == id
    ensures Closes(r.rooms[c], id) <==> Closes(m.rooms[c], id)
  {
    assert forall x :: x in m.rooms[c].byId && x != id ==> r.rooms[c].byId[x] == m.rooms[c].byId[x];
    if x :| x in m.rooms[c].byId && x != id && m.rooms[c].byId[x].connected {
      assert r.rooms[c].byId[x].connected;
    }
  }

  /* A disconnect with a vote in the room. The vote goes on, without the leaver's ballot, exactly when
     the leaver was not its target, two voters or more remain and the remaining votes do not suffice;
     its target goes exactly when they do. */
  lemma DisconnectVoteExactly(m: Manager, id: string, c: string)
    requires Inv(m) && FindRoom(m, id) == Some(c) && c in m.votes
    ensures c in m.rooms && id in m.rooms[c].byId
    ensures c in Disconnect(m, id).rooms ==> Withdrawal(m, Disconnect(m, id), c, id)
    ensures c !in Disconnect(m, id).rooms ==> c !in Disconnect(m, id).votes
    ensures c in Disconnect(m, id).rooms <==> !Closes(m.rooms[c], id)
  {
    FoundRoom(m, id);
    ListedByIndex(m, c, id);
    assert Sound(m.rooms[c], c) by {
      assert Good(m.rooms[c], c, m.restored);
    }
    DisconnectUnfolds(m, id, c);
    var m0 := Unplug(m, c, m.rooms[c].byId[id]);
    var m1 := WithdrawVoter(m0, c, id);
    WithdrawalIs(m, c, id);
    UnplugKeeps(m, c, id);
    WithdrawVoterKeeps(m0, c, id);
    WithdrawalCloses(m, m1, c, id);
  }

  lemma WithdrawalCloses(m: Manager, m1: Manager, c: string, id: string)
    requires Inv(m) && Inv(m1) && Withdrawal(m, m1, c, id)
    ensures Closes(m.rooms[c], id) ==> RoomGone(m1, CloseIfAbandoned(m1, c, id), c)
    ensures !Closes(m.rooms[c], id) ==> CloseIfAbandoned(m1, c, id) == m1
  {
    if NowPasses(m, c, id) {
      assert Sound(m.rooms[c], c) && Sound(m1.rooms[c], c) by {
        assert Good(m.rooms[c], c, m.restored) && Good(m1.rooms[c], c, m1.restored);
      }
      VoterStays(m, m1, c, id);
    } else {
      CloseExactly(m1, c, id);
      NotKickedCloses(m, m1, c, id);
    }
  }

  /* A vote that passes leaves a connected voter behind. */
  lemma VoterStays(m: Manager, m1: Manager, c: string, id: string)
    requires Withdrawal(m, m1, c, id) && NowPasses(m, c, id) && Sound(m.rooms[c], c) && Sound(m1.rooms[c], c)
    ensures Connected(m1.rooms[c].room.players) > 0 && OthersConnected(m.rooms[c], id)
  {
    var x :| x in RemainingVoters(m, c, id);
    VoterById(m.rooms[c], c, m.votes[c].target, x);
    assert x in m1.rooms[c].byId && m1.rooms[c].byId[x].connected;
    ConnectedByIndex(m1.rooms[c], c);
  }

  lemma NotKickedCloses(m: Manager, m1: Manager, c: string, id: string)
    requires Withdrawal(m, m1, c, id) && !NowPasses(m, c, id)
    ensures Closes(m1.rooms[c], id) <==> Closes(m.rooms[c], id)
  {
    assert forall x :: x in m.rooms[c].byId && x != id ==> m1.rooms[c].byId[x] == m.rooms[c].byId[x];
    if x :| x in m.rooms[c].byId && x != id && m.rooms[c].byId[x].connected {
      assert m1.rooms[c].byId[x].connected;
    }
  }
}
