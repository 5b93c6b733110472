/** Vote-kicks over every run of the room registry (backend/room_manager.py:1369-1418, 2718-2898,
    2984-2990): who holds votes, whose ballots they are, and what majority a kick had. */
module VoteSafety {
  import opened Models
  import opened RoomManager
  import opened RoomSafety

  ghost predicate MayVote(e: Entry, target: string, id: string) {
    id in e.byId && e.byId[id].connected && id != target
  }

  /* Apart from strays only connected players other than the target hold votes. */
  ghost predicate VoteOk(e: Entry, v: Vote, strays: set<string>) {
    forall id :: id in v.votes ==> id in strays || MayVote(e, v.target, id)
  }

  ghost predicate VotesOk(m: Manager, strays: set<string>) {
    forall c :: c in m.votes ==> c in m.rooms && VoteOk(m.rooms[c], m.votes[c], strays)
  }

  lemma VoterById(e: Entry, c: string, target: string, id: string)
    requires Sound(e, c)
    ensures MayVote(e, target, id) <==> id in VoterIds(e.room.players, target)
  {
    var ps := e.room.players;
    if id in e.byId {
      var i :| 0 <= i < |ps| && ps[i].id == id;
      assert e.byId[ps[i].id] == ps[i];
      if MayVote(e, target, id) {
        assert IsVoter(ps[i], target);
      }
    }
    if id in VoterIds(ps, target) {
      var i :| 0 <= i < |ps| && IsVoter(ps[i], target) && ps[i].id == id;
      assert ps[i].id in Ids(ps);
    }
  }

  lemma {:induction false} VotersCounted(ps: seq<Player>, target: string)
    requires UniqueIds(ps)
    ensures |VoterIds(ps, target)| == Voters(ps, target)
  {
    if ps != [] {
      var tail := ps[1..];
      VotersCounted(tail, target);
      assert forall i :: 0 <= i < |tail| ==> tail[i] == ps[i + 1];
      assert ps[0].id !in VoterIds(tail, target);
      assert VoterIds(ps, target) == VoterIds(tail, target) + (if IsVoter(ps[0], target) then {ps[0].id} else {}) by {
        forall x | x in VoterIds(ps, target)
          ensures x in VoterIds(tail, target) || (IsVoter(ps[0], target) && x == ps[0].id)
        {
          var i :| 0 <= i < |ps| && IsVoter(ps[i], target) && ps[i].id == x;
          if i > 0 {
            assert tail[i - 1] == ps[i];
          }
        }
      }
    }
  }

  // ---- Majorities ----

  /* The connected players other than the target of a vote. */
  function Electorate(e: Entry, v: Vote): set<string> { VoterIds(e.room.players, v.target) }

  /* A strict majority of them. */
  ghost predicate Majority(e: Entry, v: Vote) {
    v.votes <= Electorate(e, v) && 2 * |v.votes| > |Electorate(e, v)|
  }

  /* Votes of nobody who may vote. */
  function Strays(e: Entry, v: Vote): set<string> { v.votes - Electorate(e, v) }

  /* The votes of those who may vote are a strict majority by themselves. */
  ghost predicate Backed(e: Entry, v: Vote) {
    Majority(e, v.(votes := v.votes * Electorate(e, v)))
  }

  /* A count passes exactly when the votes are more than half as many as the players who may vote. */
  lemma CountPassesExactly(m: Manager, c: string)
    requires c in m.rooms && c in m.votes && Sound(m.rooms[c], c)
    ensures Count(m, c) != m <==> 2 * |m.votes[c].votes| > |Electorate(m.rooms[c], m.votes[c])|
  {
    VotersCounted(m.rooms[c].room.players, m.votes[c].target);
  }

  /* A vote is backed exactly when it would pass without its strays; without strays that is a
     majority. */
  lemma BackedExactly(e: Entry, v: Vote)
    ensures Backed(e, v) <==> 2 * (|v.votes| - |Strays(e, v)|) > |Electorate(e, v)|
    ensures Strays(e, v) == {} ==> (Backed(e, v) <==> Majority(e, v))
  {
    var present := v.votes * Electorate(e, v);
    assert present + Strays(e, v) == v.votes && present !! Strays(e, v);
    assert |v.votes| == |present| + |Strays(e, v)|;
    if Strays(e, v) == {} {
      assert present == v.votes;
    }
  }

  lemma StraysWithin(e: Entry, c: string, v: Vote, strays: set<string>)
    requires Sound(e, c) && VoteOk(e, v, strays)
    ensures Strays(e, v) <= strays
  {
    forall id | id in Strays(e, v)
      ensures id in strays
    {
      VoterById(e, c, v.target, id);
    }
  }

  // ---- Keeping the vote sets ----

  /* A count leaves the votes of other rooms alone and either keeps or ends its own. */
  lemma CountVotesOk(m: Manager, c: string, strays: set<string>)
    requires c in m.rooms && c in m.votes && VotesOk(m, strays)
    ensures VotesOk(Count(m, c), strays)
  {
    var r := Count(m, c);
    assert forall d :: d in r.votes ==> d in m.votes && r.votes[d] == m.votes[d];
    if r != m {
      assert forall d :: d in m.rooms && d != c ==> d in r.rooms && r.rooms[d] == m.rooms[d];
    }
  }

  /* Either nothing happens or the room gets a vote with the initiator's ballot. */
  lemma StartVoteIs(m: Manager, initiator: string, target: string, cooling: bool)
    requires Inv(m) && StartVote(m, initiator, target, cooling) != m
    ensures FindRoom(m, initiator).Some? && initiator != target
    ensures var c := FindRoom(m, initiator).value;
            && c in m.rooms && c !in m.votes
            && StartVote(m, initiator, target, cooling) == m.(votes := m.votes[c := Vote(target, {initiator})])
  {
    var c := FindRoom(m, initiator).value;
    NoImmediatePass(m, c, target);
  }

  lemma NewVoteOk(m: Manager, c: string, target: string, initiator: string, strays: set<string>)
    requires VotesOk(m, strays) && c in m.rooms
    ensures VotesOk(m.(votes := m.votes[c := Vote(target, {initiator})]), strays)
            <==> initiator in strays || MayVote(m.rooms[c], target, initiator)
  {
    var r := m.(votes := m.votes[c := Vote(target, {initiator})]);
    assert initiator in r.votes[c].votes;
  }

  /* A vote just started is in order exactly when its initiator may vote or counts as a stray. */
  lemma StartVoteOk(m: Manager, initiator: string, target: string, cooling: bool, strays: set<string>)
    requires Inv(m) && VotesOk(m, strays) && StartVote(m, initiator, target, cooling) != m
    ensures FindRoom(m, initiator).Some? && FindRoom(m, initiator).value in m.rooms && initiator != target
    ensures VotesOk(StartVote(m, initiator, target, cooling), strays)
            <==> initiator in strays || MayVote(m.rooms[FindRoom(m, initiator).value], target, initiator)
  {
    StartVoteIs(m, initiator, target, cooling);
    NewVoteOk(m, FindRoom(m, initiator).value, target, initiator, strays);
  }

  function Ballot(v: Vote, voter: string, yes: bool): Vote {
    v.(votes := if yes then v.votes + {voter} else v.votes - {voter})
  }

  function Withdrawn(v: Vote, id: string): Vote { v.(votes := v.votes - {id}) }

  lemma FoundPlayer(e: Entry, c: string, id: string)
    requires Sound(e, c) && GetPlayer(e, id).Some?
    ensures id in e.byId && GetPlayer(e, id) == Some(e.byId[id]) && e.byId[id].id == id
  {
    LookupIsScan(e, id);
  }

  lemma CastBallotOk(m: Manager, c: string, v: Vote, strays: set<string>)
    requires VotesOk(m, strays) && c in m.votes && c in m.rooms && VoteOk(m.rooms[c], v, strays)
    ensures VotesOk(Count(m.(votes := m.votes[c := v]), c), strays)
  {
    CountVotesOk(m.(votes := m.votes[c := v]), c, strays);
  }

  lemma CastVoteOk(m: Manager, voter: string, yes: bool, strays: set<string>)
    requires Inv(m) && VotesOk(m, strays)
    ensures VotesOk(CastVote(m, voter, yes), strays)
  {
    if CastVote(m, voter, yes) != m {
      CastIs(m, voter, yes);
      var c := FindRoom(m, voter).value;
      CastBallotOk(m, c, Ballot(m.votes[c], voter, yes), strays);
    }
  }

  /* Every vote but perhaps one player's in one room is in place. */
  ghost predicate VotesOkBut(m: Manager, c: string, id: string, strays: set<string>) {
    forall d :: d in m.votes ==>
      d in m.rooms && VoteOk(m.rooms[d], if d == c then Withdrawn(m.votes[d], id) else m.votes[d], strays)
  }

  /* Rewriting a player leaves the other players' right to vote alone. */
  lemma SetVoteOk(e: Entry, c: string, q: Player, v: Vote, strays: set<string>)
    requires Sound(e, c) && q.id in e.byId && VoteOk(e, v, strays)
    ensures VoteOk(SetPlayer(e, q), Withdrawn(v, q.id), strays)
    ensures q.connected ==> VoteOk(SetPlayer(e, q), v, strays)
  {
  }

  lemma PutVotesBut(m: Manager, c: string, e: Entry, id: string, strays: set<string>)
    requires VotesOk(m, strays) && (c in m.votes ==> VoteOk(e, Withdrawn(m.votes[c], id), strays))
    ensures VotesOkBut(PutRoom(m, c, e), c, id, strays)
  {
  }

  lemma PutVotes(m: Manager, c: string, e: Entry, strays: set<string>)
    requires VotesOk(m, strays) && (c in m.votes ==> VoteOk(e, m.votes[c], strays))
    ensures VotesOk(PutRoom(m, c, e), strays)
  {
  }

  lemma UnplugVotes(m: Manager, c: string, id: string, strays: set<string>)
    requires VotesOk(m, strays) && c in m.rooms && Sound(m.rooms[c], c) && id in m.rooms[c].byId
    ensures VotesOkBut(Unplug(m, c, m.rooms[c].byId[id]), c, id, strays)
  {
    FoundPlayer(m.rooms[c], c, id);
    var q := m.rooms[c].byId[id].(connected := false);
    if c in m.votes {
      SetVoteOk(m.rooms[c], c, q, m.votes[c], strays);
    }
    PutVotesBut(m, c, SetPlayer(m.rooms[c], q), id, strays);
  }

  lemma WithdrawVotesOk(m: Manager, c: string, id: string, strays: set<string>)
    requires c in m.rooms && VotesOkBut(m, c, id, strays)
    ensures VotesOk(WithdrawVoter(m, c, id), strays)
  {
    if c in m.votes && m.votes[c].target != id && Voters(m.rooms[c].room.players, m.votes[c].target) >= 2 {
      var m1 := m.(votes := m.votes[c := Withdrawn(m.votes[c], id)]);
      assert VotesOk(m1, strays);
      CountVotesOk(m1, c, strays);
    }
  }

  lemma DeleteVotesOk(m: Manager, c: string, strays: set<string>)
    requires VotesOk(m, strays)
    ensures VotesOk(DeleteRoom(m, c), strays)
  {
  }

  lemma DisconnectOk(m: Manager, id: string, strays: set<string>)
    requires Inv(m) && VotesOk(m, strays)
    ensures VotesOk(Disconnect(m, id), strays)
  {
    if Disconnect(m, id) != m {
      DisconnectIs(m, id);
      var c := FindRoom(m, id).value;
      var m0 := Unplug(m, c, m.rooms[c].byId[id]);
      UnplugVotes(m, c, id, strays);
      WithdrawVotesOk(m0, c, id, strays);
      DeleteVotesOk(WithdrawVoter(m0, c, id), c, strays);
    }
  }

  lemma ReconnectOk(m: Manager, c: string, id: string, strays: set<string>)
    requires Inv(m) && VotesOk(m, strays)
    ensures VotesOk(Reconnect(m, c, id), strays)
  {
    if c in m.rooms && GetPlayer(m.rooms[c], id).Some? {
      assert Good(m.rooms[c], c, m.restored);
      FoundPlayer(m.rooms[c], c, id);
      var q := m.rooms[c].byId[id].(connected := true, disconnectTime := None);
      if c in m.votes {
        SetVoteOk(m.rooms[c], c, q, m.votes[c], strays);
      }
      PutVotes(m, c, SetPlayer(m.rooms[c], q), strays);
    }
  }

  lemma AcceptRoleOk(m: Manager, c: string, id: string, strays: set<string>)
    requires Inv(m) && VotesOk(m, strays)
    ensures VotesOk(AcceptRole(m, c, id), strays)
  {
    if AcceptRole(m, c, id) != m {
      assert Good(m.rooms[c], c, m.restored);
      FoundPlayer(m.rooms[c], c, id);
      var q := m.rooms[c].byId[id].(spectator := false, score := 0, hasGuessed := false);
      if c in m.votes {
        SetVoteOk(m.rooms[c], c, q, m.votes[c], strays);
      }
      PutVotes(m, c, SetPlayer(m.rooms[c], q), strays);
    }
  }

  lemma AddVoteOk(e: Entry, p: Player, v: Vote, strays: set<string>)
    requires VoteOk(e, v, strays) && p.id !in e.byId
    ensures VoteOk(AddPlayer(e, p), v, strays)
  {
  }

  lemma JoinOk(m: Manager, c: string, p: Player, approved: bool, strays: set<string>)
    requires Inv(m) && VotesOk(m, strays) && p.id !in m.playerToRoom
    ensures VotesOk(Join(m, c, p, approved), strays)
  {
    if c in m.rooms {
      Unlisted(m, c, p.id);
      if c in m.votes {
        AddVoteOk(m.rooms[c], p, m.votes[c], strays);
      }
      var m1 := m.(playerToRoom := m.playerToRoom[p.id := c]);
      PutVotes(m1, c, AddPlayer(m.rooms[c], p), strays);
    }
  }

  /* Steps that leave a room's index alone. */
  lemma SameIndexOk(m: Manager, c: string, e: Entry, strays: set<string>)
    requires VotesOk(m, strays) && c in m.rooms && e.byId == m.rooms[c].byId
    ensures VotesOk(PutRoom(m, c, e), strays)
  {
    if c in m.votes {
      assert forall id :: MayVote(e, m.votes[c].target, id) <==> MayVote(m.rooms[c], m.votes[c].target, id);
    }
    PutVotes(m, c, e, strays);
  }

  lemma TransferHostOk(m: Manager, host: string, target: string, strays: set<string>)
    requires VotesOk(m, strays)
    ensures VotesOk(TransferHost(m, host, target), strays)
  {
    if TransferHost(m, host, target) != m {
      var c := FindRoom(m, host).value;
      var e := m.rooms[c];
      SameIndexOk(m, c, e.(room := e.room.(hostId := target)), strays);
    }
  }

  lemma ReassignHostOk(m: Manager, c: string, oldHost: string, strays: set<string>)
    requires VotesOk(m, strays)
    ensures VotesOk(ReassignHost(m, c, oldHost), strays)
  {
    if ReassignHost(m, c, oldHost) != m {
      var e := m.rooms[c];
      match NextHost(e.room.players)
      case Some(next) => SameIndexOk(m, c, e.(room := e.room.(hostId := next.id)), strays);
      case None => DeleteVotesOk(m, c, strays);
    }
  }

  // ---- Departures: the vote set is not touched ----

  ghost predicate HoldsBallot(m: Manager, id: string) {
    exists c :: c in m.votes && id in m.votes[c].votes
  }

  ghost function Left(m: Manager, id: string): set<string> { if HoldsBallot(m, id) then {id} else {} }

  lemma MoreStrays(m: Manager, strays: set<string>, more: set<string>)
    requires VotesOk(m, strays)
    ensures VotesOk(m, strays + more)
  {
    forall c | c in m.votes
      ensures VoteOk(m.rooms[c], m.votes[c], strays + more)
    {
      assert VoteOk(m.rooms[c], m.votes[c], strays);
    }
  }

  lemma DepartedVoteOk(m: Manager, c: string, id: string, e: Entry, strays: set<string>)
    requires VotesOk(m, strays) && c in m.votes && e.byId == m.rooms[c].byId - {id}
    ensures VoteOk(e, m.votes[c], strays + Left(m, id))
  {
    forall x | x in m.votes[c].votes
      ensures x in strays + Left(m, id) || MayVote(e, m.votes[c].target, x)
    {
      if x == id {
        assert HoldsBallot(m, id);
      }
    }
  }

  lemma DepartOk(m: Manager, c: string, id: string, host: string, strays: set<string>)
    requires VotesOk(m, strays) && c in m.rooms
    ensures VotesOk(Depart(m, c, id, host), strays + Left(m, id))
  {
    var e := RemovePlayer(m.rooms[c], id);
    if c in m.votes {
      DepartedVoteOk(m, c, id, e.(room := e.room.(hostId := host)), strays);
    }
    MoreStrays(m, strays, Left(m, id));
  }

  lemma LeaveOk(m: Manager, id: string, strays: set<string>)
    requires VotesOk(m, strays)
    ensures VotesOk(Leave(m, id), strays + Left(m, id))
  {
    MoreStrays(m, strays, Left(m, id));
    if Leave(m, id) != m {
      var c := FindRoom(m, id).value;
      var r := m.rooms[c].room;
      var rest := Without(r.players, id);
      DepartOk(m, c, id, r.hostId, strays);
      DeleteVotesOk(Depart(m, c, id, r.hostId), c, strays + Left(m, id));
      if rest != [] {
        DepartOk(m, c, id, if r.hostId == id then rest[0].id else r.hostId, strays);
      }
    }
  }

  lemma RemoveOk(m: Manager, id: string, strays: set<string>)
    requires VotesOk(m, strays)
    ensures VotesOk(Remove(m, id), strays + Left(m, id))
  {
    MoreStrays(m, strays, Left(m, id));
    if FindRoom(m, id).Some? {
      var c := FindRoom(m, id).value;
      var r := m.rooms[c].room;
      var rest := Without(r.players, id);
      DepartOk(m, c, id, r.hostId, strays);
      DeleteVotesOk(Depart(m, c, id, r.hostId), c, strays + Left(m, id));
      if rest != [] {
        var next := NextHost(rest);
        DepartOk(m, c, id, if next.Some? then next.value.id else rest[0].id, strays);
      }
    }
  }

  lemma ExpireOk(m: Manager, id: string, strays: set<string>)
    requires VotesOk(m, strays)
    ensures VotesOk(Expire(m, id), strays + Left(m, id))
  {
    MoreStrays(m, strays, Left(m, id));
    if FindRoom(m, id).Some? {
      var c := FindRoom(m, id).value;
      var r := m.rooms[c].room;
      var next := NextHost(Without(r.players, id));
      DepartOk(m, c, id, r.hostId, strays);
      DeleteVotesOk(Depart(m, c, id, r.hostId), c, strays + Left(m, id));
      if next.Some? {
        DepartOk(m, c, id, next.value.id, strays);
      }
    }
  }

  lemma HostKickOk(m: Manager, host: string, target: string, strays: set<string>)
    requires VotesOk(m, strays)
    ensures VotesOk(HostKick(m, host, target), strays + Left(m, target))
  {
    MoreStrays(m, strays, Left(m, target));
    if HostKick(m, host, target) != m {
      var c := FindRoom(m, host).value;
      DepartOk(m, c, target, m.rooms[c].room.hostId, strays);
    }
  }

  // ---- Runs ----

  /* The player is connected in the room the search finds. */
  ghost predicate Online(m: Manager, id: string) {
    FindRoom(m, id).Some? ==>
      var e := m.rooms[FindRoom(m, id).value]; id in e.byId && e.byId[id].connected
  }

  predicate Departure(e: Event) { e.ELeave? || e.ERemove? || e.EExpire? || e.EHostKick? }

  function Departing(e: Event): string
    requires Departure(e)
  {
    if e.EHostKick? then e.target else e.id
  }

  /* Whose vote an event makes a stray: one who goes after voting, or starts a vote while offline. */
  ghost function Straying(m: Manager, e: Event): set<string> {
    if Departure(e) then Left(m, Departing(e))
    else if e.EStartVote? && !Online(m, e.id) then {e.id}
    else {}
  }

  lemma DepartureOk(m: Manager, e: Event, strays: set<string>)
    requires VotesOk(m, strays) && Departure(e)
    ensures VotesOk(Apply(m, e), strays + Straying(m, e))
  {
    match e
    case ELeave(id) => LeaveOk(m, id, strays);
    case ERemove(id) => RemoveOk(m, id, strays);
    case EExpire(id) => ExpireOk(m, id, strays);
    case EHostKick(host, target) => HostKickOk(m, host, target, strays);
  }

  predicate Balloting(e: Event) { e.EStartVote? || e.ECastVote? || e.EVoteTimeout? || e.EDisconnect? }

  lemma VoteTimeoutOk(m: Manager, c: string, target: string, strays: set<string>)
    requires VotesOk(m, strays)
    ensures VotesOk(VoteTimeout(m, c, target), strays)
  {
  }

  lemma StartingOk(m: Manager, id: string, target: string, cooling: bool, strays: set<string>)
    requires Inv(m) && VotesOk(m, strays) && (Online(m, id) || id in strays)
    ensures VotesOk(StartVote(m, id, target, cooling), strays)
  {
    var r := StartVote(m, id, target, cooling);
    if r != m {
      StartVoteOk(m, id, target, cooling, strays);
      assert id in strays || MayVote(m.rooms[FindRoom(m, id).value], target, id);
    }
  }

  lemma BallotingOk(m: Manager, e: Event, strays: set<string>)
    requires Inv(m) && VotesOk(m, strays) && Balloting(e) && (e.EStartVote? ==> Online(m, e.id) || e.id in strays)
    ensures VotesOk(Apply(m, e), strays)
  {
    match e
    case EStartVote(id, target, cooling) => StartingOk(m, id, target, cooling, strays);
    case ECastVote(id, yes) => CastVoteOk(m, id, yes, strays);
    case EVoteTimeout(c, target) => VoteTimeoutOk(m, c, target, strays);
    case EDisconnect(id) => DisconnectOk(m, id, strays);
  }

  lemma OtherOk(m: Manager, e: Event, strays: set<string>)
    requires Inv(m) && VotesOk(m, strays) && Legal(m, e) && !Departure(e) && !Balloting(e)
    ensures VotesOk(Apply(m, e), strays)
  {
    match e
    case ECreate(code, host, config) => PutVotes(m, code, NewRoom(code, host, config), strays);
    case EJoin(c, p, approved) => JoinOk(m, c, p, approved, strays);
    case EAcceptRole(c, id) => AcceptRoleOk(m, c, id, strays);
    case ETransferHost(host, target) => TransferHostOk(m, host, target, strays);
    case EReassignHost(c, h) => ReassignHostOk(m, c, h, strays);
    case EReconnect(c, id) => ReconnectOk(m, c, id, strays);
    case EPlay(c, state) =>
      if c in m.rooms {
        SameIndexOk(m, c, m.rooms[c].(room := m.rooms[c].room.(state := state)), strays);
      }
    case ESettings(c, config) =>
      if c in m.rooms {
        SameIndexOk(m, c, m.rooms[c].(room := m.rooms[c].room.(config := config)), strays);
      }
    case ERestore(c, entry) => PutVotes(m, c, entry, strays);
  }

  lemma StepOk(m: Manager, e: Event, strays: set<string>)
    requires Inv(m) && VotesOk(m, strays) && Legal(m, e)
    ensures Inv(Apply(m, e)) && VotesOk(Apply(m, e), strays + Straying(m, e))
  {
    ApplyKeeps(m, e);
    if Departure(e) {
      DepartureOk(m, e, strays);
    } else if Balloting(e) {
      MoreStrays(m, strays, Straying(m, e));
      BallotingOk(m, e, strays + Straying(m, e));
    } else {
      OtherOk(m, e, strays);
      assert strays + {} == strays;
    }
  }

  /* All those whose votes became strays in the course of a run. */
  ghost function Strayed(m: Manager, es: seq<Event>): set<string> {
    if es == [] then {}
    else Strayed(m, es[..|es| - 1]) + Straying(Run(m, es[..|es| - 1]), es[|es| - 1])
  }

  /* Over every run, whatever its events, only connected players other than the target hold votes,
     apart from those who left after voting or started the vote while offline. */
  lemma {:induction false} VoteRunOk(m: Manager, es: seq<Event>, strays: set<string>)
    requires Inv(m) && VotesOk(m, strays) && LegalRun(m, es)
    ensures Inv(Run(m, es)) && VotesOk(Run(m, es), strays + Strayed(m, es))
    decreases |es|
  {
    if es == [] {
      assert strays + {} == strays;
    } else {
      var n := |es| - 1;
      LegalBefore(m, es, n);
      VoteRunOk(m, es[..n], strays);
      StepOk(Run(m, es[..n]), es[n], strays + Strayed(m, es[..n]));
      assert strays + Strayed(m, es[..n]) + Straying(Run(m, es[..n]), es[n]) == strays + Strayed(m, es);
    }
  }

  /* Nobody leaves, expires or is removed while holding a vote, and nobody starts one while offline. */
  ghost predicate OrderlyEvent(m: Manager, e: Event) {
    (Departure(e) ==> !HoldsBallot(m, Departing(e))) && (e.EStartVote? ==> Online(m, e.id))
  }

  ghost predicate Orderly(m: Manager, es: seq<Event>) {
    forall k :: 0 <= k < |es| ==> OrderlyEvent(Run(m, es[..k]), es[k])
  }

  lemma {:induction false} OrderlyHasNoStrays(m: Manager, es: seq<Event>)
    requires Orderly(m, es)
    ensures Strayed(m, es) == {}
    decreases |es|
  {
    if es != [] {
      var n := |es| - 1;
      OrderlyBefore(m, es, n);
      OrderlyHasNoStrays(m, es[..n]);
      assert OrderlyEvent(Run(m, es[..n]), es[n]);
    }
  }

  lemma OrderlyBefore(m: Manager, es: seq<Event>, n: nat)
    requires Orderly(m, es) && n <= |es|
    ensures Orderly(m, es[..n])
  {
    forall k | 0 <= k < n
      ensures OrderlyEvent(Run(m, es[..n][..k]), es[..n][k])
    {
      assert es[..n][..k] == es[..k];
    }
  }

  // ---- Who gets kicked ----

  /* A step takes a player out of a room that stays. */
  ghost predicate Removed(m: Manager, r: Manager, c: string, id: string) {
    c in m.rooms && c in r.rooms && id in m.rooms[c].byId && id !in r.rooms[c].byId
  }

  /* The room and the votes as a cast vote or a disconnect has them counted. */
  function CountedRoom(m: Manager, e: Event, c: string): Entry
    requires c in m.rooms
  {
    if e.EDisconnect? && e.id in m.rooms[c].byId
    then SetPlayer(m.rooms[c], m.rooms[c].byId[e.id].(connected := false))
    else m.rooms[c]
  }

  function CountedVote(m: Manager, e: Event, c: string): Vote
    requires c in m.votes
  {
    if e.ECastVote? then Ballot(m.votes[c], e.id, e.yes)
    else if e.EDisconnect? then Withdrawn(m.votes[c], e.id)
    else m.votes[c]
  }

  /* The player taken out is the target of the room's vote, the event is a vote in that room or a
     disconnect from it, and the votes it has counted pass. */
  ghost predicate VotedOut(m: Manager, e: Event, c: string, id: string) {
    && c in m.rooms && c in m.votes && id == m.votes[c].target
    && (e.ECastVote? || e.EDisconnect?) && FindRoom(m, e.id) == Some(c) && e.id != id
    && e.id in m.rooms[c].byId && (e.ECastVote? ==> m.rooms[c].byId[e.id].connected)
    && 2 * |CountedVote(m, e, c).votes| > |Electorate(CountedRoom(m, e, c), CountedVote(m, e, c))|
  }

  /* A count removes at most the target, and only if it passes. */
  lemma CountRemoves(m: Manager, d: string, c: string, id: string)
    requires d in m.rooms && d in m.votes && Sound(m.rooms[d], d)
    requires Removed(m, Count(m, d), c, id)
    ensures c == d && id == m.votes[d].target
    ensures 2 * |m.votes[d].votes| > |Electorate(m.rooms[d], m.votes[d])|
  {
    CountPassesExactly(m, d);
  }

  ghost predicate MayCast(m: Manager, c: string, voter: string) {
    c in m.rooms && c in m.votes && Sound(m.rooms[c], c) && MayVote(m.rooms[c], m.votes[c].target, voter)
  }

  /* A vote that changes anything is a connected member's, and is counted. */
  lemma CastIs(m: Manager, voter: string, yes: bool)
    requires Inv(m) && CastVote(m, voter, yes) != m
    ensures FindRoom(m, voter).Some?
    ensures var c := FindRoom(m, voter).value;
            && MayCast(m, c, voter)
            && CastVote(m, voter, yes) == Count(m.(votes := m.votes[c := Ballot(m.votes[c], voter, yes)]), c)
  {
    var c := FindRoom(m, voter).value;
    assert Good(m.rooms[c], c, m.restored);
    FoundPlayer(m.rooms[c], c, voter);
  }

  lemma BallotRemoves(m: Manager, d: string, v: Vote, c: string, id: string)
    requires d in m.rooms && d in m.votes && Sound(m.rooms[d], d)
    requires Removed(m, Count(m.(votes := m.votes[d := v]), d), c, id)
    ensures c == d && id == v.target && 2 * |v.votes| > |Electorate(m.rooms[d], v)|
  {
    CountRemoves(m.(votes := m.votes[d := v]), d, c, id);
  }

  lemma CountedCastRemoves(m: Manager, d: string, voter: string, yes: bool, c: string, id: string)
    requires FindRoom(m, voter) == Some(d) && MayCast(m, d, voter)
    requires Removed(m, Count(m.(votes := m.votes[d := Ballot(m.votes[d], voter, yes)]), d), c, id)
    ensures VotedOut(m, ECastVote(voter, yes), c, id)
  {
    BallotRemoves(m, d, Ballot(m.votes[d], voter, yes), c, id);
  }

  lemma CastRemoves(m: Manager, voter: string, yes: bool, c: string, id: string)
    requires Inv(m) && Removed(m, CastVote(m, voter, yes), c, id)
    ensures VotedOut(m, ECastVote(voter, yes), c, id)
  {
    CastIs(m, voter, yes);
    CountedCastRemoves(m, FindRoom(m, voter).value, voter, yes, c, id);
  }

  lemma WithdrawRemoves(m: Manager, d: string, voter: string, c: string, id: string)
    requires d in m.rooms && Sound(m.rooms[d], d) && Removed(m, WithdrawVoter(m, d, voter), c, id)
    ensures c == d && c in m.votes && id == m.votes[c].target && id != voter
    ensures var v := Withdrawn(m.votes[c], voter); 2 * |v.votes| > |Electorate(m.rooms[c], v)|
  {
    CountRemoves(m.(votes := m.votes[d := Withdrawn(m.votes[d], voter)]), d, c, id);
  }

  lemma CloseRemovesNobody(m: Manager, r: Manager, d: string, voter: string, c: string, id: string)
    requires Removed(m, CloseIfAbandoned(r, d, voter), c, id)
    ensures Removed(m, r, c, id)
  {
  }

  lemma UnplugRemovesNobody(m: Manager, d: string, voter: string, r: Manager, c: string, id: string)
    requires d in m.rooms && voter in m.rooms[d].byId && m.rooms[d].byId[voter].id == voter
    requires Removed(m, r, c, id)
    ensures Removed(Unplug(m, d, m.rooms[d].byId[voter]), r, c, id)
  {
  }

  /* A disconnect that changes anything is a member's. */
  lemma DisconnectIs(m: Manager, voter: string)
    requires Inv(m) && Disconnect(m, voter) != m
    ensures FindRoom(m, voter).Some?
    ensures var c := FindRoom(m, voter).value;
            && c in m.rooms && Sound(m.rooms[c], c) && voter in m.rooms[c].byId && m.rooms[c].byId[voter].id == voter
            && Disconnect(m, voter)
               == CloseIfAbandoned(WithdrawVoter(Unplug(m, c, m.rooms[c].byId[voter]), c, voter), c, voter)
  {
    var c := FindRoom(m, voter).value;
    assert Good(m.rooms[c], c, m.restored);
    FoundPlayer(m.rooms[c], c, voter);
  }

  lemma UnpluggedRemoves(m: Manager, d: string, voter: string, c: string, id: string)
    requires d in m.rooms && Sound(m.rooms[d], d) && voter in m.rooms[d].byId && m.rooms[d].byId[voter].id == voter
    requires Removed(m, WithdrawVoter(Unplug(m, d, m.rooms[d].byId[voter]), d, voter), c, id)
    ensures c == d && c in m.votes && id == m.votes[c].target && id != voter
    ensures var e, v := CountedRoom(m, EDisconnect(voter), c), Withdrawn(m.votes[c], voter);
            2 * |v.votes| > |Electorate(e, v)|
  {
    var m0 := Unplug(m, d, m.rooms[d].byId[voter]);
    UnplugRemovesNobody(m, d, voter, WithdrawVoter(m0, d, voter), c, id);
    SetSound(m.rooms[d], d, m.rooms[d].byId[voter].(connected := false));
    WithdrawRemoves(m0, d, voter, c, id);
  }

  lemma DisconnectRemoves(m: Manager, voter: string, c: string, id: string)
    requires Inv(m) && Removed(m, Disconnect(m, voter), c, id)
    ensures VotedOut(m, EDisconnect(voter), c, id)
  {
    DisconnectIs(m, voter);
    var d := FindRoom(m, voter).value;
    CloseRemovesNobody(m, WithdrawVoter(Unplug(m, d, m.rooms[d].byId[voter]), d, voter), d, voter, c, id);
    UnpluggedRemoves(m, d, voter, c, id);
  }

  lemma PutRemovesNobody(m: Manager, d: string, e: Entry, c: string, id: string)
    requires d in m.rooms ==> m.rooms[d].byId.Keys <= e.byId.Keys
    ensures !Removed(m, PutRoom(m, d, e), c, id)
  {
  }

  lemma JoinRemovesNobody(m: Manager, d: string, p: Player, approved: bool, c: string, id: string)
    ensures !Removed(m, Join(m, d, p, approved), c, id)
  {
    if d in m.rooms {
      PutRemovesNobody(m, d, AddPlayer(m.rooms[d], p), c, id);
    }
  }

  lemma AcceptRemovesNobody(m: Manager, d: string, x: string, c: string, id: string)
    ensures !Removed(m, AcceptRole(m, d, x), c, id)
  {
    if AcceptRole(m, d, x) != m {
      var p := GetPlayer(m.rooms[d], x).value;
      PutRemovesNobody(m, d, SetPlayer(m.rooms[d], p.(spectator := false, score := 0, hasGuessed := false)), c, id);
    }
  }

  lemma ReconnectRemovesNobody(m: Manager, d: string, x: string, c: string, id: string)
    ensures !Removed(m, Reconnect(m, d, x), c, id)
  {
    if d in m.rooms && GetPlayer(m.rooms[d], x).Some? {
      var p := GetPlayer(m.rooms[d], x).value;
      PutRemovesNobody(m, d, SetPlayer(m.rooms[d], p.(connected := true, disconnectTime := None)), c, id);
    }
  }

  lemma RosterRemovesNobody(m: Manager, e: Event, c: string, id: string)
    requires e.EJoin? || e.EAcceptRole? || e.EReconnect?
    ensures !Removed(m, Apply(m, e), c, id)
  {
    match e
    case EJoin(d, p, approved) => JoinRemovesNobody(m, d, p, approved, c, id);
    case EAcceptRole(d, x) => AcceptRemovesNobody(m, d, x, c, id);
    case EReconnect(d, x) => ReconnectRemovesNobody(m, d, x, c, id);
  }

  lemma HostRemovesNobody(m: Manager, e: Event, c: string, id: string)
    requires e.ETransferHost? || e.EReassignHost?
    ensures !Removed(m, Apply(m, e), c, id)
  {
  }

  lemma RoomRemovesNobody(m: Manager, e: Event, c: string, id: string)
    requires Legal(m, e) && (e.ECreate? || e.ERestore? || e.EPlay? || e.ESettings? || e.EVoteTimeout?)
    ensures !Removed(m, Apply(m, e), c, id)
  {
  }

  /* Nothing but a vote, a disconnect or a departure takes anybody out of a room that stays. */
  lemma OthersRemoveNobody(m: Manager, e: Event, c: string, id: string)
    requires Inv(m) && Legal(m, e) && !Departure(e) && !e.ECastVote? && !e.EDisconnect?
    ensures !Removed(m, Apply(m, e), c, id)
  {
    if e.EStartVote? {
      StartVoteOnlyVotes(m, e.id, e.target, e.cooling);
    } else if e.EJoin? || e.EAcceptRole? || e.EReconnect? {
      RosterRemovesNobody(m, e, c, id);
    } else if e.ETransferHost? || e.EReassignHost? {
      HostRemovesNobody(m, e, c, id);
    } else {
      RoomRemovesNobody(m, e, c, id);
    }
  }

  lemma StepRemoves(m: Manager, e: Event, c: string, id: string)
    requires Inv(m) && Legal(m, e) && !Departure(e) && Removed(m, Apply(m, e), c, id)
    ensures VotedOut(m, e, c, id)
  {
    if e.ECastVote? {
      CastRemoves(m, e.id, e.yes, c, id);
    } else if e.EDisconnect? {
      DisconnectRemoves(m, e.id, c, id);
    } else {
      OthersRemoveNobody(m, e, c, id);
    }
  }

  lemma CountedCastOk(m: Manager, e: Event, c: string, strays: set<string>)
    requires c in m.rooms && c in m.votes && VoteOk(m.rooms[c], m.votes[c], strays)
    requires e.ECastVote? && MayVote(m.rooms[c], m.votes[c].target, e.id)
    ensures VoteOk(CountedRoom(m, e, c), CountedVote(m, e, c), strays)
  {
  }

  lemma CountedDisconnectOk(m: Manager, e: Event, c: string, strays: set<string>)
    requires c in m.rooms && c in m.votes && Sound(m.rooms[c], c) && VoteOk(m.rooms[c], m.votes[c], strays)
    requires e.EDisconnect? && e.id in m.rooms[c].byId
    ensures Sound(CountedRoom(m, e, c), c) && VoteOk(CountedRoom(m, e, c), CountedVote(m, e, c), strays)
  {
    FoundPlayer(m.rooms[c], c, e.id);
    var q := m.rooms[c].byId[e.id].(connected := false);
    SetSound(m.rooms[c], c, q);
    SetVoteOk(m.rooms[c], c, q, m.votes[c], strays);
  }

  lemma CountedVoteOk(m: Manager, e: Event, c: string, id: string, strays: set<string>)
    requires Inv(m) && VotesOk(m, strays) && VotedOut(m, e, c, id)
    ensures Sound(CountedRoom(m, e, c), c) && VoteOk(CountedRoom(m, e, c), CountedVote(m, e, c), strays)
  {
    assert Good(m.rooms[c], c, m.restored);
    if e.ECastVote? {
      CountedCastOk(m, e, c, strays);
    } else {
      CountedDisconnectOk(m, e, c, strays);
    }
  }

  /* What is known of the votes counted when a player is voted out. */
  ghost predicate KickedBy(e: Entry, v: Vote, strays: set<string>) {
    && 2 * |v.votes| > |Electorate(e, v)|
    && Strays(e, v) <= strays
    && (Backed(e, v) <==> 2 * (|v.votes| - |Strays(e, v)|) > |Electorate(e, v)|)
    && (strays == {} ==> Majority(e, v))
  }

  lemma StepKicksByMajority(m: Manager, e: Event, c: string, id: string, strays: set<string>)
    requires Inv(m) && VotesOk(m, strays) && Legal(m, e) && !Departure(e) && Removed(m, Apply(m, e), c, id)
    ensures VotedOut(m, e, c, id) && KickedBy(CountedRoom(m, e, c), CountedVote(m, e, c), strays)
  {
    StepRemoves(m, e, c, id);
    CountedVoteOk(m, e, c, id, strays);
    StraysWithin(CountedRoom(m, e, c), c, CountedVote(m, e, c), strays);
    BackedExactly(CountedRoom(m, e, c), CountedVote(m, e, c));
  }

  /* At every step of every run: who is taken out of a room that stays, otherwise than by leaving,
     expiring, removal or a kick by the host, is the target of that room's vote, and the votes
     counted at that step pass. Those among them that are not of connected players other than the
     target are strays of the run; the others are a strict majority exactly when they are enough
     without the strays. In an orderly run the votes counted are a strict majority. */
  lemma KicksNeedMajority(m: Manager, es: seq<Event>, k: nat, c: string, id: string)
    requires Inv(m) && VotesOk(m, {}) && LegalRun(m, es) && k < |es| && !Departure(es[k])
    requires Removed(Run(m, es[..k]), Run(m, es[..k + 1]), c, id)
    ensures var s := Run(m, es[..k]);
            && VotedOut(s, es[k], c, id)
            && KickedBy(CountedRoom(s, es[k], c), CountedVote(s, es[k], c), Strayed(m, es[..k]))
    ensures Orderly(m, es) ==>
              var s := Run(m, es[..k]); Majority(CountedRoom(s, es[k], c), CountedVote(s, es[k], c))
  {
    var s, e := Run(m, es[..k]), es[k];
    RunAt(m, es, k);
    StepKicksByMajority(s, e, c, id, Strayed(m, es[..k]));
    if Orderly(m, es) {
      OrderlyBefore(m, es, k);
      OrderlyHasNoStrays(m, es[..k]);
    }
  }

  /* The state before and after the k-th event. */
  lemma RunAt(m: Manager, es: seq<Event>, k: nat)
    requires Inv(m) && VotesOk(m, {}) && LegalRun(m, es) && k < |es|
    ensures var s := Run(m, es[..k]);
            && Inv(s) && VotesOk(s, Strayed(m, es[..k])) && Legal(s, es[k])
            && Run(m, es[..k + 1]) == Apply(s, es[k])
  {
    assert es[..k + 1][..k] == es[..k];
    LegalBefore(m, es, k);
    VoteRunOk(m, es[..k], {});
    assert {} + Strayed(m, es[..k]) == Strayed(m, es[..k]);
  }

  // ---- Whose ballots they are ----

  /* The event gives the player's vote to the room's vote against the target. */
  ghost predicate CastFor(m: Manager, e: Event, c: string, target: string, id: string) {
    && FindRoom(m, id) == Some(c)
    && ((e == ECastVote(id, true) && c in m.votes && m.votes[c].target == target)
        || (e.EStartVote? && e.id == id && e.target == target))
  }

  ghost predicate HasVote(m: Manager, c: string, target: string, id: string) {
    c in m.votes && m.votes[c].target == target && id in m.votes[c].votes
  }

  lemma CountAddsNoVote(m: Manager, d: string, c: string, target: string, id: string)
    requires d in m.rooms && d in m.votes && HasVote(Count(m, d), c, target, id)
    ensures HasVote(m, c, target, id)
  {
  }

  lemma CastAddsOwnVote(m: Manager, voter: string, yes: bool, c: string, target: string, id: string)
    requires HasVote(CastVote(m, voter, yes), c, target, id)
    ensures HasVote(m, c, target, id) || CastFor(m, ECastVote(voter, yes), c, target, id)
  {
    if CastVote(m, voter, yes) != m {
      var d := FindRoom(m, voter).value;
      CountAddsNoVote(m.(votes := m.votes[d := Ballot(m.votes[d], voter, yes)]), d, c, target, id);
    }
  }

  lemma WithdrawAddsNoVote(m: Manager, d: string, voter: string, c: string, target: string, id: string)
    requires d in m.rooms && HasVote(WithdrawVoter(m, d, voter), c, target, id)
    ensures HasVote(m, c, target, id)
  {
    if d in m.votes && m.votes[d].target != voter && Voters(m.rooms[d].room.players, m.votes[d].target) >= 2 {
      CountAddsNoVote(m.(votes := m.votes[d := Withdrawn(m.votes[d], voter)]), d, c, target, id);
    }
  }

  lemma DisconnectAddsNoVote(m: Manager, voter: string, c: string, target: string, id: string)
    requires HasVote(Disconnect(m, voter), c, target, id)
    ensures HasVote(m, c, target, id)
  {
    if FindRoom(m, voter).Some? && GetPlayer(m.rooms[FindRoom(m, voter).value], voter).Some? {
      var d := FindRoom(m, voter).value;
      var m0 := Unplug(m, d, GetPlayer(m.rooms[d], voter).value);
      WithdrawAddsNoVote(m0, d, voter, c, target, id);
    }
  }

  lemma OthersAddNoVote(m: Manager, e: Event, c: string, target: string, id: string)
    requires !Balloting(e) && HasVote(Apply(m, e), c, target, id)
    ensures HasVote(m, c, target, id)
  {
  }

  lemma NewVoteAddsOne(m: Manager, d: string, v: Vote, c: string, target: string, id: string)
    requires HasVote(m.(votes := m.votes[d := v]), c, target, id)
    ensures HasVote(m, c, target, id) || (c == d && v.target == target && id in v.votes)
  {
  }

  lemma StartAddsOwnVote(m: Manager, e: Event, c: string, target: string, id: string)
    requires Inv(m) && e.EStartVote? && HasVote(StartVote(m, e.id, e.target, e.cooling), c, target, id)
    ensures HasVote(m, c, target, id) || CastFor(m, e, c, target, id)
  {
    var r := StartVote(m, e.id, e.target, e.cooling);
    if r != m {
      StartVoteIs(m, e.id, e.target, e.cooling);
      NewVoteAddsOne(m, FindRoom(m, e.id).value, Vote(e.target, {e.id}), c, target, id);
    }
  }

  lemma TimeoutAddsNoVote(m: Manager, e: Event, c: string, target: string, id: string)
    requires e.EVoteTimeout? && HasVote(Apply(m, e), c, target, id)
    ensures HasVote(m, c, target, id)
  {
  }

  ghost predicate HeldOrCast(m: Manager, e: Event, c: string, target: string, id: string) {
    HasVote(m, c, target, id) || CastFor(m, e, c, target, id)
  }

  lemma NewVotesAreCast(m: Manager, e: Event, c: string, target: string, id: string)
    requires Inv(m) && HasVote(Apply(m, e), c, target, id)
    ensures HeldOrCast(m, e, c, target, id)
  {
    if e.ECastVote? {
      CastAddsOwnVote(m, e.id, e.yes, c, target, id);
    } else if e.EDisconnect? {
      DisconnectAddsNoVote(m, e.id, c, target, id);
    } else if e.EStartVote? {
      StartAddsOwnVote(m, e, c, target, id);
    } else if e.EVoteTimeout? {
      TimeoutAddsNoVote(m, e, c, target, id);
    } else {
      OthersAddNoVote(m, e, c, target, id);
    }
  }

  ghost predicate CastInRun(m: Manager, es: seq<Event>, c: string, target: string, id: string) {
    exists k :: 0 <= k < |es| && CastFor(Run(m, es[..k]), es[k], c, target, id)
  }

  lemma CastEarlier(m: Manager, es: seq<Event>, n: nat, c: string, target: string, id: string)
    requires n <= |es| && CastInRun(m, es[..n], c, target, id)
    ensures CastInRun(m, es, c, target, id)
  {
    var k :| 0 <= k < n && CastFor(Run(m, es[..n][..k]), es[..n][k], c, target, id);
    assert es[..n][..k] == es[..k];
  }

  /* Every vote that is held was given by its holder, in this room and against this target. */
  lemma {:induction false} VotesWereCast(m: Manager, es: seq<Event>, c: string, target: string, id: string)
    requires Inv(m) && VotesOk(m, {}) && LegalRun(m, es) && HasVote(Run(m, es), c, target, id)
    ensures HasVote(m, c, target, id) || CastInRun(m, es, c, target, id)
    decreases |es|
  {
    if es != [] {
      var n := |es| - 1;
      var s := Run(m, es[..n]);
      RunAt(m, es, n);
      assert es[..n + 1] == es;
      NewVotesAreCast(s, es[n], c, target, id);
      if HasVote(s, c, target, id) {
        LegalBefore(m, es, n);
        VotesWereCast(m, es[..n], c, target, id);
        if CastInRun(m, es[..n], c, target, id) {
          CastEarlier(m, es, n, c, target, id);
        }
      }
    }
  }

  // ---- Leaving with a vote ----

  /* A departure from a room that stays takes the player out of it and touches nothing of the votes. */
  lemma DepartureIs(m: Manager, e: Event, c: string)
    requires Inv(m) && Departure(e) && Removed(m, Apply(m, e), c, Departing(e))
    ensures Departs(m, Apply(m, e), c, Departing(e))
  {
    ListedFound(m, c, Departing(e));
    DepartureFrom(m, e, c);
  }

  lemma DepartureFrom(m: Manager, e: Event, c: string)
    requires Departure(e) && FindRoom(m, Departing(e)) == Some(c) && Removed(m, Apply(m, e), c, Departing(e))
    ensures Departs(m, Apply(m, e), c, Departing(e))
  {
    match e
    case ELeave(id) => LeaveDeparts(m, c, id);
    case ERemove(id) => RemoveDeparts(m, c, id);
    case EExpire(id) => ExpireDeparts(m, c, id);
    case EHostKick(h, id) => HostKickDeparts(m, c, h, id);
  }

  lemma ListedFound(m: Manager, c: string, id: string)
    requires Inv(m) && c in m.rooms && id in m.rooms[c].byId
    ensures FindRoom(m, id) == Some(c)
  {
    ListedIndexedMapped(m, c, id);
  }

  ghost predicate Departs(m: Manager, r: Manager, c: string, id: string) {
    c in m.rooms && exists host :: r == Depart(m, c, id, host)
  }

  lemma LeaveDeparts(m: Manager, c: string, id: string)
    requires FindRoom(m, id) == Some(c) && Removed(m, Leave(m, id), c, id)
    ensures Departs(m, Leave(m, id), c, id)
  {
    var r := m.rooms[c].room;
    var rest := Without(r.players, id);
    if rest != [] {
      assert Leave(m, id) == Depart(m, c, id, if r.hostId == id then rest[0].id else r.hostId);
    }
  }

  lemma RemoveDeparts(m: Manager, c: string, id: string)
    requires FindRoom(m, id) == Some(c) && Removed(m, Remove(m, id), c, id)
    ensures Departs(m, Remove(m, id), c, id)
  {
    var r := m.rooms[c].room;
    var rest := Without(r.players, id);
    var next := NextHost(rest);
    if rest != [] {
      assert Remove(m, id) ==
             Depart(m, c, id, if r.hostId != id then r.hostId else if next.Some? then next.value.id else rest[0].id);
    }
  }

  lemma ExpireDeparts(m: Manager, c: string, id: string)
    requires FindRoom(m, id) == Some(c) && Removed(m, Expire(m, id), c, id)
    ensures Departs(m, Expire(m, id), c, id)
  {
    var r := m.rooms[c].room;
    var next := NextHost(Without(r.players, id));
    if next.Some? {
      assert Expire(m, id) == Depart(m, c, id, if r.hostId != id then r.hostId else next.value.id);
    }
  }

  lemma HostKickDeparts(m: Manager, c: string, h: string, id: string)
    requires Removed(m, HostKick(m, h, id), c, id)
    ensures Departs(m, HostKick(m, h, id), c, id)
  {
    var d := FindRoom(m, h).value;
    assert HostKick(m, h, id) == Depart(m, d, id, m.rooms[d].room.hostId);
  }

  lemma DepartVotesExactly(m: Manager, c: string, id: string, host: string)
    requires VotesOk(m, {}) && c in m.rooms
    ensures VotesOk(Depart(m, c, id, host), {}) <==> c !in m.votes || id !in m.votes[c].votes
  {
    var r := Depart(m, c, id, host);
    assert r.rooms[c].byId == m.rooms[c].byId - {id};
    if c in m.votes {
      DepartedVote(m.rooms[c], r.rooms[c], m.votes[c], id);
    }
  }

  lemma DepartedVote(e: Entry, r: Entry, v: Vote, id: string)
    requires VoteOk(e, v, {}) && r.byId == e.byId - {id}
    ensures VoteOk(r, v, {}) <==> id !in v.votes
  {
    if id in v.votes {
      assert !MayVote(r, v.target, id);
    }
  }

  /* Leaving, expiry, removal and a kick by the host do not touch the vote set: it stays in order
     exactly when the one who goes had not voted. */
  lemma DepartureVotesExactly(m: Manager, e: Event, c: string)
    requires Inv(m) && VotesOk(m, {}) && Departure(e) && Removed(m, Apply(m, e), c, Departing(e))
    ensures VotesOk(Apply(m, e), {}) <==> c !in m.votes || Departing(e) !in m.votes[c].votes
  {
    DepartureIs(m, e, c);
    DepartsVotesExactly(m, Apply(m, e), c, Departing(e));
  }

  lemma DepartsVotesExactly(m: Manager, r: Manager, c: string, id: string)
    requires VotesOk(m, {}) && Departs(m, r, c, id)
    ensures VotesOk(r, {}) <==> c !in m.votes || id !in m.votes[c].votes
  {
    var host :| r == Depart(m, c, id, host);
    DepartVotesExactly(m, c, id, host);
  }
}
