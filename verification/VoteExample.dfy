/** A run in which a departed player's vote decides a kick (backend/room_manager.py:2838-2881 and
    3010-3051): a creates a room, b and c join, a starts a vote against b and leaves. */
module VoteExample {
  import opened Models
  import opened RoomManager
  import opened RoomSafety
  import opened VoteSafety

  function Someone(id: string): Player { Player(id, id, 0, false, true, false, None, None, false, 0.0) }

  function LeaverRun(): seq<Event> {
    [ECreate("R", Someone("a"), DefaultConfig())]
    + [EJoin("R", Someone("b"), false)]
    + [EJoin("R", Someone("c"), false)]
    + [EStartVote("a", "b", false)]
    + [ELeave("a")]
  }

  // ---- The rooms along the way ----

  function One(): Entry { NewRoom("R", Someone("a"), DefaultConfig()) }

  function Two(): Entry { AddPlayer(One(), Someone("b")) }

  function Three(): Entry { AddPlayer(Two(), Someone("c")) }

  /* Without a, b is the host. */
  function Remaining(): Entry {
    Entry(Room("R", "b", [Someone("b"), Someone("c")], DefaultConfig(), Lobby, 0, 0, None, {}, []),
          map["b" := Someone("b"), "c" := Someone("c")])
  }

  function Having(e: Entry, p2r: map<string, string>, votes: map<string, Vote>): Manager {
    Manager(map["R" := e], p2r, votes, {})
  }

  const A := map["a" := "R"]
  const AB := map["a" := "R", "b" := "R"]
  const ABC := map["a" := "R", "b" := "R", "c" := "R"]
  const BC := map["b" := "R", "c" := "R"]
  const AGAINST_B := map["R" := Vote("b", {"a"})]

  lemma ThreePlayers()
    ensures Three().room.players == [Someone("a"), Someone("b"), Someone("c")]
    ensures Three().byId == map["a" := Someone("a"), "b" := Someone("b"), "c" := Someone("c")]
  {
  }

  // ---- The steps ----

  lemma Created()
    ensures CreateRoom(Empty(), "R", Someone("a"), DefaultConfig()) == Having(One(), A, map[])
  {
  }

  lemma JoinStores(e: Entry, p2r: map<string, string>, p: Player)
    requires e.room.state == Lobby && Admits(e.room, p.spectator)
    ensures Join(Having(e, p2r, map[]), "R", p, false) == Having(AddPlayer(e, p), p2r[p.id := "R"], map[])
  {
    assert map["R" := e]["R" := AddPlayer(e, p)] == map["R" := AddPlayer(e, p)];
  }

  lemma Joined()
    ensures Join(Having(One(), A, map[]), "R", Someone("b"), false) == Having(Two(), AB, map[])
    ensures Join(Having(Two(), AB, map[]), "R", Someone("c"), false) == Having(Three(), ABC, map[])
  {
    CountsAppend([], Someone("a"));
    assert [] + [Someone("a")] == One().room.players;
    CountsAppend(One().room.players, Someone("b"));
    JoinStores(One(), A, Someone("b"));
    JoinStores(Two(), AB, Someone("c"));
  }

  lemma ThreeCounts()
    ensures Connected(Three().room.players) == 3 && Required(Three().room.players, "b") == 2
  {
    ThreePlayers();
    var ps := Three().room.players;
    assert ps[1..] == [Someone("b"), Someone("c")] && ps[1..][1..] == [Someone("c")] && ps[1..][1..][1..] == [];
    assert Connected(ps[1..][1..]) == 1 && Voters(ps[1..][1..], "b") == 1;
    assert Connected(ps[1..]) == 2 && Voters(ps[1..], "b") == 1;
  }

  lemma Started()
    ensures StartVote(Having(Three(), ABC, map[]), "a", "b", false) == Having(Three(), ABC, AGAINST_B)
  {
    ThreeCounts();
    ThreePlayers();
    assert GetPlayer(Three(), "b") == Some(Someone("b"));
  }

  lemma WithoutA()
    ensures Without(Three().room.players, "a") == [Someone("b"), Someone("c")]
  {
    ThreePlayers();
    var ps := Three().room.players;
    assert ps[1..] == [Someone("b"), Someone("c")] && ps[1..][1..] == [Someone("c")] && ps[1..][1..][1..] == [];
    assert Without([Someone("c")], "a") == [Someone("c")];
    assert Without(ps[1..], "a") == [Someone("b"), Someone("c")];
  }

  lemma IndexWithoutA()
    ensures Three().byId - {"a"} == Remaining().byId
  {
    ThreePlayers();
  }

  lemma RoomLeft()
    ensures var e := RemovePlayer(Three(), "a"); e.(room := e.room.(hostId := "b")) == Remaining()
  {
    WithoutA();
    IndexWithoutA();
  }

  lemma DepartStores(e: Entry, votes: map<string, Vote>, f: Entry)
    requires var r := RemovePlayer(e, "a"); r.(room := r.room.(hostId := "b")) == f
    ensures Depart(Having(e, ABC, votes), "R", "a", "b") == Having(f, BC, votes)
  {
    assert map["R" := e]["R" := f] == map["R" := f];
    assert ABC - {"a"} == BC;
  }

  lemma LeaveDeparts(m: Manager)
    requires "a" in m.playerToRoom && m.playerToRoom["a"] == "R" && "R" in m.rooms
    requires m.rooms["R"].room.state == Lobby && m.rooms["R"].room.hostId == "a"
    requires Without(m.rooms["R"].room.players, "a") == [Someone("b"), Someone("c")]
    ensures Leave(m, "a") == Depart(m, "R", "a", "b")
  {
  }

  lemma LeftBehind()
    ensures Leave(Having(Three(), ABC, AGAINST_B), "a") == Having(Remaining(), BC, AGAINST_B)
  {
    WithoutA();
    LeaveDeparts(Having(Three(), ABC, AGAINST_B));
    RoomLeft();
    DepartStores(Three(), AGAINST_B, Remaining());
  }

  // ---- The run ----

  lemma OneMore(es: seq<Event>, e: Event, m: Manager)
    requires LegalRun(Empty(), es) && Run(Empty(), es) == m && Legal(m, e)
    ensures LegalRun(Empty(), es + [e]) && Run(Empty(), es + [e]) == Apply(m, e)
  {
    var fs := es + [e];
    assert fs[..|es|] == es;
    forall k | 0 <= k < |fs|
      ensures Legal(Run(Empty(), fs[..k]), fs[k])
    {
      if k < |es| {
        assert fs[..k] == es[..k];
      }
    }
  }

  /* The run is legal and leaves b and c with the vote of a against b. */
  lemma LeaverRunLegal()
    ensures LegalRun(Empty(), LeaverRun()) && Run(Empty(), LeaverRun()) == Having(Remaining(), BC, AGAINST_B)
  {
    var e1, e2 := ECreate("R", Someone("a"), DefaultConfig()), EJoin("R", Someone("b"), false);
    var e3, e4 := EJoin("R", Someone("c"), false), EStartVote("a", "b", false);
    OneMore([], e1, Empty());
    assert [] + [e1] == [e1];
    Created();
    Joined();
    OneMore([e1], e2, Having(One(), A, map[]));
    OneMore([e1] + [e2], e3, Having(Two(), AB, map[]));
    Started();
    OneMore([e1] + [e2] + [e3], e4, Having(Three(), ABC, map[]));
    LeftBehind();
    OneMore([e1] + [e2] + [e3] + [e4], ELeave("a"), Having(Three(), ABC, AGAINST_B));
  }

  lemma OneVoterLeft()
    ensures Required(Remaining().room.players, "b") == 1
  {
    var ps := Remaining().room.players;
    assert ps[1..] == [Someone("c")] && ps[1..][1..] == [];
    assert Voters([Someone("c")], "b") == 1;
  }

  lemma NoChangesNothing()
    ensures CastVote(Having(Remaining(), BC, AGAINST_B), "c", false) == Count(Having(Remaining(), BC, AGAINST_B), "R")
  {
    var v := Vote("b", {"a"});
    assert v.(votes := v.votes - {"c"}) == v;
    assert AGAINST_B["R" := v] == AGAINST_B;
  }

  lemma CountDecides()
    ensures Removed(Having(Remaining(), BC, AGAINST_B), Count(Having(Remaining(), BC, AGAINST_B), "R"), "R", "b")
  {
    OneVoterLeft();
    assert GetPlayer(Remaining(), "b").Some?;
  }

  /* In a state that a run reaches, the vote of a, who has left, decides: c votes against removing b,
     and b is removed. */
  lemma LeaverKeepsVote()
    ensures LegalRun(Empty(), LeaverRun())
    ensures var m := Run(Empty(), LeaverRun()); Removed(m, CastVote(m, "c", false), "R", "b")
  {
    LeaverRunLegal();
    NoChangesNothing();
    CountDecides();
  }
}
