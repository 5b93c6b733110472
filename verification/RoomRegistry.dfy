/** The handlers of the room manager as they change its dictionaries in place
    (backend/room_manager.py): each leaves the registry in the state that `RoomManager` describes
    and keeps the indexes, the hosts and the capacities in order. */
module RoomRegistry {
  import opened Models
  import opened RoomManager
  import opened RoomSafety

  class Registry {
    var rooms: map<string, Entry>
    var playerToRoom: map<string, string>
    var votes: map<string, Vote>
    ghost var restored: set<string>

    ghost function View(): Manager
      reads this
    {
      Manager(rooms, playerToRoom, votes, restored)
    }

    ghost predicate Valid()
      reads this
    {
      Inv(View())
    }

    constructor ()
      ensures Valid() && View() == Empty()
    {
      rooms, playerToRoom, votes, restored := map[], map[], map[], {};
    }

    /* The index, then a scan of all rooms that repairs the index where it finds the player. */
    method FindRoomByPlayer(id: string) returns (r: Option<string>)
      requires Valid()
      modifies this`playerToRoom
      ensures View() == old(View()) && r == FindRoom(View(), id)
    {
      if id in playerToRoom {
        var code := playerToRoom[id];
        return if code in rooms then Some(code) else None;
      }
      ScanFindsNothingNew(View(), id);
      var todo := rooms.Keys;
      while todo != {}
        invariant todo <= rooms.Keys && View() == old(View())
        decreases |todo|
      {
        var c :| c in todo;
        if GetPlayer(rooms[c], id).Some? {
          assert false;
        }
        todo := todo - {c};
      }
      r := None;
    }

    method DeleteRoom(code: string)
      modifies this
      ensures View() == RoomManager.DeleteRoom(old(View()), code)
    {
      if code !in rooms {
        return;
      }
      var players := rooms[code].room.players;
      ghost var p2r := playerToRoom;
      for i := 0 to |players|
        invariant playerToRoom == p2r - Ids(players[..i])
        invariant rooms == old(rooms) && votes == old(votes) && restored == old(restored)
      {
        assert Ids(players[..i + 1]) == Ids(players[..i]) + {players[i].id} by {
          assert players[..i + 1][i] == players[i];
          assert forall k :: 0 <= k < i ==> players[..i + 1][k] == players[..i][k];
        }
        playerToRoom := playerToRoom - {players[i].id};
      }
      assert players[..|players|] == players;
      rooms := rooms - {code};
      votes := votes - {code};
      restored := restored - {code};
    }

    method CountRoles(players: seq<Player>) returns (active: nat, spectators: nat)
      ensures active == Active(players) && spectators == Spectators(players)
    {
      active, spectators := 0, 0;
      for i := |players| downto 0
        invariant active == Active(players[i..]) && spectators == Spectators(players[i..])
      {
        assert players[i..][1..] == players[i + 1..];
        if players[i].spectator {
          spectators := spectators + 1;
        } else {
          active := active + 1;
        }
      }
      assert players[0..] == players;
    }

    method Admit(code: string, player: Player, approved: bool)
      modifies this`rooms, this`playerToRoom
      ensures View() == Join(old(View()), code, player, approved)
    {
      if code !in rooms {
        return;
      }
      var room := rooms[code].room;
      if room.state != Lobby && !player.spectator && !approved {
        return;
      }
      var active, spectators := CountRoles(room.players);
      if !player.spectator && active >= Limit(room) {
        return;
      }
      if player.spectator && spectators >= MAX_SPECTATORS {
        return;
      }
      rooms := rooms[code := AddPlayer(rooms[code], player)];
      playerToRoom := playerToRoom[player.id := code];
    }

    method JoinRoom(code: string, player: Player, approved: bool)
      requires Valid() && player.id !in playerToRoom
      modifies this
      ensures Valid() && View() == Join(old(View()), code, player, approved)
    {
      JoinKeeps(View(), code, player, approved);
      Admit(code, player, approved);
    }

    method PickHost(players: seq<Player>, spectators: bool) returns (r: Option<Player>)
      ensures r == FirstConnected(players, spectators)
    {
      for i := 0 to |players|
        invariant FirstConnected(players, spectators) == FirstConnected(players[i..], spectators)
      {
        assert players[i..][1..] == players[i + 1..];
        if players[i].connected && (spectators || !players[i].spectator) {
          return Some(players[i]);
        }
      }
      r := None;
    }

    /* Takes the player out of list, index and map, and hands the host role on if it was theirs. */
    method TakeOut(code: string, id: string, heir: Option<string>)
      requires code in rooms
      modifies this`rooms, this`playerToRoom
      ensures var host := old(rooms)[code].room.hostId;
              View() == Depart(old(View()), code, id, if host == id && heir.Some? then heir.value else host)
    {
      var entry := RemovePlayer(rooms[code], id);
      playerToRoom := playerToRoom - {id};
      if entry.room.hostId == id && heir.Some? {
        entry := entry.(room := entry.room.(hostId := heir.value));
      }
      rooms := rooms[code := entry];
    }

    method PermanentlyRemovePlayer(id: string)
      requires Valid()
      modifies this
      ensures Valid() && View() == Expire(old(View()), id)
    {
      ExpireKeeps(View(), id);
      var found := FindRoomByPlayer(id);
      if found.None? {
        return;
      }
      var code := found.value;
      var rest := Without(rooms[code].room.players, id);
      var host := PickHost(rest, false);
      if host.None? {
        host := PickHost(rest, true);
      }
      if host.None? {
        TakeOut(code, id, None);
        DeleteRoom(code);
      } else {
        TakeOut(code, id, Some(host.value.id));
      }
    }

    method LeaveRoom(id: string)
      requires Valid()
      modifies this
      ensures Valid() && View() == Leave(old(View()), id)
    {
      LeaveKeeps(View(), id);
      var found := FindRoomByPlayer(id);
      if found.None? || rooms[found.value].room.state != Lobby {
        return;
      }
      var code := found.value;
      var rest := Without(rooms[code].room.players, id);
      if rest == [] {
        TakeOut(code, id, None);
        DeleteRoom(code);
      } else {
        TakeOut(code, id, Some(rest[0].id));
      }
    }

    method CountVoters(players: seq<Player>, target: string) returns (n: nat)
      ensures n == Voters(players, target)
    {
      n := 0;
      for i := |players| downto 0
        invariant n == Voters(players[i..], target)
      {
        assert players[i..][1..] == players[i + 1..];
        if IsVoter(players[i], target) {
          n := n + 1;
        }
      }
      assert players[0..] == players;
    }

    method ExecuteVoteKick(code: string, target: string)
      requires code in rooms
      modifies this`rooms, this`playerToRoom
      ensures View() == ExecuteKick(old(View()), code, target)
    {
      var rest := Without(rooms[code].room.players, target);
      var host := PickHost(rest, false);
      if host.None? {
        host := PickHost(rest, true);
      }
      TakeOut(code, target, if host.None? then None else Some(host.value.id));
    }

    /* Ends the vote and removes the target once the votes reach the majority of this moment. */
    method CountVotes(code: string)
      requires code in rooms && code in votes
      modifies this
      ensures View() == Count(old(View()), code)
    {
      var vote := votes[code];
      var n := CountVoters(rooms[code].room.players, vote.target);
      if |vote.votes| >= n / 2 + 1 {
        votes := votes - {code};
        if GetPlayer(rooms[code], vote.target).Some? {
          ExecuteVoteKick(code, vote.target);
        }
      }
    }

    method CastVoteKick(voter: string, yes: bool)
      requires Valid()
      modifies this
      ensures Valid() && View() == CastVote(old(View()), voter, yes)
    {
      CastVoteKeeps(View(), voter, yes);
      var found := FindRoomByPlayer(voter);
      if found.Some? {
        CastBallot(found.value, voter, yes);
      }
    }

    method CastBallot(code: string, voter: string, yes: bool)
      requires code in rooms
      modifies this
      ensures View() == CastIn(old(View()), code, voter, yes)
    {
      if code !in votes {
        return;
      }
      var vote := votes[code];
      var player := GetPlayer(rooms[code], voter);
      if voter == vote.target || player.None? || !player.value.connected {
        return;
      }
      EnterBallot(code, voter, yes);
      CountVotes(code);
    }

    method EnterBallot(code: string, voter: string, yes: bool)
      requires code in votes
      modifies this`votes
      ensures var v := old(votes)[code];
              votes == old(votes)[code := v.(votes := if yes then v.votes + {voter} else v.votes - {voter})]
    {
      var vote := votes[code];
      if yes {
        votes := votes[code := vote.(votes := vote.votes + {voter})];
      } else {
        votes := votes[code := vote.(votes := vote.votes - {voter})];
      }
    }

    method Withdraw(code: string, id: string)
      requires code in rooms
      modifies this
      ensures View() == WithdrawVoter(old(View()), code, id)
    {
      if code !in votes {
        return;
      }
      var vote := votes[code];
      if vote.target == id {
        votes := votes - {code};
        return;
      }
      var n := CountVoters(rooms[code].room.players, vote.target);
      if n < 2 {
        votes := votes - {code};
      } else {
        votes := votes[code := vote.(votes := vote.votes - {id})];
        CountVotes(code);
      }
    }

    method AnyConnected(players: seq<Player>) returns (any: bool)
      ensures any <==> Connected(players) > 0
    {
      any := false;
      for i := |players| downto 0
        invariant any <==> Connected(players[i..]) > 0
      {
        assert players[i..][1..] == players[i + 1..];
        any := any || players[i].connected;
      }
      assert players[0..] == players;
    }

    method HandleDisconnect(id: string)
      requires Valid()
      modifies this
      ensures Valid() && View() == Disconnect(old(View()), id)
    {
      DisconnectKeeps(View(), id);
      var found := FindRoomByPlayer(id);
      if found.None? || GetPlayer(rooms[found.value], id).None? {
        return;
      }
      var code := found.value;
      DropConnection(code, GetPlayer(rooms[code], id).value);
      Withdraw(code, id);
      DeleteIfAbandoned(code, id);
    }

    method DropConnection(code: string, player: Player)
      requires code in rooms
      modifies this`rooms
      ensures View() == Unplug(old(View()), code, player)
    {
      rooms := rooms[code := SetPlayer(rooms[code], player.(connected := false))];
    }

    method DeleteIfAbandoned(code: string, id: string)
      modifies this
      ensures View() == CloseIfAbandoned(old(View()), code, id)
    {
      if code !in rooms {
        return;
      }
      var room := rooms[code].room;
      var any := AnyConnected(room.players);
      if room.hostId == id && !any && (room.state == Lobby || room.state == GameOver) {
        DeleteRoom(code);
      }
    }
  }
}
