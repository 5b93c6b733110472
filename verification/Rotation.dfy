/** Choosing the next drawer (backend/game_engine.py:808-880, backend/room_manager.py:3235-3243).
    A position in a game is a pair of round and list index, ordered lexicographically. */
module Rotation {
  import opened Models

  datatype Step = Pause | Finish(round: int, index: nat) | Draw(round: int, index: nat)

  predicate Before(r: int, i: int, s: int, j: int) { r < s || (r == s && i < j) }

  /* Index of the first player at or after `from` who can draw. */
  function FirstEligible(ps: seq<Player>, from: nat): (r: Option<nat>)
    ensures r.Some? ==> from <= r.value < |ps| && Eligible(ps[r.value])
    ensures r.Some? ==> forall i :: from <= i < r.value ==> !Eligible(ps[i])
    ensures r.None? ==> forall i :: from <= i < |ps| ==> !Eligible(ps[i])
    decreases |ps| - from
  {
    if from >= |ps| then None
    else if Eligible(ps[from]) then Some(from)
    else FirstEligible(ps, from + 1)
  }

  lemma {:induction false} SomeoneEligible(ps: seq<Player>)
    ensures CountEligible(ps) > 0 <==> exists i :: 0 <= i < |ps| && Eligible(ps[i])
  {
    if ps != [] {
      var q := ps[1..];
      SomeoneEligible(q);
      if i :| 0 <= i < |q| && Eligible(q[i]) {
        assert Eligible(ps[i + 1]);
      }
      if i :| 0 < i < |ps| && Eligible(ps[i]) {
        assert Eligible(q[i - 1]);
      }
    }
  }

  /* Who draws after position (round, index) in a game of `rounds` rounds. */
  function Next(ps: seq<Player>, round: int, index: nat, rounds: int): Step {
    if CountEligible(ps) < 2 then Pause
    else
      var wrap := index + 1 >= |ps|;
      var r := if wrap then round + 1 else round;
      var i := if wrap then 0 else index + 1;
      if r > rounds then Finish(r, i)
      else match FirstEligible(ps, i)
        case Some(k) => Draw(r, k)
        case None =>
          if r + 1 > rounds then Finish(r + 1, 0)
          else
            SomeoneEligible(ps);
            Draw(r + 1, FirstEligible(ps, 0).value)
  }

  /* No player who can draw sits at a position after (round, index) and before (r, i). */
  ghost predicate NoneBetween(ps: seq<Player>, round: int, index: nat, r: int, i: nat) {
    forall s, k :: 0 <= k < |ps| && Before(round, index, s, k) && Before(s, k, r, i) ==> !Eligible(ps[k])
  }

  /* A game that finishes does so at the start of the round after its last, unless it was past that. */
  lemma FinishPosition(ps: seq<Player>, round: int, index: nat, rounds: int)
    requires Next(ps, round, index, rounds).Finish?
    ensures var n := Next(ps, round, index, rounds);
            if round <= rounds then n.round == rounds + 1 && n.index == 0
            else if index + 1 < |ps| then n.round == round && n.index == index + 1
            else n.round == round + 1 && n.index == 0
  {
  }

  /* A drawn position is the first later one whose player can draw, and the game finishes only
     when no later position within the rounds has such a player. */
  lemma NextIsLeast(ps: seq<Player>, round: int, index: nat, rounds: int)
    ensures Next(ps, round, index, rounds).Pause? <==> CountEligible(ps) < 2
    ensures Next(ps, round, index, rounds).Finish? ==> NoneBetween(ps, round, index, rounds + 1, 0)
    ensures var n := Next(ps, round, index, rounds);
            n.Draw? ==>
              && n.index < |ps| && Eligible(ps[n.index])
              && n.round <= rounds && n.round <= round + 1
              && Before(round, index, n.round, n.index)
              && NoneBetween(ps, round, index, n.round, n.index)
  {
    SomeoneEligible(ps);
  }

  /* ---- A game with a fixed roster ---- */

  function EligibleFrom(ps: seq<Player>, from: nat): seq<nat>
    decreases |ps| - from
  {
    if from >= |ps| then []
    else if Eligible(ps[from]) then [from] + EligibleFrom(ps, from + 1)
    else EligibleFrom(ps, from + 1)
  }

  lemma {:induction false} EligibleFromSound(ps: seq<Player>, from: nat, k: nat)
    requires k < |EligibleFrom(ps, from)|
    ensures var i := EligibleFrom(ps, from)[k]; from <= i < |ps| && Eligible(ps[i])
    decreases |ps| - from
  {
    if !Eligible(ps[from]) {
      EligibleFromSound(ps, from + 1, k);
    } else if k > 0 {
      EligibleFromSound(ps, from + 1, k - 1);
    }
  }

  lemma {:induction false} EligibleFromAscends(ps: seq<Player>, from: nat, j: nat, k: nat)
    requires j < k < |EligibleFrom(ps, from)|
    ensures EligibleFrom(ps, from)[j] < EligibleFrom(ps, from)[k]
    decreases |ps| - from
  {
    if !Eligible(ps[from]) {
      EligibleFromAscends(ps, from + 1, j, k);
    } else if j > 0 {
      EligibleFromAscends(ps, from + 1, j - 1, k - 1);
    } else {
      EligibleFromSound(ps, from + 1, k - 1);
    }
  }

  lemma {:induction false} EligibleFromComplete(ps: seq<Player>, from: nat, i: nat)
    requires from <= i < |ps| && Eligible(ps[i])
    ensures i in EligibleFrom(ps, from)
    decreases |ps| - from
  {
    if from < i {
      EligibleFromComplete(ps, from + 1, i);
    }
  }

  /* Exactly the indexes of players who can draw, in list order. */
  lemma EligibleExactly(ps: seq<Player>)
    ensures forall i :: i in EligibleFrom(ps, 0) <==> 0 <= i < |ps| && Eligible(ps[i])
    ensures forall j, k :: 0 <= j < k < |EligibleFrom(ps, 0)| ==> EligibleFrom(ps, 0)[j] < EligibleFrom(ps, 0)[k]
  {
    forall j, k | 0 <= j < k < |EligibleFrom(ps, 0)|
      ensures EligibleFrom(ps, 0)[j] < EligibleFrom(ps, 0)[k]
    {
      EligibleFromAscends(ps, 0, j, k);
    }
    forall i | 0 <= i < |ps| && Eligible(ps[i])
      ensures i in EligibleFrom(ps, 0)
    {
      EligibleFromComplete(ps, 0, i);
    }
    forall i | i in EligibleFrom(ps, 0)
      ensures 0 <= i < |ps| && Eligible(ps[i])
    {
      var k :| 0 <= k < |EligibleFrom(ps, 0)| && EligibleFrom(ps, 0)[k] == i;
      EligibleFromSound(ps, 0, k);
    }
  }

  function Repeat(s: seq<nat>, n: nat): seq<nat> {
    if n == 0 then [] else s + Repeat(s, n - 1)
  }

  /* The drawers of a game from a given position on, until it pauses or finishes. */
  function DrawersFrom(ps: seq<Player>, round: int, index: nat, rounds: int): seq<nat>
    decreases rounds - round, |ps| - index
  {
    NextIsLeast(ps, round, index, rounds);
    [index] + match Next(ps, round, index, rounds)
    case Draw(r, i) => DrawersFrom(ps, r, i, rounds)
    case Finish(_, _) => []
    case Pause => []
  }

  lemma {:induction false} SkipIneligible(ps: seq<Player>, from: nat)
    ensures var k := FirstEligible(ps, from);
            EligibleFrom(ps, from) == if k.Some? then EligibleFrom(ps, k.value) else []
    decreases |ps| - from
  {
    if from < |ps| && !Eligible(ps[from]) {
      SkipIneligible(ps, from + 1);
    }
  }

  ghost predicate RestIs(ps: seq<Player>, round: int, index: nat, rounds: int)
    requires round <= rounds
  {
    DrawersFrom(ps, round, index, rounds) ==
    EligibleFrom(ps, index) + Repeat(EligibleFrom(ps, 0), rounds - round)
  }

  /* One advance either finds the next player of this round, */
  lemma AdvanceInRound(ps: seq<Player>, round: int, index: nat, rounds: int)
    requires round <= rounds && index < |ps| && Eligible(ps[index])
    requires var n := Next(ps, round, index, rounds);
             n.Draw? && n.round == round && RestIs(ps, round, n.index, rounds)
    ensures RestIs(ps, round, index, rounds)
  {
    SkipIneligible(ps, index + 1);
    var later := EligibleFrom(ps, Next(ps, round, index, rounds).index);
    var tail := Repeat(EligibleFrom(ps, 0), rounds - round);
    assert [index] + (later + tail) == ([index] + later) + tail;
  }

  /* or opens the next round, */
  lemma AdvanceToNextRound(ps: seq<Player>, round: int, index: nat, rounds: int)
    requires round <= rounds && index < |ps| && Eligible(ps[index])
    requires var n := Next(ps, round, index, rounds);
             n.Draw? && round < n.round <= rounds && RestIs(ps, n.round, n.index, rounds)
    ensures RestIs(ps, round, index, rounds)
  {
    SkipIneligible(ps, index + 1);
    SkipIneligible(ps, 0);
    assert EligibleFrom(ps, index) == [index];
  }

  /* or finishes the last one. */
  lemma AdvanceToFinish(ps: seq<Player>, round: int, index: nat, rounds: int)
    requires round <= rounds && index < |ps| && Eligible(ps[index])
    requires Next(ps, round, index, rounds).Finish?
    ensures RestIs(ps, round, index, rounds)
  {
    SkipIneligible(ps, index + 1);
    assert EligibleFrom(ps, index) == [index];
  }

  lemma {:induction false} RestOfGame(ps: seq<Player>, round: int, index: nat, rounds: int)
    requires CountEligible(ps) >= 2 && round <= rounds
    requires index < |ps| && Eligible(ps[index])
    ensures RestIs(ps, round, index, rounds)
    decreases rounds - round, |ps| - index
  {
    NextIsLeast(ps, round, index, rounds);
    var next := Next(ps, round, index, rounds);
    if next.Finish? {
      AdvanceToFinish(ps, round, index, rounds);
    } else {
      RestOfGame(ps, next.round, next.index, rounds);
      if next.round == round {
        AdvanceInRound(ps, round, index, rounds);
      } else {
        AdvanceToNextRound(ps, round, index, rounds);
      }
    }
  }

  /* From the first drawer that `start_game` picks, in round one, to the end of the game, the
     drawers are the connected non-spectators in list order, once per round. */
  lemma FixedRosterGame(ps: seq<Player>, rounds: Pos)
    requires CountEligible(ps) >= 2
    ensures FirstEligible(ps, 0).Some?
    ensures DrawersFrom(ps, 1, FirstEligible(ps, 0).value, rounds) == Repeat(EligibleFrom(ps, 0), rounds)
  {
    SomeoneEligible(ps);
    SkipIneligible(ps, 0);
    var i := FirstEligible(ps, 0).value;
    RestOfGame(ps, 1, i, rounds);
    assert EligibleFrom(ps, i) == EligibleFrom(ps, 0);
  }

  /* ---- Games with a changing roster ---- */

  datatype Slot = Slot(round: int, index: nat)

  ghost predicate Increasing(slots: seq<Slot>) {
    forall j, k :: 0 <= j < k < |slots| ==>
      Before(slots[j].round, slots[j].index, slots[k].round, slots[k].index)
  }

  lemma RowsApart(a: int, b: int, width: nat)
    requires a < b
    ensures a * width + width <= b * width
  {
    assert (a + 1) * width == a * width + width;
    assert (b - a - 1) * width >= 0;
    assert (b - a - 1) * width == b * width - (a + 1) * width;
  }

  lemma RowsInOrder(a: int, width: nat)
    requires a >= 0
    ensures a * width >= 0
  {
  }

  /* Strictly increasing positions over rounds first..last and indexes below width. */
  lemma FewSlots(slots: seq<Slot>, first: int, last: int, width: nat)
    requires Increasing(slots) && first <= last + 1
    requires forall k :: 0 <= k < |slots| ==> first <= slots[k].round <= last && slots[k].index < width
    ensures |slots| <= (last - first + 1) * width
  {
    RowsInOrder(last - first + 1, width);
    if slots != [] {
      SlotOrdinal(slots, first, width, |slots| - 1);
      RowsApart(slots[|slots| - 1].round - first, last - first + 1, width);
    }
  }

  lemma {:induction false} SlotOrdinal(slots: seq<Slot>, first: int, width: nat, k: nat)
    requires Increasing(slots) && k < |slots|
    requires forall j :: 0 <= j < |slots| ==> first <= slots[j].round && slots[j].index < width
    ensures k <= (slots[k].round - first) * width + slots[k].index
  {
    if k == 0 {
      RowsInOrder(slots[0].round - first, width);
    } else {
      SlotOrdinal(slots, first, width, k - 1);
      var s, t := slots[k - 1], slots[k];
      assert Before(s.round, s.index, t.round, t.index);
      if s.round < t.round {
        RowsApart(s.round - first, t.round - first, width);
      }
    }
  }
}
