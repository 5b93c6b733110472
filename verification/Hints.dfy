/** The hint shown to guessers (backend/game_engine.py:177-206). */
module Hints {

  function InitialHint(word: string): (h: string)
    ensures |h| == |word|
  {
    seq(|word|, i requires 0 <= i < |word| => if word[i] == ' ' then ' ' else '_')
  }

  /* Indexes of the characters still hidden, in order. */
  function Unrevealed(hint: string): (r: seq<nat>)
    ensures forall k :: 0 <= k < |r| ==> r[k] < |hint| && hint[r[k]] == '_'
    ensures forall i :: 0 <= i < |hint| && hint[i] == '_' ==> i in r
    ensures forall j, k :: 0 <= j < k < |r| ==> r[j] < r[k]
  {
    if hint == [] then []
    else
      var n := |hint| - 1;
      var tail := if hint[n] == '_' then [n] else [];
      Unrevealed(hint[..n]) + tail
  }

  /* `pick` stands for the random choice among the hidden characters. */
  function Reveal(hint: string, word: string, pick: nat): string
    requires |hint| == |word|
  {
    var hidden := Unrevealed(hint);
    if |hidden| <= 1 then hint
    else
      var i := hidden[pick % |hidden|];
      hint[i := word[i]]
  }

  /* Shown characters are the word's, and spaces are never hidden. */
  ghost predicate Truthful(hint: string, word: string) {
    && |hint| == |word|
    && (forall i :: 0 <= i < |word| ==> hint[i] == '_' || hint[i] == word[i])
    && (forall i :: 0 <= i < |word| && word[i] == ' ' ==> hint[i] == ' ')
  }

  /* Positions of letters that have been given away. */
  ghost function Shown(hint: string, word: string): set<nat>
    requires |hint| == |word|
  {
    set i: nat | i < |word| && word[i] != ' ' && hint[i] != '_'
  }

  ghost predicate HasLetter(word: string) { exists i :: 0 <= i < |word| && word[i] != ' ' }

  /* The hint of a word with n letters given away so far. */
  ghost predicate Fair(hint: string, word: string, n: nat) {
    && Truthful(hint, word)
    && |Shown(hint, word)| <= n
    && (HasLetter(word) ==> '_' in hint)
  }

  lemma InitialHintFair(word: string)
    ensures Fair(InitialHint(word), word, 0)
  {
    var h := InitialHint(word);
    assert Shown(h, word) == {};
    if HasLetter(word) {
      var i :| 0 <= i < |word| && word[i] != ' ';
      assert h[i] == '_';
    }
  }

  /* One reveal keeps the hint truthful, gives away at most one more letter and never the last. */
  lemma RevealFair(hint: string, word: string, pick: nat, n: nat)
    requires Fair(hint, word, n)
    ensures Fair(Reveal(hint, word, pick), word, n + 1)
  {
    var hidden := Unrevealed(hint);
    var after := Reveal(hint, word, pick);
    RevealKeepsOne(hint, word, pick);
    if |hidden| > 1 {
      var i := hidden[pick % |hidden|];
      assert Shown(after, word) <= Shown(hint, word) + {i};
      SubsetSize(Shown(after, word), Shown(hint, word) + {i});
    }
  }

  lemma RevealKeepsOne(hint: string, word: string, pick: nat)
    requires |hint| == |word|
    ensures Truthful(hint, word) ==> Truthful(Reveal(hint, word, pick), word)
    ensures '_' in hint ==> '_' in Reveal(hint, word, pick)
  {
    var hidden := Unrevealed(hint);
    if |hidden| > 1 {
      var k := pick % |hidden|;
      var other := hidden[if k == 0 then 1 else 0];
      assert other != hidden[k] && Reveal(hint, word, pick)[other] == '_';
    }
  }

  ghost function Hidden(hint: string): set<nat> { set i: nat | i < |hint| && hint[i] == '_' }

  lemma HiddenStep(hint: string)
    requires hint != []
    ensures var n := |hint| - 1;
            Hidden(hint) == Hidden(hint[..n]) + (if hint[n] == '_' then {n} else {}) && n !in Hidden(hint[..n])
  {
  }

  lemma {:induction false} UnrevealedCount(hint: string)
    ensures |Unrevealed(hint)| == |Hidden(hint)|
  {
    if hint != [] {
      UnrevealedCount(hint[..|hint| - 1]);
      HiddenStep(hint);
    }
  }

  /* With two hidden characters or more a reveal shows one of them, with fewer none; */
  lemma RevealExactly(hint: string, word: string, pick: nat)
    requires |hint| == |word|
    ensures |Hidden(hint)| < 2 ==> Reveal(hint, word, pick) == hint
    ensures |Hidden(hint)| >= 2 ==> exists i :: i in Hidden(hint) && Reveal(hint, word, pick) == hint[i := word[i]]
  {
    UnrevealedCount(hint);
    var hidden := Unrevealed(hint);
    if |hidden| > 1 {
      var i := hidden[pick % |hidden|];
      assert i in Hidden(hint);
    }
  }

  /* and every hidden one can be picked. */
  lemma EveryHiddenCanShow(hint: string, word: string, i: nat) returns (pick: nat)
    requires |hint| == |word| && i in Hidden(hint) && |Hidden(hint)| >= 2
    ensures Reveal(hint, word, pick) == hint[i := word[i]]
  {
    UnrevealedCount(hint);
    pick := PlaceOf(Unrevealed(hint), i);
    RevealPicked(hint, word, pick);
  }

  lemma RevealPicked(hint: string, word: string, pick: nat)
    requires |hint| == |word| && 2 <= |Unrevealed(hint)| && pick < |Unrevealed(hint)|
    ensures var i := Unrevealed(hint)[pick]; Reveal(hint, word, pick) == hint[i := word[i]]
  {
    assert pick % |Unrevealed(hint)| == pick;
  }

  lemma PlaceOf(s: seq<nat>, i: nat) returns (k: nat)
    requires i in s
    ensures k < |s| && s[k] == i
  {
    k :| 0 <= k < |s| && s[k] == i;
  }

  lemma {:induction false} SubsetSize<T>(a: set<T>, b: set<T>)
    requires a <= b
    ensures |a| <= |b|
  {
    if a != {} {
      var x :| x in a;
      SubsetSize(a - {x}, b - {x});
    }
  }
}
