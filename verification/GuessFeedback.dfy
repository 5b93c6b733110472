/** What the room sees of a guess (backend/game_engine.py:505-576). */
module GuessFeedback {
  import opened Text
  import opened EditDistance
  import opened ChatMask
  import Game

  datatype Feedback =
    | Solved                  // the player is announced, not the word
    | VeryClose               // a system message instead of the guess
    | Echo(text: string)      // the guess itself, through the profanity filter

  function Normal(text: string): string { LowerAll(Strip(text)) }

  /* Two edits away at most, for a guess of at least three characters. */
  ghost predicate IsClose(text: string, word: string) {
    |Normal(text)| >= 3 && exists p :: IsScript(p, Normal(text), LowerAll(word)) && |p| - 1 <= 2
  }

  method JudgeGuess(text: string, word: string, listed: set<string>) returns (f: Feedback)
    ensures f.Solved? <==> Game.Correct(text, word)
    ensures f.VeryClose? <==> !Game.Correct(text, word) && IsClose(text, word)
    ensures f.Echo? ==> f.text == Filter(text, listed)
  {
    if Game.Correct(text, word) {
      return Solved;
    }
    var guess, target := Normal(text), LowerAll(word);
    if |guess| >= 3 {
      var distance := Levenshtein(guess, target);
      if distance <= 2 {
        return VeryClose;
      }
    }
    var echoed := FilterProfanity(text, listed);
    f := Echo(echoed);
  }

  // ---- What an echoed guess shows ----

  /* No whitespace at either end: how words and custom words come in. */
  predicate Trimmed(w: string) { w != [] ==> !IsSpace(w[0]) && !IsSpace(w[|w| - 1]) }

  /* The whitespace characters of a word. */
  function Gaps(w: string): nat {
    if w == [] then 0 else (if IsSpace(w[0]) then 1 else 0) + Gaps(w[1..])
  }

  lemma {:induction false} NoGaps(w: string)
    requires NoSpace(w)
    ensures Gaps(w) == 0
  {
    if w != [] {
      NoGaps(w[1..]);
    }
  }

  lemma {:induction false} GapsAfter(w: string, n: nat)
    requires n < |w| && NoSpace(w[..n]) && IsSpace(w[n])
    ensures Gaps(w) == 1 + Gaps(w[n + 1..])
  {
    if n > 0 {
      assert w[..n][0] == w[0];
      assert w[1..][..n - 1] == w[..n][1..];
      GapsAfter(w[1..], n - 1);
      assert w[1..][n..] == w[n + 1..];
    }
  }

  /* The word stands at i, across as many tokens as it has gaps and one, and shows at least one
     character of each. */
  ghost predicate Across(w: string, tokens: seq<string>, i: nat) {
    && Gaps(w) < |tokens|
    && Occurs(w, Join(tokens[..Gaps(w) + 1]), i)
    && (NoStar(w) ==> forall j :: 0 <= j <= Gaps(w) ==> !AllStars(tokens[j]))
  }

  /* Where the first token ends inside the word, the word goes on after a gap. */
  lemma BreakAt(w: string, tokens: seq<string>, i: nat)
    requires Tokens(tokens) && |tokens| > 1 && Trimmed(w) && w != []
    requires Occurs(w, Join(tokens), i) && i < |tokens[0]| < i + |w|
    ensures var n := |tokens[0]| - i;
            && n + 1 < |w| && NoSpace(w[..n]) && IsSpace(w[n]) && Trimmed(w[n + 1..])
            && Occurs(w[n + 1..], Join(tokens[1..]), 0)
  {
    var head, rest, t := tokens[0], Join(tokens[1..]), Join(tokens);
    var n := |head| - i;
    assert t == head + [' '] + rest;
    forall k | 0 <= k < n
      ensures !IsSpace(w[k])
    {
      OccursAt(w, t, i, i + k);
      assert t[i + k] == head[i + k];
    }
    OccursAt(w, t, i, |head|);
    assert t[|head|] == ' ';
    TailOccurs(w, t, i, n + 1, rest);
    assert tokens[1..][0] == tokens[1];
    assert rest[0] == tokens[1][0];
    OccursAt(w[n + 1..], rest, 0, 0);
  }

  lemma TailOccurs(w: string, t: string, i: nat, n: nat, rest: string)
    requires Occurs(w, t, i) && n <= |w| && i + n <= |t| && t[i + n..] == rest
    ensures Occurs(w[n..], rest, 0)
  {
    forall k | 0 <= k < |w| - n
      ensures Lower(rest[0 + k]) == Lower(w[n..][k])
    {
      OccursAt(w, t, i, i + n + k);
      assert rest[k] == t[i + n + k];
    }
  }

  /* A first character that is no star. */
  lemma ShownCharacter(w: string, token: string, t: string, i: nat)
    requires w != [] && Occurs(w, t, i) && i < |token| && token <= t && NoStar(w)
    ensures !AllStars(token)
  {
    OccursAt(w, t, i, i);
    assert token[i] == t[i];
  }

  lemma InsideFirst(w: string, tokens: seq<string>, i: nat)
    requires Tokens(tokens) && tokens != [] && w != []
    requires Occurs(w, Join(tokens), i) && i + |w| <= |tokens[0]|
    ensures Across(w, tokens, i)
  {
    var head, t := tokens[0], Join(tokens);
    assert head <= t;
    forall k | 0 <= k < |w|
      ensures Lower(head[i + k]) == Lower(w[k]) && !IsSpace(w[k])
    {
      OccursAt(w, t, i, i + k);
      assert t[i + k] == head[i + k];
    }
    NoGaps(w);
    assert tokens[..1] == [head];
    if NoStar(w) {
      ShownCharacter(w, head, t, i);
    }
  }

  lemma TailTokens(tokens: seq<string>)
    requires Tokens(tokens) && tokens != []
    ensures Tokens(tokens[1..])
  {
  }

  lemma {:induction false} FromFirst(w: string, tokens: seq<string>, i: nat)
    requires Tokens(tokens) && tokens != [] && Trimmed(w) && w != []
    requires Occurs(w, Join(tokens), i) && i < |tokens[0]|
    ensures Across(w, tokens, i)
    decreases |tokens|
  {
    var head := tokens[0];
    if i + |w| <= |head| {
      InsideFirst(w, tokens, i);
    } else {
      var n := |head| - i;
      assert |tokens| > 1;
      BreakAt(w, tokens, i);
      TailTokens(tokens);
      FromFirst(w[n + 1..], tokens[1..], 0);
      GapsAfter(w, n);
      OneMoreToken(w, tokens, i);
    }
  }

  lemma OneMoreToken(w: string, tokens: seq<string>, i: nat)
    requires |tokens| > 1 && w != [] && i < |tokens[0]| < i + |w| && Occurs(w, Join(tokens), i)
    requires var n := |tokens[0]| - i; Gaps(w) == 1 + Gaps(w[n + 1..]) && Across(w[n + 1..], tokens[1..], 0)
    ensures Across(w, tokens, i)
  {
    var head, g := tokens[0], Gaps(w);
    var n := |head| - i;
    var v := w[n + 1..];
    assert tokens[1..][..g] == tokens[..g + 1][1..];
    var rest := Join(tokens[1..][..g]);
    OccursOn(w, head, Join(tokens[1..]), rest, i);
    assert Join(tokens[..g + 1]) == head + [' '] + rest;
    if NoStar(w) {
      ShownCharacter(w, head, Join(tokens), i);
      assert NoStar(v);
      forall j | 0 <= j <= g
        ensures !AllStars(tokens[j])
      {
        if j > 0 {
          assert tokens[j] == tokens[1..][j - 1];
        }
      }
    }
  }

  /* An occurrence depends on no more of the text after the first gap than the word's tail needs. */
  lemma OccursOn(w: string, head: string, full: string, part: string, i: nat)
    requires i < |head| < i + |w| && Occurs(w, head + [' '] + full, i)
    requires Occurs(w[|head| - i + 1..], part, 0)
    ensures Occurs(w, head + [' '] + part, i)
  {
    var n := |head| - i;
    var t, u := head + [' '] + full, head + [' '] + part;
    forall k | 0 <= k < |w|
      ensures Lower(u[i + k]) == Lower(w[k])
    {
      if k <= n {
        OccursAt(w, t, i, i + k);
        assert u[i + k] == t[i + k];
      } else {
        OccursAt(w[n + 1..], part, 0, k - n - 1);
        assert u[i + k] == part[k - n - 1];
      }
    }
  }

  /* An occurrence in joined tokens begins in one of them. */
  lemma {:induction false} BeginsIn(w: string, tokens: seq<string>, i: nat) returns (j: nat, p: nat)
    requires Tokens(tokens) && Trimmed(w) && w != [] && Occurs(w, Join(tokens), i)
    ensures j < |tokens| && Across(w, tokens[j..], p)
    decreases |tokens|
  {
    var head := tokens[0];
    if i < |head| {
      FromFirst(w, tokens, i);
      assert tokens[0..] == tokens;
      j, p := 0, i;
    } else {
      var rest := Join(tokens[1..]);
      OccursAt(w, Join(tokens), i, i);
      OccursShift(w, head + [' '], rest, i);
      j, p := BeginsIn(w, tokens[1..], i - |head| - 1);
      assert tokens[1..][j..] == tokens[j + 1..];
      j := j + 1;
    }
  }

  lemma {:induction false} SuffixJoin(tokens: seq<string>, j: nat) returns (a: string)
    requires j < |tokens|
    ensures Join(tokens) == a + Join(tokens[j..])
  {
    if j == 0 {
      a := [];
      assert tokens[0..] == tokens;
    } else {
      a := SuffixJoin(tokens[1..], j - 1);
      assert tokens[1..][j - 1..] == tokens[j..];
      assert tokens[0] + [' '] + (a + Join(tokens[j..])) == (tokens[0] + [' '] + a) + Join(tokens[j..]);
      a := tokens[0] + [' '] + a;
    }
  }

  lemma {:induction false} PrefixJoin(tokens: seq<string>, n: nat) returns (b: string)
    requires 1 <= n <= |tokens|
    ensures Join(tokens) == Join(tokens[..n]) + b
  {
    var head := tokens[0];
    if n == 1 {
      assert tokens[..1] == [head];
      b := if |tokens| == 1 then [] else [' '] + Join(tokens[1..]);
    } else {
      b := PrefixJoin(tokens[1..], n - 1);
      assert tokens[..n][1..] == tokens[1..][..n - 1];
      assert head + [' '] + (Join(tokens[..n][1..]) + b) == (head + [' '] + Join(tokens[..n][1..])) + b;
    }
  }

  /* What stands in consecutive tokens stands in the joined text. */
  lemma WindowLeaks(w: string, tokens: seq<string>, j: nat, n: nat)
    requires 1 <= n && j + n <= |tokens| && Leaks(w, Join(tokens[j..j + n]))
    ensures Leaks(w, Join(tokens))
  {
    assert tokens[j..][..n] == tokens[j..j + n];
    PrefixLeaks(w, tokens[j..], n);
    SuffixLeaks(w, tokens, j);
  }

  lemma PrefixLeaks(w: string, tokens: seq<string>, n: nat)
    requires 1 <= n <= |tokens| && Leaks(w, Join(tokens[..n]))
    ensures Leaks(w, Join(tokens))
  {
    var b := PrefixJoin(tokens, n);
    LeaksOn(w, [], Join(tokens[..n]), b);
    assert [] + Join(tokens[..n]) == Join(tokens[..n]);
  }

  lemma LeaksOn(w: string, a: string, x: string, b: string)
    requires Leaks(w, x)
    ensures Leaks(w, a + x + b)
  {
    PieceLeaks(w, a + x + b, a, x, b);
  }

  lemma SuffixLeaks(w: string, tokens: seq<string>, j: nat)
    requires j < |tokens| && Leaks(w, Join(tokens[j..]))
    ensures Leaks(w, Join(tokens))
  {
    var a := SuffixJoin(tokens, j);
    LeaksOn(w, a, Join(tokens[j..]), []);
    assert a + Join(tokens[j..]) + [] == a + Join(tokens[j..]);
  }

  /* From token j on, as many tokens as the word has gaps and one show the word as echoed; */
  ghost predicate ShowsAt(text: string, word: string, listed: set<string>, j: nat) {
    var tokens, n := Split(text, []), Gaps(word) + 1;
    j + n <= |tokens| && Leaks(word, Join(CensorAll(tokens[j..j + n], listed)))
  }

  ghost predicate Uncensored(tokens: seq<string>, listed: set<string>, j: nat, n: nat)
    requires j + n <= |tokens|
  {
    forall k :: j <= k < j + n ==> !Profane(tokens[k], listed)
  }

  lemma UncensoredKept(tokens: seq<string>, listed: set<string>, j: nat, n: nat)
    requires j + n <= |tokens| && Uncensored(tokens, listed, j, n)
    ensures CensorAll(tokens[j..j + n], listed) == tokens[j..j + n]
  {
    var window := tokens[j..j + n];
    forall k | 0 <= k < n
      ensures !Profane(window[k], listed)
    {
      assert window[k] == tokens[j + k];
    }
  }

  /* or they hold it and none of them is censored. */
  ghost predicate HoldsAt(text: string, word: string, listed: set<string>, j: nat) {
    var tokens, n := Split(text, []), Gaps(word) + 1;
    && j + n <= |tokens| && Leaks(word, Join(tokens[j..j + n]))
    && Uncensored(tokens, listed, j, n)
  }

  lemma HoldsShows(text: string, word: string, listed: set<string>, j: nat)
    requires HoldsAt(text, word, listed, j)
    ensures ShowsAt(text, word, listed, j)
  {
    UncensoredKept(Split(text, []), listed, j, Gaps(word) + 1);
  }

  lemma ShowsLeaks(text: string, word: string, listed: set<string>, j: nat)
    requires ShowsAt(text, word, listed, j)
    ensures Leaks(word, Filter(text, listed))
  {
    var tokens, n := Split(text, []), Gaps(word) + 1;
    assert CensorAll(tokens, listed)[j..j + n] == CensorAll(tokens[j..j + n], listed);
    WindowLeaks(word, CensorAll(tokens, listed), j, n);
  }

  /* Tokens that show a character other than a star are not censored. */
  lemma ShownUncensored(tokens: seq<string>, listed: set<string>, j: nat, n: nat)
    requires j + n <= |tokens|
    requires forall k :: 0 <= k < n ==> !AllStars(CensorAll(tokens, listed)[j..][k])
    ensures Uncensored(tokens, listed, j, n)
  {
    var shown := CensorAll(tokens, listed);
    forall k | j <= k < j + n
      ensures !Profane(tokens[k], listed)
    {
      assert shown[j..][k - j] == Censor(tokens[k], listed);
    }
  }

  lemma LeakAcross(text: string, word: string, listed: set<string>) returns (j: nat, p: nat)
    requires word != [] && Trimmed(word) && Leaks(word, Filter(text, listed))
    ensures j < |Split(text, [])| && Across(word, CensorAll(Split(text, []), listed)[j..], p)
  {
    var tokens := Split(text, []);
    SplitTokens(text);
    CensorTokens(tokens, listed);
    var i: nat :| Occurs(word, Filter(text, listed), i);
    j, p := BeginsIn(word, CensorAll(tokens, listed), i);
  }

  lemma WindowShown(tokens: seq<string>, listed: set<string>, j: nat, n: nat)
    requires j + n <= |tokens|
    ensures CensorAll(tokens, listed)[j..][..n] == CensorAll(tokens[j..j + n], listed)
  {
  }

  lemma LeakShows(text: string, word: string, listed: set<string>) returns (j: nat)
    requires word != [] && Trimmed(word) && Leaks(word, Filter(text, listed))
    ensures ShowsAt(text, word, listed, j)
    ensures NoStar(word) ==> HoldsAt(text, word, listed, j)
  {
    var tokens, n := Split(text, []), Gaps(word) + 1;
    var p: nat;
    j, p := LeakAcross(text, word, listed);
    WindowShown(tokens, listed, j, n);
    if NoStar(word) {
      ShownUncensored(tokens, listed, j, n);
      UncensoredKept(tokens, listed, j, n);
    }
  }

  /* An echoed guess shows the word exactly when consecutive tokens do, one more than the word has
     gaps; a word without stars only where none of these tokens is censored. Unlike the drawer's
     chat, a wrong guess is not masked. */
  lemma EchoLeaksExactly(text: string, word: string, listed: set<string>)
    requires word != [] && Trimmed(word)
    ensures Leaks(word, Filter(text, listed)) <==> exists j: nat :: ShowsAt(text, word, listed, j)
    ensures NoStar(word) ==>
              (Leaks(word, Filter(text, listed)) <==> exists j: nat :: HoldsAt(text, word, listed, j))
  {
    if Leaks(word, Filter(text, listed)) {
      var j := LeakShows(text, word, listed);
    }
    if j: nat :| HoldsAt(text, word, listed, j) {
      HoldsShows(text, word, listed, j);
    }
    if j: nat :| ShowsAt(text, word, listed, j) {
      ShowsLeaks(text, word, listed, j);
    }
  }

  /* A guess longer than the word by more than two characters is neither correct nor close. */
  lemma LongGuessEchoed(text: string, word: string)
    requires |Normal(text)| > |word| + 2
    ensures !Game.Correct(text, word) && !IsClose(text, word)
  {
    forall p | IsScript(p, Normal(text), LowerAll(word))
      ensures |p| - 1 > 2
    {
      ScriptNotShorter(p, Normal(text), LowerAll(word));
      DistanceBounds(Normal(text), LowerAll(word));
    }
  }

  /* For instance "my apple" for the word "apple": wrong, not close, and echoed in full. */
  lemma WrongGuessCanLeak(listed: set<string>)
    requires !Profane("my", listed) && !Profane("apple", listed)
    ensures !Game.Correct("my apple", "apple") && !IsClose("my apple", "apple")
    ensures Leaks("apple", Filter("my apple", listed))
  {
    LongGuessIsWrong();
    LongGuessLeaks(listed);
  }

  lemma LongGuessLeaks(listed: set<string>)
    requires !Profane("my", listed) && !Profane("apple", listed)
    ensures Leaks("apple", Filter("my apple", listed))
  {
    assert "my" + " " + "apple" == "my apple";
    PaddedWordLeaks("my", "apple", listed);
  }

  lemma LongGuessIsWrong()
    ensures !Game.Correct("my apple", "apple") && !IsClose("my apple", "apple")
  {
    assert Strip("my apple") == "my apple";
    LongGuessEchoed("my apple", "apple");
  }

  /* The word after another one is echoed as it is. */
  lemma PaddedWordLeaks(first: string, word: string, listed: set<string>)
    requires first != [] && NoSpace(first) && word != [] && NoSpace(word)
    requires !Profane(first, listed) && !Profane(word, listed)
    ensures Leaks(word, Filter(first + " " + word, listed))
  {
    var t := first + " " + word;
    SplitWord(first, word);
    SplitLetters(word, []);
    assert [] + word == word;
    assert Split(t, []) == [first, word];
    assert CensorAll([first, word], listed) == [first, word];
    assert [first] + [word] == [first, word];
    JoinCons(first, [word]);
    assert t[|first| + 1..|first| + 1 + |word|] == word;
    OccursSame(word, t, |first| + 1);
  }

  lemma {:induction false} SplitWordFrom(token: string, word: string, rest: string)
    requires NoSpace(word) && token + word != []
    ensures Split(word + " " + rest, token) == [token + word] + Split(rest, [])
    decreases |word|
  {
    var t := word + " " + rest;
    if word == [] {
      assert t[0] == ' ' && t[1..] == rest && token + word == token;
    } else {
      assert t[0] == word[0] && t[1..] == word[1..] + " " + rest;
      assert (token + [word[0]]) + word[1..] == token + word;
      SplitWordFrom(token + [word[0]], word[1..], rest);
    }
  }

  lemma SplitWord(word: string, rest: string)
    requires NoSpace(word) && word != []
    ensures Split(word + " " + rest, []) == [word] + Split(rest, [])
  {
    assert [] + word == word;
    SplitWordFrom([], word, rest);
  }
}
