/** Keeping the secret word out of chat (backend/game_engine.py:41-53, 485-491 and 605-608): the
    word is masked, then the text is split at whitespace, censored and joined with single spaces. */
module ChatMask {
  import opened Text

  const MASK := "***"

  /* The word stands in the text at position i, up to letter case. */
  ghost predicate Occurs(w: string, t: string, i: nat) {
    i + |w| <= |t| && forall k :: 0 <= k < |w| ==> Lower(t[i + k]) == Lower(w[k])
  }

  ghost predicate Leaks(w: string, t: string) { exists i: nat :: Occurs(w, t, i) }

  predicate StartsWith(t: string, w: string) {
    |w| <= |t| && LowerAll(t[..|w|]) == LowerAll(w)
  }

  lemma StartsWithOccurs(t: string, w: string)
    ensures StartsWith(t, w) <==> Occurs(w, t, 0)
  {
    if |w| <= |t| {
      var a, b := LowerAll(t[..|w|]), LowerAll(w);
      assert forall k :: 0 <= k < |w| ==> a[k] == Lower(t[0 + k]) && b[k] == Lower(w[k]);
    }
  }

  /* Leftmost, non-overlapping replacement of the word. */
  function Mask(t: string, w: string): string
    requires w != []
    decreases |t|
  {
    if |t| < |w| then t
    else if StartsWith(t, w) then MASK + Mask(t[|w|..], w)
    else [t[0]] + Mask(t[1..], w)
  }

  /* str.split() with the token read so far. */
  function Split(t: string, token: string): seq<string>
    decreases |t|
  {
    var done := if token == [] then [] else [token];
    if t == [] then done
    else if IsSpace(t[0]) then done + Split(t[1..], [])
    else Split(t[1..], token + [t[0]])
  }

  function Stars(n: nat): string { seq(n, _ => '*') }

  /* The letters and digits of a token in lower case. */
  function Clean(token: string): string {
    if token == [] then [] else (if IsAlnum(token[0]) then [Lower(token[0])] else []) + Clean(token[1..])
  }

  /* `listed` is the profanity list. */
  predicate Profane(token: string, listed: set<string>) { Clean(token) in listed }

  function Censor(token: string, listed: set<string>): string {
    if Profane(token, listed) then Stars(|token|) else token
  }

  /* A listed token becomes as many stars as it has characters, and any other stays. */
  lemma CensorExactly(token: string, listed: set<string>)
    ensures |Censor(token, listed)| == |token|
    ensures Clean(token) in listed ==> AllStars(Censor(token, listed))
    ensures Clean(token) !in listed ==> Censor(token, listed) == token
  {
  }

  function CensorAll(tokens: seq<string>, listed: set<string>): seq<string> {
    seq(|tokens|, i requires 0 <= i < |tokens| => Censor(tokens[i], listed))
  }

  function Join(tokens: seq<string>): string {
    if tokens == [] then []
    else if |tokens| == 1 then tokens[0]
    else tokens[0] + [' '] + Join(tokens[1..])
  }

  function Filter(t: string, listed: set<string>): string { Join(CensorAll(Split(t, []), listed)) }

  method FilterProfanity(text: string, listed: set<string>) returns (r: string)
    ensures r == Filter(text, listed)
  {
    if text == "" {
      return text;
    }
    var words := Split(text, []);
    var censored: seq<string> := [];
    for i := 0 to |words|
      invariant censored == CensorAll(words[..i], listed)
    {
      if Profane(words[i], listed) {
        censored := censored + [Stars(|words[i]|)];
      } else {
        censored := censored + [words[i]];
      }
    }
    assert words[..|words|] == words;
    r := Join(censored);
  }

  function Chat(t: string, w: string, listed: set<string>): string
    requires w != []
  {
    Filter(Mask(t, w), listed)
  }

  ghost predicate NoStar(w: string) { forall k :: 0 <= k < |w| ==> w[k] != '*' }

  predicate AllStars(t: string) { forall k :: 0 <= k < |t| ==> t[k] == '*' }

  ghost predicate NoSpace(w: string) { forall k :: 0 <= k < |w| ==> !IsSpace(w[k]) }

  // ---- Masking ----

  /* Three stars in a row. */
  ghost predicate StarsAt(t: string, p: nat) {
    p + 3 <= |t| && t[p] == '*' && t[p + 1] == '*' && t[p + 2] == '*'
  }

  /* A stretch that no mask can begin, end or lie in. */
  ghost predicate Closed(t: string) {
    t != [] ==> t[|t| - 1] != '*' && forall p: nat :: !StarsAt(t, p)
  }

  lemma ClosedTail(t: string)
    requires t != [] && Closed(t)
    ensures Closed(t[1..])
  {
    forall p: nat | StarsAt(t[1..], p)
      ensures false
    {
      assert StarsAt(t, p + 1);
    }
  }

  /* A closed beginning of the masked text is the beginning of the text itself. */
  lemma {:induction false} MaskPrefix(t: string, w: string, n: nat)
    requires w != [] && n <= |Mask(t, w)| && Closed(Mask(t, w)[..n])
    ensures n <= |t| && Mask(t, w)[..n] == t[..n]
    decreases |t|
  {
    if n > 0 && |t| >= |w| {
      if StartsWith(t, w) {
        MaskOpen(Mask(t[|w|..], w), n);
      } else {
        var rest := Mask(t[1..], w);
        ClosedStep(t[0], rest, n);
        MaskPrefix(t[1..], w, n - 1);
        assert t[..n] == [t[0]] + t[1..][..n - 1];
      }
    }
  }

  /* What begins with a mask is not closed. */
  lemma MaskOpen(rest: string, n: nat)
    requires 0 < n <= |MASK + rest|
    ensures !Closed((MASK + rest)[..n])
  {
    assert n >= 3 ==> StarsAt((MASK + rest)[..n], 0);
  }

  lemma ClosedStep(c: char, rest: string, n: nat)
    requires 0 < n <= |rest| + 1 && Closed(([c] + rest)[..n])
    ensures Closed(rest[..n - 1]) && ([c] + rest)[..n] == [c] + rest[..n - 1]
  {
    ClosedTail(([c] + rest)[..n]);
    assert ([c] + rest)[..n][1..] == rest[..n - 1];
  }

  lemma OccursAt(w: string, t: string, i: nat, p: nat)
    requires Occurs(w, t, i) && i <= p < i + |w|
    ensures Lower(t[p]) == Lower(w[p - i])
  {
    assert t[i + (p - i)] == t[p];
  }

  lemma OccursShift(w: string, a: string, b: string, i: nat)
    requires Occurs(w, a + b, i) && i >= |a|
    ensures Occurs(w, b, i - |a|)
  {
    var j := i - |a|;
    forall k | 0 <= k < |w|
      ensures Lower(b[j + k]) == Lower(w[k])
    {
      OccursAt(w, a + b, i, i + k);
      assert (a + b)[i + k] == b[j + k];
    }
  }

  /* Neither an end of the word nor three stars in it can come from a mask. */
  ghost predicate StarSafe(w: string) {
    w != [] ==> w[0] != '*' && Closed(w)
  }

  /* An occurrence has its stars where the word has them. */
  lemma OccursStars(w: string, t: string, i: nat)
    requires Occurs(w, t, i)
    ensures forall k :: 0 <= k < |w| ==> (t[i + k] == '*' <==> w[k] == '*')
  {
  }

  lemma OccursClosed(w: string, t: string, i: nat)
    requires w != [] && Closed(w) && Occurs(w, t, i)
    ensures Closed(t[i..i + |w|])
  {
    OccursStars(w, t, i);
    var u := t[i..i + |w|];
    forall k | 0 <= k < |w|
      ensures u[k] == '*' <==> w[k] == '*'
    {
      assert u[k] == t[i + k];
    }
    forall p: nat | StarsAt(u, p)
      ensures false
    {
      assert StarsAt(w, p);
    }
  }

  /* Leftmost replacement leaves no occurrence of a word that the mask cannot help to spell. */
  lemma {:induction false} MaskHides(t: string, w: string, i: nat)
    requires w != [] && StarSafe(w)
    ensures !Occurs(w, Mask(t, w), i)
    decreases |t|
  {
    var m := Mask(t, w);
    if Occurs(w, m, i) && |t| >= |w| {
      if StartsWith(t, w) {
        var rest := Mask(t[|w|..], w);
        if i >= 3 {
          OccursShift(w, MASK, rest, i);
          MaskHides(t[|w|..], w, i - 3);
        } else {
          OccursAt(w, m, i, i);
        }
      } else if i > 0 {
        OccursShift(w, [t[0]], Mask(t[1..], w), i);
        MaskHides(t[1..], w, i - 1);
      } else {
        OccursPrefix(w, m, t);
        StartsWithOccurs(t, w);
      }
    }
  }

  lemma OccursPrefix(w: string, m: string, t: string)
    requires w != [] && StarSafe(w) && m == Mask(t, w) && Occurs(w, m, 0)
    ensures Occurs(w, t, 0)
  {
    OccursClosed(w, m, 0);
    assert m[0..0 + |w|] == m[..|w|];
    MaskPrefix(t, w, |w|);
    forall k | 0 <= k < |w|
      ensures Lower(t[0 + k]) == Lower(w[k])
    {
      OccursAt(w, m, 0, k);
      assert t[..|w|][k] == m[..|w|][k];
    }
  }

  // ---- Splitting and joining ----

  /* Whitespace or the end of the text on both sides. */
  ghost predicate Bounded(a: string, b: string) {
    (a != [] ==> IsSpace(a[|a| - 1])) && (b != [] ==> IsSpace(b[0]))
  }

  /* A token of the split text is a piece of it, whole and without whitespace. */
  lemma {:induction false} TokenIsPiece(t: string, token: string, j: nat) returns (a: string, b: string)
    requires NoSpace(token) && j < |Split(t, token)|
    ensures var x := Split(t, token)[j];
            x != [] && NoSpace(x) && token + t == a + x + b && Bounded(a, b)
    decreases |t|
  {
    var done := if token == [] then [] else [token];
    if t == [] {
      a, b := [], [];
    } else if IsSpace(t[0]) {
      if j < |done| {
        a, b := [], t;
      } else {
        var x := Split(t[1..], [])[j - |done|];
        a, b := TokenIsPiece(t[1..], [], j - |done|);
        AroundPiece(token, t, a, x, b);
        a := token + [t[0]] + a;
      }
    } else {
      a, b := TokenIsPiece(t[1..], token + [t[0]], j);
      assert token + t == (token + [t[0]]) + t[1..];
    }
  }

  lemma AroundPiece(token: string, t: string, a: string, x: string, b: string)
    requires t != [] && [] + t[1..] == a + x + b
    ensures token + t == (token + [t[0]] + a) + x + b
  {
    var rest := a + x + b;
    assert t == [t[0]] + rest;
    assert token + ([t[0]] + rest) == (token + [t[0]]) + rest;
    Regroup(token + [t[0]], a, x, b);
  }

  lemma Regroup(p: string, a: string, x: string, b: string)
    ensures p + (a + x + b) == (p + a) + x + b
  {
  }

  function Concat(tokens: seq<string>): string {
    if tokens == [] then [] else tokens[0] + Concat(tokens[1..])
  }

  function Letters(t: string): string {
    if t == [] then [] else (if IsSpace(t[0]) then [] else [t[0]]) + Letters(t[1..])
  }

  /* The tokens hold every character that is not whitespace, in order. */
  lemma {:induction false} SplitKeepsLetters(t: string, token: string)
    ensures Concat(Split(t, token)) == token + Letters(t)
    decreases |t|
  {
    if t == [] {
      assert token + [] == token;
    } else if IsSpace(t[0]) {
      SplitKeepsLetters(t[1..], []);
      var rest := Split(t[1..], []);
      assert [] + Letters(t[1..]) == Letters(t);
      if token == [] {
        assert [] + rest == rest;
        assert [] + Letters(t) == Letters(t);
      } else {
        assert ([token] + rest)[1..] == rest;
      }
    } else {
      SplitKeepsLetters(t[1..], token + [t[0]]);
      assert (token + [t[0]]) + Letters(t[1..]) == token + ([t[0]] + Letters(t[1..]));
    }
  }

  ghost predicate Tokens(tokens: seq<string>) {
    forall j :: 0 <= j < |tokens| ==> tokens[j] != [] && NoSpace(tokens[j])
  }

  lemma SplitTokens(t: string)
    ensures Tokens(Split(t, []))
  {
    forall j | 0 <= j < |Split(t, [])|
      ensures Split(t, [])[j] != [] && NoSpace(Split(t, [])[j])
    {
      var a, b := TokenIsPiece(t, [], j);
    }
  }

  lemma CensorTokens(tokens: seq<string>, listed: set<string>)
    requires Tokens(tokens)
    ensures Tokens(CensorAll(tokens, listed))
  {
  }

  lemma PieceLeaks(w: string, t: string, a: string, x: string, b: string)
    requires t == a + x + b && Leaks(w, x)
    ensures Leaks(w, t)
  {
    var i: nat :| Occurs(w, x, i);
    forall k | 0 <= k < |w|
      ensures Lower(t[|a| + i + k]) == Lower(w[k])
    {
      assert t[|a| + i + k] == x[i + k];
    }
    assert Occurs(w, t, |a| + i);
  }

  /* An occurrence of a word without whitespace in joined tokens lies inside one token. */
  lemma {:induction false} LeakInToken(w: string, tokens: seq<string>)
    requires w != [] && NoSpace(w) && Leaks(w, Join(tokens))
    ensures exists j :: 0 <= j < |tokens| && Leaks(w, tokens[j])
    decreases |tokens|
  {
    var t := Join(tokens);
    var i: nat :| Occurs(w, t, i);
    if |tokens| == 1 {
      assert Leaks(w, tokens[0]);
    } else if |tokens| > 1 {
      var head, rest := tokens[0], Join(tokens[1..]);
      if i + |w| <= |head| {
        forall k | 0 <= k < |w|
          ensures Lower(head[i + k]) == Lower(w[k])
        {
          OccursAt(w, t, i, i + k);
        }
        assert Occurs(w, head, i);
      } else if i > |head| {
        OccursShift(w, head + [' '], rest, i);
        LeakInToken(w, tokens[1..]);
        var j :| 0 <= j < |tokens[1..]| && Leaks(w, tokens[1..][j]);
        assert Leaks(w, tokens[j + 1]);
      } else {
        OccursAt(w, t, i, |head|);
        assert false;
      }
    }
  }

  lemma CensoredSafe(w: string, token: string, listed: set<string>)
    requires w != [] && w[0] != '*' && Leaks(w, Censor(token, listed))
    ensures Censor(token, listed) == token
  {
    var i: nat :| Occurs(w, Censor(token, listed), i);
    OccursAt(w, Censor(token, listed), i, i);
  }

  lemma FilterAddsNoLeak(w: string, t: string, listed: set<string>)
    requires w != [] && w[0] != '*' && NoSpace(w) && Leaks(w, Filter(t, listed))
    ensures Leaks(w, t)
  {
    var tokens := Split(t, []);
    LeakInToken(w, CensorAll(tokens, listed));
    var j :| 0 <= j < |tokens| && Leaks(w, CensorAll(tokens, listed)[j]);
    CensoredSafe(w, tokens[j], listed);
    var a, b := TokenIsPiece(t, [], j);
    assert [] + t == t;
    PieceLeaks(w, t, a, tokens[j], b);
  }

  /* For every text and profanity list, a word without whitespace that has no star at its ends and
     no three stars in a row does not get through. */
  lemma ChatHidesWord(t: string, w: string, listed: set<string>)
    requires w != [] && StarSafe(w) && NoSpace(w)
    ensures !Leaks(w, Chat(t, w, listed))
  {
    if Leaks(w, Chat(t, w, listed)) {
      FilterAddsNoLeak(w, Mask(t, w), listed);
      var i: nat :| Occurs(w, Mask(t, w), i);
      MaskHides(t, w, i);
    }
  }

  lemma OccursSame(w: string, t: string, i: nat)
    requires i + |w| <= |t| && t[i..i + |w|] == w
    ensures Leaks(w, t)
  {
    forall k | 0 <= k < |w|
      ensures Lower(t[i + k]) == Lower(w[k])
    {
      assert t[i..i + |w|][k] == t[i + k];
    }
    assert Occurs(w, t, i);
  }

  lemma {:induction false} SplitLetters(t: string, token: string)
    requires NoSpace(t) && token + t != []
    ensures Split(t, token) == [token + t]
    decreases |t|
  {
    if t == [] {
      assert token + t == token;
    } else {
      assert (token + [t[0]]) + t[1..] == token + t;
      SplitLetters(t[1..], token + [t[0]]);
    }
  }

  lemma JoinCons(token: string, rest: seq<string>)
    requires rest != []
    ensures Join([token] + rest) == token + [' '] + Join(rest)
  {
    assert ([token] + rest)[1..] == rest;
  }

  // ---- Words with whitespace ----

  /* The word could stand in text whose only whitespace is isolated spaces, and does hold one. */
  ghost predicate Spaced(w: string) {
    && !NoSpace(w)
    && (forall k :: 0 <= k < |w| && IsSpace(w[k]) ==> w[k] == ' ')
    && Isolated(w)
  }

  ghost predicate Isolated(t: string) {
    forall k :: 0 <= k < |t| - 1 ==> !(IsSpace(t[k]) && IsSpace(t[k + 1]))
  }

  /* Joined tokens hold no other whitespace than isolated inner spaces. */
  ghost predicate Tidy(t: string) {
    && (forall k :: 0 <= k < |t| && IsSpace(t[k]) ==> t[k] == ' ')
    && Isolated(t)
    && (t != [] ==> !IsSpace(t[0]))
  }

  lemma {:induction false} JoinTidy(tokens: seq<string>)
    requires Tokens(tokens)
    ensures Tidy(Join(tokens))
    decreases |tokens|
  {
    if |tokens| > 1 {
      var head, rest := tokens[0], Join(tokens[1..]);
      JoinTidy(tokens[1..]);
      var t := head + [' '] + rest;
      forall k | 0 <= k < |t|
        ensures t[k] == if k < |head| then head[k] else if k == |head| then ' ' else rest[k - |head| - 1]
      {
      }
    }
  }

  lemma FilterTidy(t: string, listed: set<string>)
    ensures Tidy(Filter(t, listed))
  {
    SplitTokens(t);
    CensorTokens(Split(t, []), listed);
    JoinTidy(CensorAll(Split(t, []), listed));
  }

  /* What stands in a tidy text has no other whitespace than isolated spaces. */
  lemma TidyPiece(w: string, t: string, i: nat)
    requires Tidy(t) && Occurs(w, t, i)
    ensures forall k :: 0 <= k < |w| && IsSpace(w[k]) ==> w[k] == ' '
    ensures Isolated(w)
  {
    forall k | 0 <= k < |w|
      ensures IsSpace(w[k]) ==> w[k] == ' '
    {
      OccursAt(w, t, i, i + k);
    }
    forall k | 0 <= k < |w| - 1
      ensures !(IsSpace(w[k]) && IsSpace(w[k + 1]))
    {
      var p := i + k;
      OccursAt(w, t, i, p);
      OccursAt(w, t, i, p + 1);
      assert !(IsSpace(t[p]) && IsSpace(t[p + 1]));
    }
  }
}
