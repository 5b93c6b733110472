/** Which secret words some chat message brings through (backend/game_engine.py:41-53 and 605-608):
    words whose stars a mask can supply, and words whose spaces can be typed as other whitespace,
    unless the profanity list censors a token inside them. */
module ChatLeaks {
  import opened Text
  import opened ChatMask

  // ---- What the mask leaves ----

  ghost predicate NoneBefore(w: string, t: string, n: nat) { forall p: nat :: p < n ==> !Occurs(w, t, p) }

  /* Text before the first occurrence is kept. */
  lemma {:induction false} MaskSkip(t: string, w: string, n: nat)
    requires w != [] && n <= |t| && NoneBefore(w, t, n)
    ensures Mask(t, w) == t[..n] + Mask(t[n..], w)
    decreases n
  {
    if n == 0 {
      assert t[..0] + Mask(t[0..], w) == Mask(t[0..], w);
    } else if |t| < |w| {
      assert t == t[..n] + t[n..];
    } else {
      NotLater(w, t, n);
      MaskSkip(t[1..], w, n - 1);
      assert t[1..][n - 1..] == t[n..];
      MaskStep(t, w);
      Recombine(t, n, Mask(t[n..], w));
    }
  }

  lemma MaskStep(t: string, w: string)
    requires w != [] && |w| <= |t| && !Occurs(w, t, 0)
    ensures Mask(t, w) == [t[0]] + Mask(t[1..], w)
  {
    StartsWithOccurs(t, w);
  }

  lemma Recombine(t: string, n: nat, m: string)
    requires 0 < n <= |t|
    ensures [t[0]] + (t[1..][..n - 1] + m) == t[..n] + m
  {
    assert t[..n] == [t[0]] + t[1..][..n - 1];
  }

  lemma NotLater(w: string, t: string, n: nat)
    requires 0 < n <= |t| && NoneBefore(w, t, n)
    ensures NoneBefore(w, t[1..], n - 1)
  {
    forall p: nat | p < n - 1
      ensures !Occurs(w, t[1..], p)
    {
      if Occurs(w, t[1..], p) {
        OccursLater(w, t, p);
      }
    }
  }

  lemma OccursLater(w: string, t: string, p: nat)
    requires t != [] && Occurs(w, t[1..], p)
    ensures Occurs(w, t, p + 1)
  {
    forall k | 0 <= k < |w|
      ensures Lower(t[p + 1 + k]) == Lower(w[k])
    {
      OccursAt(w, t[1..], p, p + k);
      assert t[1..][p + k] == t[p + 1 + k];
    }
  }

  /* The first occurrence becomes three stars, and masking goes on behind it. */
  lemma MaskExactly(t: string, w: string, n: nat)
    requires w != [] && NoneBefore(w, t, n) && Occurs(w, t, n)
    ensures Mask(t, w) == t[..n] + ['*', '*', '*'] + Mask(t[n + |w|..], w)
  {
    MaskSkip(t, w, n);
    var u := t[n..];
    assert t[..n] + u == t;
    OccursShift(w, t[..n], u, n);
    StartsWithOccurs(u, w);
    assert u[|w|..] == t[n + |w|..];
    assert Mask(u, w) == MASK + Mask(u[|w|..], w);
    assert t[..n] + (MASK + Mask(u[|w|..], w)) == t[..n] + MASK + Mask(u[|w|..], w);
  }

  /* The word between x and y, first occurring there, is replaced there and nowhere else. */
  lemma MaskOnce(x: string, w: string, y: string)
    requires w != [] && |y| < |w| && NoneBefore(w, x + w + y, |x|)
    ensures Mask(x + w + y, w) == x + MASK + y
  {
    var t := x + w + y;
    MaskSkip(t, w, |x|);
    assert t[..|x|] == x && t[|x|..] == w + y;
    assert (w + y)[..|w|] == w && (w + y)[|w|..] == y;
    assert StartsWith(w + y, w);
  }

  lemma MaskNoSpace(x: string, y: string)
    requires NoSpace(x) && NoSpace(y)
    ensures NoSpace(x + MASK + y)
  {
    var m := x + MASK + y;
    assert forall k :: 0 <= k < |m| ==>
        m[k] == if k < |x| then x[k] else if k < |x| + 3 then '*' else y[k - |x| - 3];
  }

  // ---- Padding against the profanity list ----

  function Pad(c: char, n: nat): string { seq(n, _ => c) }

  /* A letter other than the given character, in either case. */
  function OtherLetter(c: char): char { if Lower(c) == 'x' then 'y' else 'x' }

  lemma {:induction false} LongerThanAll(listed: set<string>) returns (n: nat)
    ensures forall s :: s in listed ==> |s| < n
  {
    if listed == {} {
      n := 0;
    } else {
      var s :| s in listed;
      n := LongerThanAll(listed - {s});
      n := if n <= |s| then |s| + 1 else n;
    }
  }

  lemma {:induction false} CleanConcat(a: string, b: string)
    ensures Clean(a + b) == Clean(a) + Clean(b)
  {
    if a == [] {
      assert a + b == b;
    } else {
      CleanConcat(a[1..], b);
      assert (a + b)[1..] == a[1..] + b;
    }
  }

  lemma {:induction false} CleanPad(c: char, n: nat)
    requires IsAlnum(c)
    ensures |Clean(Pad(c, n))| == n
  {
    if n > 0 {
      assert Pad(c, n)[1..] == Pad(c, n - 1);
      CleanPad(c, n - 1);
    }
  }

  /* Enough letters before or after it keep a token off the list. */
  lemma PaddedNotProfane(a: string, c: char, n: nat, b: string, listed: set<string>)
    requires IsAlnum(c) && forall s :: s in listed ==> |s| < n
    ensures !Profane(a + Pad(c, n) + b, listed)
  {
    CleanConcat(a, Pad(c, n));
    CleanConcat(a + Pad(c, n), b);
    CleanPad(c, n);
  }

  // ---- Words with stars ----

  /* Text of one token is broadcast as it is, unless it is censored. */
  lemma OneToken(t: string, listed: set<string>)
    requires t != [] && NoSpace(t) && !Profane(t, listed)
    ensures Filter(t, listed) == t
  {
    SplitLetters(t, []);
    assert [] + t == t;
    assert CensorAll([t], listed) == [t];
  }

  lemma LeakBetween(x: string, w: string, y: string, listed: set<string>)
    requires w != [] && NoSpace(x) && NoSpace(w) && NoSpace(y) && |y| < |w|
    requires NoneBefore(w, x + w + y, |x|)
    requires Leaks(w, x + MASK + y) && !Profane(x + MASK + y, listed)
    ensures Leaks(w, Chat(x + w + y, w, listed))
  {
    MaskOnce(x, w, y);
    MaskNoSpace(x, y);
    OneToken(x + MASK + y, listed);
  }

  /* Padding with a letter that the word does not begin with adds no earlier occurrence. */
  lemma PadBefore(c: char, k: nat, t: string, w: string, n: nat)
    requires w != [] && Lower(c) != Lower(w[0]) && NoneBefore(w, t, n)
    ensures NoneBefore(w, Pad(c, k) + t, k + n)
  {
    var u := Pad(c, k) + t;
    forall p: nat | p < k + n
      ensures !Occurs(w, u, p)
    {
      if Occurs(w, u, p) {
        OccursAt(w, u, p, p);
        if p >= k {
          OccursShift(w, Pad(c, k), t, p);
        }
      }
    }
  }

  /* A word that comes out around its own mask comes out whatever the list, behind enough padding. */
  lemma PaddedLeak(x: string, w: string, y: string, listed: set<string>) returns (t: string)
    requires w != [] && NoSpace(w) && SpelledAround(x, w, y)
    ensures Leaks(w, Chat(t, w, listed))
  {
    var n := LongerThanAll(listed);
    var c := OtherLetter(w[0]);
    var p := Pad(c, n);
    PadBefore(c, n, x + w + y, w, |x|);
    Regroup(p, x, w, y);
    Regroup(p, x, MASK, y);
    PieceLeaks(w, (p + x) + MASK + y, p, x + MASK + y, []);
    PaddedNotProfane([], c, n, x + MASK + y, listed);
    assert [] + p + (x + MASK + y) == p + (x + MASK + y);
    t := (p + x) + w + y;
    LeakBetween(p + x, w, y, listed);
  }

  /* Between x and y the word is first found, and the mask in its place makes it stand there again. */
  ghost predicate SpelledAround(x: string, w: string, y: string) {
    && NoSpace(x) && NoSpace(y) && |y| < |w|
    && NoneBefore(w, x + w + y, |x|) && Leaks(w, x + MASK + y)
  }

  /* A leading star: the word followed by its tail. The mask ends where the tail begins. */
  lemma LeadingStarLeaks(w: string, listed: set<string>) returns (t: string)
    requires w != [] && NoSpace(w) && w[0] == '*'
    ensures Leaks(w, Chat(t, w, listed))
  {
    var m := [] + MASK + w[1..];
    assert m[2..2 + |w|] == w;
    OccursSame(w, m, 2);
    t := PaddedLeak([], w, w[1..], listed);
  }

  /* A word found in its head followed by itself, before its copy, begins with its last letter. */
  lemma EarlyInHead(w: string, p: nat)
    requires w != [] && p < |w| - 1 && Occurs(w, w[..|w| - 1] + w + [], p)
    ensures Lower(w[0]) == Lower(w[|w| - 1])
  {
    var n := |w| - 1;
    var t := w[..n] + w + [];
    OccursAt(w, t, p, p);
    OccursAt(w, t, p, p + n);
    assert t[p] == w[p] && t[p + n] == w[p];
  }

  lemma NoneInHead(w: string)
    requires w != [] && w[0] != '*' && w[|w| - 1] == '*'
    ensures NoneBefore(w, w[..|w| - 1] + w + [], |w| - 1)
  {
    var x := w[..|w| - 1];
    forall p: nat | p < |x|
      ensures !Occurs(w, x + w + [], p)
    {
      if Occurs(w, x + w + [], p) {
        EarlyInHead(w, p);
      }
    }
  }

  /* A trailing star: the word's head followed by the word. */
  lemma TrailingStarLeaks(w: string, listed: set<string>) returns (t: string)
    requires w != [] && NoSpace(w) && w[0] != '*' && w[|w| - 1] == '*'
    ensures Leaks(w, Chat(t, w, listed))
  {
    NoneInHead(w);
    var x := w[..|w| - 1];
    var m := x + MASK + [];
    assert m[0..0 + |w|] == w;
    OccursSame(w, m, 0);
    t := PaddedLeak(x, w, [], listed);
  }

  /* A word found before its copy between what surrounds its stars has stars there as well. */
  lemma EarlyStars(w: string, a: nat, p: nat)
    requires StarsAt(w, a) && p < a && Occurs(w, w[..a] + w + w[a + 3..], p)
    ensures StarsAt(w, p)
  {
    var t := w[..a] + w + w[a + 3..];
    OccursAt(w, t, p, p + a);
    OccursAt(w, t, p, p + a + 1);
    OccursAt(w, t, p, p + a + 2);
    assert t[a + p] == w[p] && t[a + p + 1] == w[p + 1] && t[a + p + 2] == w[p + 2];
  }

  lemma AroundStars(w: string, a: nat)
    requires StarsAt(w, a)
    ensures w[..a] + MASK + w[a + 3..] == w
  {
    assert w[a..a + 3] == MASK;
    assert w == w[..a] + w[a..a + 3] + w[a + 3..];
  }

  lemma NoneBeforeStars(w: string, a: nat)
    requires StarsAt(w, a) && forall p: nat :: p < a ==> !StarsAt(w, p)
    ensures NoneBefore(w, w[..a] + w + w[a + 3..], a)
  {
    var t := w[..a] + w + w[a + 3..];
    forall p: nat | p < a
      ensures !Occurs(w, t, p)
    {
      if Occurs(w, t, p) {
        EarlyStars(w, a, p);
      }
    }
  }

  lemma {:induction false} FirstStars(w: string, p: nat) returns (a: nat)
    requires StarsAt(w, p)
    ensures StarsAt(w, a) && forall q: nat :: q < a ==> !StarsAt(w, q)
    decreases p
  {
    if q: nat :| q < p && StarsAt(w, q) {
      a := FirstStars(w, q);
    } else {
      a := p;
    }
  }

  /* Three stars inside: the word with what surrounds the first of them on either side. */
  lemma StarRunLeaks(w: string, p: nat, listed: set<string>) returns (t: string)
    requires NoSpace(w) && StarsAt(w, p)
    ensures Leaks(w, Chat(t, w, listed))
  {
    var a := FirstStars(w, p);
    SpelledAroundStars(w, a);
    t := PaddedLeak(w[..a], w, w[a + 3..], listed);
  }

  lemma SpelledAroundStars(w: string, a: nat)
    requires NoSpace(w) && StarsAt(w, a) && forall p: nat :: p < a ==> !StarsAt(w, p)
    ensures SpelledAround(w[..a], w, w[a + 3..])
  {
    NoneBeforeStars(w, a);
    AroundStars(w, a);
    assert w[0..0 + |w|] == w;
    OccursSame(w, w, 0);
  }

  /* Whatever stars a word has where a mask can touch it, some text brings it through any list. */
  lemma StarWordLeaks(w: string, listed: set<string>) returns (t: string)
    requires w != [] && NoSpace(w) && !StarSafe(w)
    ensures Leaks(w, Chat(t, w, listed))
  {
    if w[0] == '*' {
      t := LeadingStarLeaks(w, listed);
    } else if w[|w| - 1] == '*' {
      t := TrailingStarLeaks(w, listed);
    } else {
      var p: nat :| StarsAt(w, p);
      t := StarRunLeaks(w, p, listed);
    }
  }

  // ---- Words with spaces ----

  function Tabbed(w: string): string {
    seq(|w|, k requires 0 <= k < |w| => if w[k] == ' ' then '\t' else w[k])
  }

  function Spaces(t: string): string {
    seq(|t|, k requires 0 <= k < |t| => if IsSpace(t[k]) then ' ' else t[k])
  }

  /* A token ends at whitespace that is followed by another token. */
  lemma SplitAtSpace(t: string, token: string)
    requires token != [] && |t| >= 2 && IsSpace(t[0]) && !IsSpace(t[1])
    ensures Split(t, token) == [token] + Split(t[2..], [t[1]])
  {
    assert t[1..][0] == t[1] && t[1..][1..] == t[2..];
    assert [] + [t[1]] == [t[1]];
  }

  lemma SpacesAtSpace(t: string, token: string)
    requires |t| >= 2 && IsSpace(t[0]) && !IsSpace(t[1])
    ensures token + [' '] + ([t[1]] + Spaces(t[2..])) == token + Spaces(t)
  {
    assert Spaces(t) == [' '] + ([t[1]] + Spaces(t[2..]));
  }

  lemma SpacesAtLetter(t: string, token: string)
    requires t != [] && !IsSpace(t[0])
    ensures (token + [t[0]]) + Spaces(t[1..]) == token + Spaces(t)
  {
    assert Spaces(t) == [t[0]] + Spaces(t[1..]);
  }

  /* Splitting and joining turns isolated inner whitespace into single spaces. */
  lemma {:induction false} JoinSplit(t: string, token: string)
    requires token != [] && Isolated(t) && (t != [] ==> !IsSpace(t[|t| - 1]))
    ensures Split(t, token) != []
    ensures Join(Split(t, token)) == token + Spaces(t)
    decreases |t|
  {
    if t == [] {
      assert token + Spaces(t) == token;
    } else if IsSpace(t[0]) {
      assert !(IsSpace(t[0]) && IsSpace(t[0 + 1]));
      IsolatedTail(t, 2);
      JoinSplit(t[2..], [t[1]]);
      SplitAtSpace(t, token);
      JoinCons(token, Split(t[2..], [t[1]]));
      SpacesAtSpace(t, token);
    } else {
      IsolatedTail(t, 1);
      JoinSplit(t[1..], token + [t[0]]);
      SpacesAtLetter(t, token);
    }
  }

  lemma IsolatedTail(t: string, n: nat)
    requires Isolated(t) && n <= |t|
    ensures Isolated(t[n..])
  {
    var r := t[n..];
    forall k | 0 <= k < |r| - 1
      ensures !(IsSpace(r[k]) && IsSpace(r[k + 1]))
    {
      assert r[k] == t[n + k] && r[k + 1] == t[n + k + 1];
    }
  }

  lemma {:induction false} MaskNothing(t: string, w: string)
    requires w != [] && !Leaks(w, t)
    ensures Mask(t, w) == t
    decreases |t|
  {
    if |t| >= |w| {
      StartsWithOccurs(t, w);
      assert t == [t[0]] + t[1..];
      if i: nat :| Occurs(w, t[1..], i) {
        PieceLeaks(w, t, [t[0]], t[1..], []);
      }
      MaskNothing(t[1..], w);
    }
  }

  lemma TabbedIsolated(w: string, p: string)
    requires Isolated(w) && NoSpace(p) && p != []
    ensures Isolated(Tabbed(w) + p)
  {
    var u := Tabbed(w) + p;
    forall k | 0 <= k < |u| - 1
      ensures !(IsSpace(u[k]) && IsSpace(u[k + 1]))
    {
      if k < |w| - 1 {
        assert !(IsSpace(w[k]) && IsSpace(w[k + 1]));
      }
    }
  }

  lemma TabbedRestored(w: string, p: string)
    requires Spaced(w)
    ensures Occurs(w, p + Spaces(Tabbed(w) + p), |p|)
  {
    var out := p + Spaces(Tabbed(w) + p);
    forall k | 0 <= k < |w|
      ensures Lower(out[|p| + k]) == Lower(w[k])
    {
      assert IsSpace(w[k]) ==> w[k] == ' ';
    }
  }

  lemma TabbedDoesNotLeak(w: string, t: string, p: string)
    requires Spaced(w) && NoSpace(p) && t == p + Tabbed(w) + p
    ensures !Leaks(w, t)
  {
    var k :| 0 <= k < |w| && IsSpace(w[k]);
    assert forall q :: 0 <= q < |t| ==> t[q] != ' ';
    if i: nat :| Occurs(w, t, i) {
      OccursAt(w, t, i, i + k);
    }
  }

  lemma {:induction false} SplitPrefix(p: string, u: string, token: string)
    requires NoSpace(p)
    ensures Split(p + u, token) == Split(u, token + p)
    decreases |p|
  {
    if p == [] {
      assert p + u == u && token + p == token;
    } else {
      assert (p + u)[1..] == p[1..] + u;
      assert (token + [p[0]]) + p[1..] == token + p;
      SplitPrefix(p[1..], u, token + [p[0]]);
    }
  }

  /* The word's tokens with a gap on either side. */
  ghost predicate Inner(w: string, a: nat, b: nat) {
    0 < a < b < |w| && IsSpace(w[a - 1]) && IsSpace(w[b]) && NoSpace(w[a..b])
  }

  /* One of them is on the list, and not just stars to begin with. */
  ghost predicate CensoredInside(w: string, listed: set<string>) {
    exists a: nat, b: nat :: Inner(w, a, b) && !AllStars(w[a..b]) && Profane(w[a..b], listed)
  }

  lemma StarsKept(token: string, listed: set<string>)
    requires AllStars(token) || !Profane(token, listed)
    ensures Censor(token, listed) == token
  {
    assert AllStars(token) ==> Stars(|token|) == token;
  }

  /* A token of the padded text holds the padding, or is an inner token of the word. */
  lemma PaddedToken(w: string, p: string, a: string, x: string, b: string)
    requires Spaced(w) && NoSpace(p) && p + Tabbed(w) + p == a + x + b && NoSpace(x) && x != [] && Bounded(a, b)
    ensures p <= x || (|p| <= |x| && x[|x| - |p|..] == p) || exists i: nat, j: nat :: Inner(w, i, j) && x == w[i..j]
  {
    var t := p + Tabbed(w) + p;
    if a == [] {
      PaddedHead(w, p, x, b);
    } else if b == [] {
      PaddedTail(w, p, a, x);
    } else {
      PaddedInner(w, p, a, x, b);
    }
  }

  lemma PaddedHead(w: string, p: string, x: string, b: string)
    requires NoSpace(p) && p + Tabbed(w) + p == [] + x + b && Bounded([], b)
    ensures p <= x
  {
    var t := p + Tabbed(w) + p;
    assert forall q :: 0 <= q < |p| ==> t[q] == p[q];
    assert b != [] ==> t[|x|] == b[0];
    assert |p| <= |x|;
    assert x[..|p|] == t[..|p|] == p;
  }

  lemma PaddedTail(w: string, p: string, a: string, x: string)
    requires NoSpace(p) && p + Tabbed(w) + p == a + x + [] && Bounded(a, []) && a != []
    ensures |p| <= |x| && x[|x| - |p|..] == p
  {
    var t := p + Tabbed(w) + p;
    var n := |t| - |p|;
    assert forall q :: n <= q < |t| ==> t[q] == p[q - n];
    assert t[|a| - 1] == a[|a| - 1];
    assert |p| <= |x|;
    assert x[|x| - |p|..] == t[n..] == p;
  }

  /* Whitespace of the padded text is the word's. */
  lemma PaddedSpace(w: string, p: string, q: nat)
    requires Spaced(w) && NoSpace(p) && q < |p + Tabbed(w) + p| && IsSpace((p + Tabbed(w) + p)[q])
    ensures |p| <= q < |p| + |w| && IsSpace(w[q - |p|])
  {
  }

  lemma PaddedInner(w: string, p: string, a: string, x: string, b: string)
    requires Spaced(w) && NoSpace(p) && p + Tabbed(w) + p == a + x + b && NoSpace(x) && x != []
    requires a != [] && b != [] && Bounded(a, b)
    ensures exists i: nat, j: nat :: Inner(w, i, j) && x == w[i..j]
  {
    var t := p + Tabbed(w) + p;
    assert t[|a| - 1] == a[|a| - 1] && t[|a| + |x|] == b[0];
    PaddedSpace(w, p, |a| - 1);
    PaddedSpace(w, p, |a| + |x|);
    var i: nat, j: nat := |a| - |p|, |a| + |x| - |p|;
    forall k | 0 <= k < |x|
      ensures w[i + k] == x[k]
    {
      assert t[|a| + k] == x[k];
      assert t[|a| + k] == Tabbed(w)[i + k];
    }
    assert w[i..j] == x;
    assert Inner(w, i, j);
  }

  lemma PaddedTokenKept(w: string, c: char, n: nat, a: string, x: string, b: string, listed: set<string>)
    requires Spaced(w) && !CensoredInside(w, listed) && IsAlnum(c) && forall s :: s in listed ==> |s| < n
    requires var p := Pad(c, n); p + Tabbed(w) + p == a + x + b
    requires NoSpace(x) && x != [] && Bounded(a, b)
    ensures Censor(x, listed) == x
  {
    var p := Pad(c, n);
    PaddedToken(w, p, a, x, b);
    if p <= x {
      PaddedNotProfane([], c, n, x[n..], listed);
      assert [] + p + x[n..] == x;
    } else if n <= |x| && x[|x| - n..] == p {
      PaddedNotProfane(x[..|x| - n], c, n, [], listed);
      assert x[..|x| - n] + p + [] == x;
    }
    StarsKept(x, listed);
  }

  lemma PaddedTextKept(w: string, c: char, n: nat, listed: set<string>)
    requires Spaced(w) && !CensoredInside(w, listed) && IsAlnum(c) && forall s :: s in listed ==> |s| < n
    ensures var t := Pad(c, n) + Tabbed(w) + Pad(c, n); Filter(t, listed) == Join(Split(t, []))
  {
    var t := Pad(c, n) + Tabbed(w) + Pad(c, n);
    var tokens := Split(t, []);
    forall j | 0 <= j < |tokens|
      ensures Censor(tokens[j], listed) == tokens[j]
    {
      var a, b := TokenIsPiece(t, [], j);
      assert [] + t == t;
      PaddedTokenKept(w, c, n, a, tokens[j], b, listed);
    }
    assert CensorAll(tokens, listed) == tokens;
  }

  /* A spaced word without a censored token inside, typed with tabs and padded on both sides, comes
     out in full. */
  lemma SpacedWordLeaks(w: string, listed: set<string>) returns (t: string)
    requires Spaced(w) && !CensoredInside(w, listed)
    ensures Leaks(w, Chat(t, w, listed))
  {
    var n := LongerThanAll(listed);
    n := n + 1;
    var p := Pad('x', n);
    t := p + Tabbed(w) + p;
    TabbedDoesNotLeak(w, t, p);
    MaskNothing(t, w);
    PaddedTextKept(w, 'x', n, listed);
    TabbedComesOut(w, p);
  }

  lemma TabbedComesOut(w: string, p: string)
    requires Spaced(w) && NoSpace(p) && p != []
    ensures Leaks(w, Join(Split(p + Tabbed(w) + p, [])))
  {
    var u := Tabbed(w) + p;
    TabbedIsolated(w, p);
    JoinSplit(u, p);
    assert p + Tabbed(w) + p == p + u && [] + p == p;
    SplitPrefix(p, u, []);
    TabbedRestored(w, p);
  }

  // ---- A censored token inside ----

  lemma {:induction false} FirstSegment(tokens: seq<string>, q: nat)
    requires Tokens(tokens) && tokens != [] && q < |Join(tokens)|
    requires IsSpace(Join(tokens)[q]) && NoSpace(Join(tokens)[..q])
    ensures Join(tokens)[..q] == tokens[0]
  {
    var s, head := Join(tokens), tokens[0];
    assert head <= s;
    assert forall k :: 0 <= k < |head| ==> s[k] == head[k];
    assert |head| <= q;
    assert s[|head|] == ' ';
    assert forall k :: 0 <= k < q ==> s[..q][k] == s[k];
    assert q == |head|;
  }

  /* What stands between two spaces of the joined text is a token. */
  lemma {:induction false} SegmentIsToken(tokens: seq<string>, p: nat, q: nat) returns (j: nat)
    requires Tokens(tokens) && 0 < p <= q < |Join(tokens)|
    requires IsSpace(Join(tokens)[p - 1]) && IsSpace(Join(tokens)[q]) && NoSpace(Join(tokens)[p..q])
    ensures j < |tokens| && tokens[j] == Join(tokens)[p..q]
    decreases |tokens|
  {
    var s, head := Join(tokens), tokens[0];
    assert head <= s;
    assert forall k :: 0 <= k < |head| ==> s[k] == head[k];
    var rest, n := Join(tokens[1..]), |head| + 1;
    assert p >= n;
    assert s == head + [' '] + rest;
    assert s[q] == rest[q - n] && s[p..q] == rest[p - n..q - n];
    if p == n {
      assert rest[0..q - n] == rest[..q - n];
      FirstSegment(tokens[1..], q - n);
      j := 1;
    } else {
      assert s[p - 1] == rest[p - 1 - n];
      j := SegmentIsToken(tokens[1..], p - n, q - n);
      j := j + 1;
    }
  }

  lemma {:induction false} CleanSame(u: string, v: string)
    requires |u| == |v| && forall k :: 0 <= k < |u| ==> Lower(u[k]) == Lower(v[k])
    ensures Clean(u) == Clean(v)
  {
    if u != [] {
      CleanSame(u[1..], v[1..]);
      assert Lower(u[0]) == Lower(v[0]);
    }
  }

  /* An inner token of an occurrence is echoed as it is, up to letter case. */
  lemma InnerShown(w: string, t: string, i: nat, a: nat, b: nat)
    requires Occurs(w, t, i) && Inner(w, a, b)
    ensures 0 < i + a <= i + b < |t| && IsSpace(t[i + a - 1]) && IsSpace(t[i + b]) && NoSpace(t[i + a..i + b])
    ensures Clean(t[i + a..i + b]) == Clean(w[a..b])
    ensures AllStars(t[i + a..i + b]) ==> AllStars(w[a..b])
  {
    OccursAt(w, t, i, i + a - 1);
    OccursAt(w, t, i, i + b);
    var u, v := t[i + a..i + b], w[a..b];
    forall k | 0 <= k < |u|
      ensures Lower(u[k]) == Lower(v[k]) && !IsSpace(u[k]) && (u[k] == '*' ==> v[k] == '*')
    {
      OccursAt(w, t, i, i + a + k);
      assert u[k] == t[i + a + k] && v[k] == w[a + k];
    }
    CleanSame(u, v);
  }

  lemma ShownToken(tokens: seq<string>, listed: set<string>, j: nat)
    requires j < |tokens| && Profane(CensorAll(tokens, listed)[j], listed)
    ensures AllStars(CensorAll(tokens, listed)[j])
  {
  }

  /* Whatever the text, a word with a censored token inside does not come out. */
  lemma CensoredInsideHides(w: string, t: string, listed: set<string>)
    requires CensoredInside(w, listed)
    ensures !Leaks(w, Filter(t, listed))
  {
    if i: nat :| Occurs(w, Filter(t, listed), i) {
      var a: nat, b: nat :| Inner(w, a, b) && !AllStars(w[a..b]) && Profane(w[a..b], listed);
      SplitTokens(t);
      InnerNotProfane(w, Split(t, []), listed, i, a, b);
    }
  }

  /* A profane inner token of a word that stands in echoed tokens can only be stars. */
  lemma InnerNotProfane(w: string, tokens: seq<string>, listed: set<string>, i: nat, a: nat, b: nat)
    requires Tokens(tokens) && Occurs(w, Join(CensorAll(tokens, listed)), i) && Inner(w, a, b)
    requires Profane(w[a..b], listed)
    ensures AllStars(w[a..b])
  {
    var shown := CensorAll(tokens, listed);
    CensorTokens(tokens, listed);
    InnerShown(w, Join(shown), i, a, b);
    var j := SegmentIsToken(shown, i + a, i + b);
    ShownToken(tokens, listed, j);
  }

  // ---- Exactly which words stay hidden ----

  /* What a secret word must be like to stay out of chat: without whitespace, no star where a mask
     could supply it; with whitespace, not just isolated plain spaces, or a censored token inside. */
  ghost predicate Maskable(w: string, listed: set<string>) {
    if NoSpace(w) then StarSafe(w) else !Spaced(w) || CensoredInside(w, listed)
  }

  lemma MaskableHidden(w: string, t: string, listed: set<string>)
    requires w != [] && Maskable(w, listed)
    ensures !Leaks(w, Chat(t, w, listed))
  {
    if NoSpace(w) {
      ChatHidesWord(t, w, listed);
    } else if Spaced(w) {
      CensoredInsideHides(w, Mask(t, w), listed);
    } else {
      FilterTidy(Mask(t, w), listed);
      if i: nat :| Occurs(w, Chat(t, w, listed), i) {
        TidyPiece(w, Chat(t, w, listed), i);
      }
    }
  }

  /* With a given profanity list these words, and no others, are kept out of chat whatever the text. */
  lemma HiddenWordsExactly(w: string, listed: set<string>)
    requires w != []
    ensures (forall t :: !Leaks(w, Chat(t, w, listed))) <==> Maskable(w, listed)
  {
    if Maskable(w, listed) {
      forall t
        ensures !Leaks(w, Chat(t, w, listed))
      {
        MaskableHidden(w, t, listed);
      }
    } else if NoSpace(w) {
      var t := StarWordLeaks(w, listed);
    } else {
      var t := SpacedWordLeaks(w, listed);
    }
  }
}
