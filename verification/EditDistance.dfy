/** The two-row edit distance that decides whether a wrong guess is "very close"
    (backend/game_engine.py:18-33), against the definition of edit distance as the
    length of a shortest chain of single insertions, deletions and substitutions. */
module EditDistance {

  /* One insertion, deletion or substitution turns a into b. */
  ghost predicate OneEdit(a: string, b: string) {
    exists i: nat :: EditAt(a, b, i)
  }

  ghost predicate EditAt(a: string, b: string, i: nat) {
    || (i < |a| && b == a[..i] + a[i + 1..])
    || (i < |b| && a == b[..i] + b[i + 1..])
    || (i < |a| && i < |b| && b == a[..i] + [b[i]] + a[i + 1..])
  }

  /* A chain of strings from a to b whose neighbours are one edit apart. */
  ghost predicate IsScript(p: seq<string>, a: string, b: string) {
    && |p| > 0 && p[0] == a && p[|p| - 1] == b
    && forall k :: 0 <= k < |p| - 1 ==> OneEdit(p[k], p[k + 1])
  }

  function Min(x: nat, y: nat): nat { if x < y then x else y }

  function Differs(c: char, d: char): nat { if c == d then 0 else 1 }

  function Init(s: string): string
    requires s != []
  {
    s[..|s| - 1]
  }

  function Last(s: string): char
    requires s != []
  {
    s[|s| - 1]
  }

  /* The cell of the full table for the prefixes a and b. */
  ghost function Distance(a: string, b: string): nat
    decreases |a| + |b|
  {
    if a == [] then |b|
    else if b == [] then |a|
    else
      Min(Distance(Init(a), b) + 1,
          Min(Distance(a, Init(b)) + 1, Distance(Init(a), Init(b)) + Differs(Last(a), Last(b))))
  }

  lemma {:induction false} DistanceSymmetric(a: string, b: string)
    ensures Distance(a, b) == Distance(b, a)
    decreases |a| + |b|
  {
    if a != [] && b != [] {
      DistanceSymmetric(Init(a), b);
      DistanceSymmetric(a, Init(b));
      DistanceSymmetric(Init(a), Init(b));
    }
  }

  lemma {:induction false} DistanceBounds(a: string, b: string)
    ensures |a| <= |b| + Distance(a, b)
    ensures |b| <= |a| + Distance(a, b)
    ensures Distance(a, b) <= |a| + |b|
    decreases |a| + |b|
  {
    if a != [] && b != [] {
      DistanceBounds(Init(a), b);
      DistanceBounds(a, Init(b));
      DistanceBounds(Init(a), Init(b));
    }
  }

  lemma {:induction false} TriangleInequality(a: string, b: string, c: string)
    ensures Distance(a, c) <= Distance(a, b) + Distance(b, c)
    decreases |a| + |b| + |c|
  {
    if a == [] || b == [] || c == [] {
      DistanceBounds(a, b);
      DistanceBounds(b, c);
      DistanceBounds(a, c);
    } else {
      TriangleInequality(Init(a), b, c);
      TriangleInequality(a, b, Init(c));
      TriangleInequality(a, Init(b), c);
      TriangleInequality(a, Init(b), Init(c));
      TriangleInequality(Init(a), Init(b), c);
      TriangleInequality(Init(a), Init(b), Init(c));
    }
  }

  lemma {:induction false} DistanceToSelf(a: string)
    ensures Distance(a, a) == 0
  {
    if a != [] {
      DistanceToSelf(Init(a));
    }
  }

  /* A common suffix never increases the distance. */
  lemma {:induction false} CommonSuffix(a: string, b: string, s: string)
    ensures Distance(a + s, b + s) <= Distance(a, b)
    decreases |s|
  {
    if s == [] {
      assert a + s == a && b + s == b;
    } else {
      assert Init(a + s) == a + Init(s) && Init(b + s) == b + Init(s);
      CommonSuffix(a, b, Init(s));
    }
  }

  lemma {:induction false} SingleEditDistance(a: string, b: string)
    requires OneEdit(a, b)
    ensures Distance(a, b) <= 1
  {
    var i: nat :| EditAt(a, b, i);
    if i < |a| && b == a[..i] + a[i + 1..] {
      DropOne(a, i);
    } else if i < |b| && a == b[..i] + b[i + 1..] {
      DropOne(b, i);
      DistanceSymmetric(a, b);
    } else {
      var x, y := a[..i] + [a[i]], a[..i] + [b[i]];
      assert a == x + a[i + 1..] && b == y + a[i + 1..];
      CommonSuffix(x, y, a[i + 1..]);
      assert Init(x) == a[..i] && Init(y) == a[..i];
      DistanceToSelf(a[..i]);
    }
  }

  lemma {:induction false} DropOne(a: string, i: nat)
    requires i < |a|
    ensures Distance(a, a[..i] + a[i + 1..]) <= 1
  {
    var x := a[..i] + [a[i]];
    assert a == x + a[i + 1..];
    CommonSuffix(x, a[..i], a[i + 1..]);
    assert Init(x) == a[..i];
    DistanceToSelf(a[..i]);
  }

  /* No chain of edits is shorter than the table's value. */
  lemma {:induction false} ScriptNotShorter(p: seq<string>, a: string, b: string)
    requires IsScript(p, a, b)
    ensures Distance(a, b) <= |p| - 1
    decreases |p|
  {
    if |p| == 1 {
      DistanceToSelf(a);
    } else {
      var q := p[1..];
      forall k | 0 <= k < |q| - 1
        ensures OneEdit(q[k], q[k + 1])
      {
        assert OneEdit(p[k + 1], p[k + 1 + 1]);
      }
      ScriptNotShorter(q, p[1], b);
      assert OneEdit(p[0], p[0 + 1]);
      SingleEditDistance(a, p[1]);
      TriangleInequality(a, p[1], b);
    }
  }

  lemma ScriptThen(q: seq<string>, a: string, b: string, c: string)
    requires IsScript(q, a, b) && OneEdit(b, c)
    ensures IsScript(q + [c], a, c)
  {
  }

  lemma ScriptAfter(a: string, b: string, q: seq<string>, c: string)
    requires OneEdit(a, b) && IsScript(q, b, c)
    ensures IsScript([a] + q, a, c)
  {
    var p := [a] + q;
    forall k | 0 <= k < |p| - 1
      ensures OneEdit(p[k], p[k + 1])
    {
      if k > 0 {
        assert OneEdit(q[k - 1], q[k - 1 + 1]);
      }
    }
  }

  lemma LastEdits(a: string)
    requires a != []
    ensures OneEdit(a, Init(a)) && OneEdit(Init(a), a)
  {
    assert EditAt(a, Init(a), |a| - 1) && EditAt(Init(a), a, |a| - 1);
  }

  lemma LastSubstitution(a: string, c: char, d: char)
    ensures OneEdit(a + [c], a + [d])
  {
    assert EditAt(a + [c], a + [d], |a|);
  }

  /* The table's value is reached by some chain of edits. */
  lemma {:induction false} ShortestScript(a: string, b: string) returns (p: seq<string>)
    ensures IsScript(p, a, b) && |p| - 1 == Distance(a, b)
    decreases |a| + |b|
  {
    if a == [] && b == [] {
      p := [a];
    } else if a == [] || (b != [] && Distance(a, b) == Distance(a, Init(b)) + 1) {
      var q := ShortestScript(a, Init(b));
      LastEdits(b);
      ScriptThen(q, a, Init(b), b);
      p := q + [b];
    } else if b == [] || Distance(a, b) == Distance(Init(a), b) + 1 {
      var q := ShortestScript(Init(a), b);
      LastEdits(a);
      ScriptAfter(a, Init(a), q, b);
      p := [a] + q;
    } else {
      p := SubstituteLast(a, b);
    }
  }

  lemma {:induction false} SubstituteLast(a: string, b: string) returns (p: seq<string>)
    requires a != [] && b != []
    ensures IsScript(p, a, b) && |p| - 1 == Distance(Init(a), Init(b)) + Differs(Last(a), Last(b))
    decreases |a| + |b|, 0
  {
    var q := ShortestScript(Init(a), Init(b));
    p := WithLast(q, Init(a), Init(b), Last(a));
    assert a == Init(a) + [Last(a)] && b == Init(b) + [Last(b)];
    if Last(a) != Last(b) {
      LastSubstitution(Init(b), Last(a), Last(b));
      ScriptThen(p, a, Init(b) + [Last(a)], b);
      p := p + [b];
    }
  }

  /* Appending one character to every string of a chain gives a chain. */
  lemma WithLast(q: seq<string>, a: string, b: string, c: char) returns (r: seq<string>)
    requires IsScript(q, a, b)
    ensures IsScript(r, a + [c], b + [c]) && |r| == |q|
  {
    r := seq(|q|, i requires 0 <= i < |q| => q[i] + [c]);
    forall k | 0 <= k < |r| - 1
      ensures OneEdit(r[k], r[k + 1])
    {
      var x, y := q[k], q[k + 1];
      assert OneEdit(x, y);
      var i: nat :| EditAt(x, y, i);
      assert EditAt(x + [c], y + [c], i);
    }
  }

  /* The longer-first swap, the two rows and the minimum of three, as the source has them. */
  method Levenshtein(s1: string, s2: string) returns (d: nat)
    ensures d == Distance(s1, s2)
    ensures exists p :: IsScript(p, s1, s2) && |p| - 1 == d
    ensures forall p :: IsScript(p, s1, s2) ==> d <= |p| - 1
    decreases |s1| < |s2|
  {
    if |s1| < |s2| {
      d := Levenshtein(s2, s1);
      DistanceSymmetric(s1, s2);
    } else if |s2| == 0 {
      d := |s1|;
    } else {
      d := TwoRows(s1, s2);
    }
    var p := ShortestScript(s1, s2);
    forall q | IsScript(q, s1, s2)
      ensures d <= |q| - 1
    {
      ScriptNotShorter(q, s1, s2);
    }
  }

  ghost predicate IsRow(row: seq<nat>, a: string, s2: string, upTo: nat)
    requires upTo <= |s2|
  {
    |row| == upTo + 1 && forall j :: 0 <= j <= upTo ==> row[j] == Distance(a, s2[..j])
  }

  method TwoRows(s1: string, s2: string) returns (d: nat)
    ensures d == Distance(s1, s2)
  {
    var prevRow: seq<nat> := seq(|s2| + 1, j => j);
    for i := 0 to |s1|
      invariant IsRow(prevRow, s1[..i], s2, |s2|)
    {
      assert s1[..i + 1] == s1[..i] + [s1[i]];
      prevRow := NextRow(prevRow, i, s1[..i], s1[i], s2);
    }
    assert s1[..|s1|] == s1 && s2[..|s2|] == s2;
    d := prevRow[|s2|];
  }

  /* The inner loop: the row for the prefix with one more character. */
  method NextRow(prevRow: seq<nat>, i: nat, ghost a: string, c: char, s2: string) returns (currRow: seq<nat>)
    requires |a| == i && IsRow(prevRow, a, s2, |s2|)
    ensures IsRow(currRow, a + [c], s2, |s2|)
  {
    currRow := [i + 1];
    FirstCell(a + [c], s2);
    for j := 0 to |s2|
      invariant IsRow(currRow, a + [c], s2, j)
    {
      var insertions := prevRow[j + 1] + 1;
      var deletions := currRow[j] + 1;
      var substitutions := prevRow[j] + Differs(c, s2[j]);
      var cell := Min(insertions, Min(deletions, substitutions));
      RowStep(prevRow, currRow, a, c, s2, j, cell);
      currRow := currRow + [cell];
    }
  }

  lemma FirstCell(a: string, s2: string)
    ensures IsRow([|a|], a, s2, 0)
  {
    assert s2[..0] == [];
  }

  lemma RowStep(prevRow: seq<nat>, currRow: seq<nat>, a: string, c: char, s2: string, j: nat, cell: nat)
    requires j < |s2| && IsRow(prevRow, a, s2, |s2|) && IsRow(currRow, a + [c], s2, j)
    requires cell == Min(prevRow[j + 1] + 1, Min(currRow[j] + 1, prevRow[j] + Differs(c, s2[j])))
    ensures IsRow(currRow + [cell], a + [c], s2, j + 1)
  {
    var x, y := a + [c], s2[..j + 1];
    assert Init(x) == a && Init(y) == s2[..j] && Last(y) == s2[j];
    assert prevRow[j + 1] == Distance(a, y);
    assert currRow[j] == Distance(x, s2[..j]);
    assert prevRow[j] == Distance(a, s2[..j]);
    assert cell == Distance(x, y);
  }
}
