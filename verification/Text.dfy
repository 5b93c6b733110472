/** Python's whitespace and letter case as far as the game's text handling uses them. */
module Text {

  /* str.isspace */
  predicate IsSpace(c: char) {
    var n := c as int;
    || 0x09 <= n <= 0x0d || 0x1c <= n <= 0x20 || n == 0x85 || n == 0xa0 || n == 0x1680
    || 0x2000 <= n <= 0x200a || n == 0x2028 || n == 0x2029 || n == 0x202f || n == 0x205f || n == 0x3000
  }

  /* ASCII letter case; other characters only match themselves. */
  function Lower(c: char): char { if 'A' <= c <= 'Z' then (c as int + 32) as char else c }

  /* Capitals become small letters, and nothing else changes. */
  lemma LowerExactly(c: char)
    ensures 'A' <= c <= 'Z' ==> 'a' <= Lower(c) <= 'z' && Lower(c) as int - 'a' as int == c as int - 'A' as int
    ensures !('A' <= c <= 'Z') ==> Lower(c) == c
  {
  }

  /* str.isalnum, for ASCII. */
  predicate IsAlnum(c: char) { 'a' <= Lower(c) <= 'z' || '0' <= c <= '9' }

  function LowerAll(s: string): string { seq(|s|, i requires 0 <= i < |s| => Lower(s[i])) }

  ghost predicate Blank(s: string) { forall k :: 0 <= k < |s| ==> IsSpace(s[k]) }

  /* str.strip: all outer whitespace goes and nothing else. */
  lemma {:induction false} StripExactly(s: string) returns (a: string, b: string)
    ensures s == a + Strip(s) + b && Blank(a) && Blank(b)
    ensures Strip(s) != [] ==> !IsSpace(Strip(s)[0]) && !IsSpace(Strip(s)[|Strip(s)| - 1])
    decreases |s|
  {
    if s != [] && IsSpace(s[0]) {
      a, b := StripExactly(s[1..]);
      BlankInFront(s, a, Strip(s[1..]), b);
      a := [s[0]] + a;
    } else if s != [] && IsSpace(s[|s| - 1]) {
      a, b := StripExactly(s[..|s| - 1]);
      BlankBehind(s, a, Strip(s[..|s| - 1]), b);
      b := b + [s[|s| - 1]];
    } else {
      a, b := [], [];
    }
  }

  lemma BlankInFront(s: string, a: string, x: string, b: string)
    requires s != [] && IsSpace(s[0]) && s[1..] == a + x + b && Blank(a)
    ensures s == ([s[0]] + a) + x + b && Blank([s[0]] + a)
  {
    assert s == [s[0]] + s[1..];
    assert [s[0]] + (a + x + b) == ([s[0]] + a) + x + b;
  }

  lemma BlankBehind(s: string, a: string, x: string, b: string)
    requires s != [] && IsSpace(s[|s| - 1]) && s[..|s| - 1] == a + x + b && Blank(b)
    ensures s == a + x + (b + [s[|s| - 1]]) && Blank(b + [s[|s| - 1]])
  {
    assert s == s[..|s| - 1] + [s[|s| - 1]];
    assert (a + x + b) + [s[|s| - 1]] == a + x + (b + [s[|s| - 1]]);
  }

  function Strip(s: string): string {
    if s != [] && IsSpace(s[0]) then Strip(s[1..])
    else if s != [] && IsSpace(s[|s| - 1]) then Strip(s[..|s| - 1])
    else s
  }
}
