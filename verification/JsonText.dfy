/** JSON texts (RFC 8259) as far as the reading of coalesced frames depends on them: every object
    text is delimited by the bracket that closes it. */
module JsonText {
  import opened StrokeCodec
  import opened WritePump

  const COLON: Byte := 0x3A

  /* Values with insignificant whitespace: around any value, around a member's key, and after an
     opening bracket. A scalar is a number or a literal name; the body of a string is given in
     escaped form. */
  datatype Json =
    | Scalar(text: Bytes)
    | String(body: Bytes)
    | Array(gap: Bytes, items: seq<Json>)
    | Object(gap: Bytes, members: seq<Member>)
    | Padded(before: Bytes, value: Json, after: Bytes)

  datatype Member = Member(before: Bytes, key: Bytes, after: Bytes, value: Json)

  predicate Plain(b: Byte) {
    && b != QUOTE && b != OPEN_BRACE && b != CLOSE_BRACE && b != OPEN_BRACKET && b != CLOSE_BRACKET
  }

  predicate AllPlain(d: Bytes) { forall k :: 0 <= k < |d| ==> Plain(d[k]) }

  /* No unescaped quote inside, and no escape left open at the end. */
  predicate Escaped(d: Bytes, open: bool) {
    if d == [] then !open
    else if open then Escaped(d[1..], false)
    else d[0] != QUOTE && Escaped(d[1..], d[0] == BACKSLASH)
  }

  predicate Valid(j: Json) {
    match j
    case Scalar(text) => AllPlain(text)
    case String(body) => Escaped(body, false)
    case Array(gap, items) => AllPlain(gap) && forall k :: 0 <= k < |items| ==> Valid(items[k])
    case Object(gap, members) => AllPlain(gap) && forall k :: 0 <= k < |members| ==> ValidMember(members[k])
    case Padded(before, value, after) => AllPlain(before) && AllPlain(after) && Valid(value)
  }

  predicate ValidMember(m: Member) {
    AllPlain(m.before) && AllPlain(m.after) && Escaped(m.key, false) && Valid(m.value)
  }

  function Quoted(body: Bytes): Bytes { [QUOTE] + body + [QUOTE] }

  function Render(j: Json): Bytes {
    match j
    case Scalar(text) => text
    case String(body) => Quoted(body)
    case Array(gap, items) => [OPEN_BRACKET] + (gap + RenderItems(items)) + [CLOSE_BRACKET]
    case Object(gap, members) => [OPEN_BRACE] + (gap + RenderMembers(members)) + [CLOSE_BRACE]
    case Padded(before, value, after) => before + Render(value) + after
  }

  function RenderItems(items: seq<Json>): Bytes {
    if items == [] then []
    else Render(items[0]) + (if |items| == 1 then [] else [COMMA]) + RenderItems(items[1..])
  }

  function RenderMember(m: Member): Bytes {
    m.before + Quoted(m.key) + m.after + [COLON] + Render(m.value)
  }

  function RenderMembers(ms: seq<Member>): Bytes {
    if ms == [] then []
    else RenderMember(ms[0]) + (if |ms| == 1 then [] else [COMMA]) + RenderMembers(ms[1..])
  }

  /* Reading over the text outside strings leaves the nesting as it was. */
  ghost predicate Neutral(t: Bytes) {
    forall pre: Bytes, post: Bytes, depth: nat :: depth >= 1 ==>
      Close(pre + t + post, |pre|, depth, false, false) == Close(pre + t + post, |pre| + |t|, depth, false, false)
  }

  lemma NeutralConcat(a: Bytes, b: Bytes)
    requires Neutral(a) && Neutral(b)
    ensures Neutral(a + b)
  {
    forall pre: Bytes, post: Bytes, depth: nat | depth >= 1
      ensures Close(pre + (a + b) + post, |pre|, depth, false, false)
              == Close(pre + (a + b) + post, |pre| + |a + b|, depth, false, false)
    {
      var d := pre + (a + b) + post;
      assert d == pre + a + (b + post) && d == (pre + a) + b + post;
      assert Close(pre + a + (b + post), |pre|, depth, false, false) == Close(d, |pre| + |a|, depth, false, false);
      assert Close((pre + a) + b + post, |pre + a|, depth, false, false)
             == Close(d, |pre + a| + |b|, depth, false, false);
    }
  }

  lemma {:induction false} NeutralPlain(t: Bytes)
    requires AllPlain(t)
    ensures Neutral(t)
  {
    if t == [] {
    } else {
      NeutralPlain(t[1..]);
      NeutralByte(t[0]);
      NeutralConcat([t[0]], t[1..]);
      assert t == [t[0]] + t[1..];
    }
  }

  lemma NeutralByte(b: Byte)
    requires Plain(b)
    ensures Neutral([b])
  {
    forall pre: Bytes, post: Bytes, depth: nat | depth >= 1
      ensures Close(pre + [b] + post, |pre|, depth, false, false)
              == Close(pre + [b] + post, |pre| + |[b]|, depth, false, false)
    {
      assert (pre + [b] + post)[|pre|] == b;
    }
  }

  lemma {:induction false} SkipBody(pre: Bytes, body: Bytes, post: Bytes, depth: nat, open: bool)
    requires Escaped(body, open)
    ensures Close(pre + body + ([QUOTE] + post), |pre|, depth, true, open)
            == Close(pre + body + ([QUOTE] + post), |pre| + |body| + 1, depth, false, false)
    decreases |body|
  {
    var d := pre + body + ([QUOTE] + post);
    if body == [] {
      assert d[|pre|] == QUOTE;
    } else {
      assert d[|pre|] == body[0];
      var next := if open then false else body[0] == BACKSLASH;
      SkipBody(pre + [body[0]], body[1..], post, depth, next);
      assert d == (pre + [body[0]]) + body[1..] + ([QUOTE] + post);
    }
  }

  lemma NeutralQuoted(body: Bytes)
    requires Escaped(body, false)
    ensures Neutral(Quoted(body))
  {
    forall pre: Bytes, post: Bytes, depth: nat | depth >= 1
      ensures Close(pre + Quoted(body) + post, |pre|, depth, false, false)
              == Close(pre + Quoted(body) + post, |pre| + |Quoted(body)|, depth, false, false)
    {
      var d := pre + Quoted(body) + post;
      assert d == (pre + [QUOTE]) + body + ([QUOTE] + post);
      assert d[|pre|] == QUOTE;
      SkipBody(pre + [QUOTE], body, post, depth, false);
    }
  }

  lemma NeutralBracketed(open: Byte, t: Bytes, close: Byte)
    requires open == OPEN_BRACE || open == OPEN_BRACKET
    requires close == CLOSE_BRACE || close == CLOSE_BRACKET
    requires Neutral(t)
    ensures Neutral([open] + t + [close])
  {
    var u := [open] + t + [close];
    forall pre: Bytes, post: Bytes, depth: nat | depth >= 1
      ensures Close(pre + u + post, |pre|, depth, false, false)
              == Close(pre + u + post, |pre| + |u|, depth, false, false)
    {
      var d := pre + u + post;
      assert d == (pre + [open]) + t + ([close] + post);
      assert d[|pre|] == open;
      assert d[|pre| + 1 + |t|] == close;
      assert Close(d, |pre| + 1, depth + 1, false, false) == Close(d, |pre| + 1 + |t|, depth + 1, false, false);
    }
  }

  lemma {:induction false} RenderNeutral(j: Json)
    requires Valid(j)
    ensures Neutral(Render(j))
    decreases j, 1
  {
    match j
    case Scalar(text) => NeutralPlain(text);
    case String(body) => NeutralQuoted(body);
    case Array(gap, items) =>
      NeutralPlain(gap);
      ItemsNeutral(items);
      NeutralConcat(gap, RenderItems(items));
      NeutralBracketed(OPEN_BRACKET, gap + RenderItems(items), CLOSE_BRACKET);
    case Object(gap, members) =>
      NeutralPlain(gap);
      MembersNeutral(members);
      NeutralConcat(gap, RenderMembers(members));
      NeutralBracketed(OPEN_BRACE, gap + RenderMembers(members), CLOSE_BRACE);
    case Padded(before, value, after) =>
      NeutralPlain(before);
      RenderNeutral(value);
      NeutralPlain(after);
      NeutralConcat(before, Render(value));
      NeutralConcat(before + Render(value), after);
  }

  lemma {:induction false} ItemsNeutral(items: seq<Json>)
    requires forall k :: 0 <= k < |items| ==> Valid(items[k])
    ensures Neutral(RenderItems(items))
    decreases items, 0
  {
    if items == [] {
      NeutralPlain([]);
    } else {
      var sep := if |items| == 1 then [] else [COMMA];
      RenderNeutral(items[0]);
      NeutralPlain(sep);
      ItemsNeutral(items[1..]);
      NeutralConcat(Render(items[0]), sep);
      NeutralConcat(Render(items[0]) + sep, RenderItems(items[1..]));
    }
  }

  lemma MemberNeutral(m: Member)
    requires ValidMember(m) && Neutral(Render(m.value))
    ensures Neutral(RenderMember(m))
  {
    NeutralPlain(m.before);
    NeutralQuoted(m.key);
    NeutralPlain(m.after);
    NeutralByte(COLON);
    NeutralConcat(m.before, Quoted(m.key));
    NeutralConcat(m.before + Quoted(m.key), m.after);
    NeutralConcat(m.before + Quoted(m.key) + m.after, [COLON]);
    NeutralConcat(m.before + Quoted(m.key) + m.after + [COLON], Render(m.value));
  }

  lemma {:induction false} MembersNeutral(ms: seq<Member>)
    requires forall k :: 0 <= k < |ms| ==> ValidMember(ms[k])
    ensures Neutral(RenderMembers(ms))
    decreases ms, 0
  {
    if ms == [] {
      NeutralPlain([]);
    } else {
      var sep := if |ms| == 1 then [] else [COMMA];
      RenderNeutral(ms[0].value);
      MemberNeutral(ms[0]);
      NeutralPlain(sep);
      MembersNeutral(ms[1..]);
      NeutralConcat(RenderMember(ms[0]), sep);
      NeutralConcat(RenderMember(ms[0]) + sep, RenderMembers(ms[1..]));
    }
  }

  /* Every JSON object text is a well-formed text message for the pump. */
  lemma ObjectTextWellFormed(gap: Bytes, members: seq<Member>)
    requires Valid(Object(gap, members))
    ensures WellFormed(Render(Object(gap, members)))
  {
    var t := gap + RenderMembers(members);
    var d := Render(Object(gap, members));
    NeutralPlain(gap);
    MembersNeutral(members);
    NeutralConcat(gap, RenderMembers(members));
    assert d == [OPEN_BRACE] + t + [CLOSE_BRACE];
    assert d[0] == OPEN_BRACE && d[1 + |t|] == CLOSE_BRACE;
    assert Close(d, 0, 0, false, false) == Close(d, |[OPEN_BRACE]|, 1, false, false);
  }
}
