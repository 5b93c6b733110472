/** The per-session write pump (gateway/session.go:263-391): it drains the queue and coalesces
    bursts, binary draw frames by concatenation and text messages into a JSON array. */
module WritePump {
  import opened Models
  import opened StrokeCodec

  const MAX_BATCH_SIZE := 64

  const OPEN_BRACE: Byte := 0x7B
  const CLOSE_BRACE: Byte := 0x7D
  const OPEN_BRACKET: Byte := 0x5B
  const CLOSE_BRACKET: Byte := 0x5D
  const QUOTE: Byte := 0x22
  const BACKSLASH: Byte := 0x5C
  const COMMA: Byte := 0x2C

  type Bytes = seq<Byte>

  datatype Frame = TextFrame(data: Bytes) | BinaryFrame(data: Bytes)

  /* What the pump sees of the channel at one point: its reported length, and how many messages it
     can then receive before it finds the channel empty. */
  datatype Glimpse = Glimpse(length: nat, available: nat)

  predicate IsBinary(m: Bytes) { |m| > 0 && m[0] < 0x20 }

  function Least(a: nat, b: nat): nat { if a < b then a else b }

  /* How many more messages a burst drains. */
  function Drained(g: Glimpse, waiting: nat): nat {
    Least(Least(g.length, MAX_BATCH_SIZE - 1), Least(g.available, waiting))
  }

  function LeadingBinary(q: seq<Bytes>, n: nat): (k: nat)
    requires n <= |q|
    ensures k <= n
    ensures forall i :: 0 <= i < k ==> IsBinary(q[i])
    ensures k < n ==> !IsBinary(q[k])
  {
    if n == 0 || !IsBinary(q[0]) then 0 else 1 + LeadingBinary(q[1..], n - 1)
  }

  /* The text burst's loop: a binary message flushes the array but leaves the buffer as it is. */
  function Burst(buf: Bytes, ms: seq<Bytes>): seq<Frame>
    decreases |ms|
  {
    if ms == [] then [TextFrame(buf + [CLOSE_BRACKET])]
    else if IsBinary(ms[0]) then
      [TextFrame(buf + [CLOSE_BRACKET]), BinaryFrame(ms[0])] + Burst(buf + [CLOSE_BRACKET], ms[1..])
    else Burst(buf + [COMMA] + ms[0], ms[1..])
  }

  datatype Batch = Batch(frames: seq<Frame>, size: nat)

  /* The frames written for the message at the head of the queue, and how many messages they take. */
  function NextBatch(q: seq<Bytes>, g: Glimpse, coalesce: bool): (b: Batch)
    requires q != []
    ensures 0 < b.size <= |q|
  {
    if !coalesce || g.length == 0 then
      Batch([if IsBinary(q[0]) then BinaryFrame(q[0]) else TextFrame(q[0])], 1)
    else
      var n := Drained(g, |q| - 1);
      if IsBinary(q[0]) then
        var k := LeadingBinary(q[1..], n);
        Batch([BinaryFrame(Flatten(q[..1 + k]))], 1 + k)
      else
        Batch(Burst([OPEN_BRACKET] + q[0], q[1..1 + n]), 1 + n)
  }

  function Head(gs: seq<Glimpse>): Glimpse { if gs == [] then Glimpse(0, 0) else gs[0] }

  function Tail(gs: seq<Glimpse>): seq<Glimpse> { if gs == [] then [] else gs[1..] }

  /* All frames written for a queue, given what the pump glimpses along the way. */
  function Pump(q: seq<Bytes>, gs: seq<Glimpse>, coalesce: bool): seq<Frame>
    decreases |q|
  {
    if q == [] then []
    else
      var b := NextBatch(q, Head(gs), coalesce);
      b.frames + Pump(q[b.size..], Tail(gs), coalesce)
  }

  // ---- The client's side ----

  /* Reads on to the bracket that closes the outermost one, skipping strings. */
  function Close(d: Bytes, i: nat, depth: nat, inString: bool, escaped: bool): (r: Option<nat>)
    ensures r.Some? ==> i < r.value <= |d|
    decreases |d| - i
  {
    if i >= |d| then None
    else if inString then
      if escaped then Close(d, i + 1, depth, true, false)
      else if d[i] == BACKSLASH then Close(d, i + 1, depth, true, true)
      else Close(d, i + 1, depth, d[i] != QUOTE, false)
    else if d[i] == QUOTE then Close(d, i + 1, depth, true, false)
    else if d[i] == OPEN_BRACE || d[i] == OPEN_BRACKET then Close(d, i + 1, depth + 1, false, false)
    else if d[i] == CLOSE_BRACE || d[i] == CLOSE_BRACKET then
      if depth <= 1 then Some(i + 1) else Close(d, i + 1, depth - 1, false, false)
    else Close(d, i + 1, depth, false, false)
  }

  /* Length of the JSON object at the head of the data. */
  function ObjectLength(d: Bytes): (r: Option<nat>)
    ensures r.Some? ==> 0 < r.value <= |d| && d[0] == OPEN_BRACE
  {
    if d == [] || d[0] != OPEN_BRACE then None else Close(d, 0, 0, false, false)
  }

  ghost predicate IsObject(m: Bytes) { ObjectLength(m) == Some(|m|) }

  /* The items of a JSON array after its opening bracket. */
  function ReadItems(d: Bytes): Option<seq<Bytes>>
    decreases |d|
  {
    match ObjectLength(d)
    case None => None
    case Some(n) =>
      if n == |d| then None
      else if d[n] == COMMA then
        match ReadItems(d[n + 1..])
        case None => None
        case Some(rest) => Some([d[..n]] + rest)
      else if d[n] == CLOSE_BRACKET && n + 1 == |d| then Some([d[..n]])
      else None
  }

  function ReadText(d: Bytes): Option<seq<Bytes>> {
    if d != [] && d[0] == OPEN_BRACKET then ReadItems(d[1..])
    else if ObjectLength(d) == Some(|d|) then Some([d])
    else None
  }

  function Read(f: Frame): Option<seq<Bytes>> {
    match f
    case TextFrame(d) => ReadText(d)
    case BinaryFrame(d) => SplitOps(d)
  }

  function ReadAll(fs: seq<Frame>): Option<seq<Bytes>> {
    if fs == [] then Some([])
    else match Read(fs[0])
      case None => None
      case Some(ms) =>
        match ReadAll(fs[1..])
        case None => None
        case Some(rest) => Some(ms + rest)
  }

  /* The messages the worker sends: one drawing operation, or one JSON object. */
  ghost predicate WellFormed(m: Bytes) { if IsBinary(m) then IsOp(m) else IsObject(m) }

  ghost predicate AllWellFormed(q: seq<Bytes>) { forall k :: 0 <= k < |q| ==> WellFormed(q[k]) }

  // ---- Array text ----

  lemma {:induction false} CloseIsLocal(d: Bytes, rest: Bytes, i: nat, depth: nat, inString: bool, escaped: bool)
    requires Close(d, i, depth, inString, escaped).Some?
    ensures Close(d + rest, i, depth, inString, escaped) == Close(d, i, depth, inString, escaped)
    decreases |d| - i
  {
    assert (d + rest)[i] == d[i];
    if inString {
      if escaped {
        CloseIsLocal(d, rest, i + 1, depth, true, false);
      } else if d[i] == BACKSLASH {
        CloseIsLocal(d, rest, i + 1, depth, true, true);
      } else {
        CloseIsLocal(d, rest, i + 1, depth, d[i] != QUOTE, false);
      }
    } else if d[i] == QUOTE {
      CloseIsLocal(d, rest, i + 1, depth, true, false);
    } else if d[i] == OPEN_BRACE || d[i] == OPEN_BRACKET {
      CloseIsLocal(d, rest, i + 1, depth + 1, false, false);
    } else if d[i] == CLOSE_BRACE || d[i] == CLOSE_BRACKET {
      if depth > 1 {
        CloseIsLocal(d, rest, i + 1, depth - 1, false, false);
      }
    } else {
      CloseIsLocal(d, rest, i + 1, depth, false, false);
    }
  }

  lemma ObjectAtHead(m: Bytes, rest: Bytes)
    requires IsObject(m)
    ensures ObjectLength(m + rest) == Some(|m|) && (m + rest)[..|m|] == m
  {
    CloseIsLocal(m, rest, 0, 0, false, false);
  }

  /* Items joined by commas. */
  function Items(ms: seq<Bytes>): Bytes
    requires ms != []
  {
    if |ms| == 1 then ms[0] else Items(ms[..|ms| - 1]) + [COMMA] + ms[|ms| - 1]
  }

  lemma {:induction false} ItemsHead(ms: seq<Bytes>)
    requires |ms| > 1
    ensures Items(ms) == ms[0] + ([COMMA] + Items(ms[1..]))
  {
    var n := |ms| - 1;
    if n > 1 {
      ItemsHead(ms[..n]);
      assert ms[..n][1..] == ms[1..][..n - 1];
    } else {
      assert ms[..n] == [ms[0]] && ms[1..] == [ms[1]];
    }
  }

  /* A closed array reads as its items when nothing follows the bracket, and not at all otherwise. */
  lemma {:induction false} ReadJoined(ms: seq<Bytes>, tail: Bytes)
    requires ms != [] && forall k :: 0 <= k < |ms| ==> IsObject(ms[k])
    ensures ReadItems(Items(ms) + ([CLOSE_BRACKET] + tail)) == if tail == [] then Some(ms) else None
    decreases |ms|
  {
    var d := Items(ms) + ([CLOSE_BRACKET] + tail);
    if |ms| == 1 {
      ObjectAtHead(ms[0], [CLOSE_BRACKET] + tail);
      assert ms == [ms[0]];
    } else {
      ItemsHead(ms);
      var next := Items(ms[1..]) + ([CLOSE_BRACKET] + tail);
      assert d == ms[0] + ([COMMA] + next);
      ObjectAtHead(ms[0], [COMMA] + next);
      ReadJoined(ms[1..], tail);
      assert d[|ms[0]| + 1..] == next;
      assert ms == [ms[0]] + ms[1..];
    }
  }

  // ---- Bursts ----

  ghost predicate NoBinary(ms: seq<Bytes>) { forall k :: 0 <= k < |ms| ==> !IsBinary(ms[k]) }

  lemma {:induction false} TextBurst(pre: seq<Bytes>, ms: seq<Bytes>)
    requires pre != [] && NoBinary(ms)
    ensures Burst([OPEN_BRACKET] + Items(pre), ms)
            == [TextFrame([OPEN_BRACKET] + (Items(pre + ms) + [CLOSE_BRACKET]))]
    decreases |ms|
  {
    if ms == [] {
      assert pre + ms == pre;
      assert [OPEN_BRACKET] + Items(pre) + [CLOSE_BRACKET] == [OPEN_BRACKET] + (Items(pre) + [CLOSE_BRACKET]);
    } else {
      var longer := pre + [ms[0]];
      assert longer[..|pre|] == pre;
      assert [OPEN_BRACKET] + Items(pre) + [COMMA] + ms[0] == [OPEN_BRACKET] + Items(longer);
      TextBurst(longer, ms[1..]);
      assert longer + ms[1..] == pre + ms;
    }
  }

  /* The last frame of a burst extends whatever the buffer held. */
  lemma {:induction false} BurstExtends(buf: Bytes, ms: seq<Bytes>)
    ensures var fs := Burst(buf, ms);
            fs != [] && fs[|fs| - 1].TextFrame? && buf < fs[|fs| - 1].data
    decreases |ms|
  {
    if ms != [] {
      if IsBinary(ms[0]) {
        BurstExtends(buf + [CLOSE_BRACKET], ms[1..]);
      } else {
        BurstExtends(buf + [COMMA] + ms[0], ms[1..]);
      }
    }
  }

  function ClosedArray(ms: seq<Bytes>): Bytes
    requires ms != []
  {
    [OPEN_BRACKET] + (Items(ms) + [CLOSE_BRACKET])
  }

  lemma ReadClosedArray(ms: seq<Bytes>, d: Bytes)
    requires ms != [] && forall k :: 0 <= k < |ms| ==> IsObject(ms[k])
    requires ClosedArray(ms) <= d
    ensures ReadText(d) == if d == ClosedArray(ms) then Some(ms) else None
  {
    var tail := d[|ClosedArray(ms)|..];
    ReadJoined(ms, tail);
    assert d == ClosedArray(ms) + tail;
    assert d[1..] == Items(ms) + ([CLOSE_BRACKET] + tail);
  }

  lemma FlushRepeats(pre: seq<Bytes>, ms: seq<Bytes>)
    requires pre != [] && ms != [] && IsBinary(ms[0])
    requires forall k :: 0 <= k < |pre| ==> IsObject(pre[k])
    requires AllWellFormed(ms)
    ensures var fs := Burst([OPEN_BRACKET] + Items(pre), ms);
            && |fs| > 2 && fs[0].TextFrame? && fs[|fs| - 1].TextFrame?
            && fs[0].data < fs[|fs| - 1].data
            && Read(fs[0]).Some? && Read(fs[|fs| - 1]).None?
  {
    var buf := [OPEN_BRACKET] + Items(pre);
    assert buf + [CLOSE_BRACKET] == ClosedArray(pre);
    BurstExtends(ClosedArray(pre), ms[1..]);
    var fs := Burst(buf, ms);
    assert fs == [TextFrame(ClosedArray(pre)), BinaryFrame(ms[0])] + Burst(ClosedArray(pre), ms[1..]);
    ReadClosedArray(pre, ClosedArray(pre));
    ReadClosedArray(pre, fs[|fs| - 1].data);
  }

  /* A text burst that drains a binary message first flushes the array so far, and its last frame
     is that flushed text with more after it, which no longer reads. */
  lemma {:induction false} FlushedTextRepeats(pre: seq<Bytes>, ms: seq<Bytes>)
    requires pre != [] && !NoBinary(ms)
    requires forall k :: 0 <= k < |pre| ==> IsObject(pre[k])
    requires AllWellFormed(ms)
    ensures var fs := Burst([OPEN_BRACKET] + Items(pre), ms);
            && |fs| > 2 && fs[0].TextFrame? && fs[|fs| - 1].TextFrame?
            && fs[0].data < fs[|fs| - 1].data
            && Read(fs[0]).Some? && Read(fs[|fs| - 1]).None?
    decreases |ms|
  {
    var buf := [OPEN_BRACKET] + Items(pre);
    if IsBinary(ms[0]) {
      FlushRepeats(pre, ms);
    } else {
      var longer := pre + [ms[0]];
      assert longer[..|pre|] == pre;
      assert buf + [COMMA] + ms[0] == [OPEN_BRACKET] + Items(longer);
      assert WellFormed(ms[0]);
      FlushedTextRepeats(longer, ms[1..]);
    }
  }

  // ---- Reading back a whole run ----

  lemma {:induction false} ReadAllConcat(a: seq<Frame>, b: seq<Frame>)
    ensures ReadAll(a + b) == if ReadAll(a).Some? && ReadAll(b).Some?
                              then Some(ReadAll(a).value + ReadAll(b).value) else None
  {
    if a == [] {
      assert a + b == b;
      if ReadAll(b).Some? {
        assert [] + ReadAll(b).value == ReadAll(b).value;
      }
    } else {
      ReadAllConcat(a[1..], b);
      assert (a + b)[1..] == a[1..] + b;
      if ReadAll(a).Some? && ReadAll(b).Some? {
        var x := Read(a[0]).value;
        assert x + (ReadAll(a[1..]).value + ReadAll(b).value) == (x + ReadAll(a[1..]).value) + ReadAll(b).value;
      }
    }
  }

  lemma ReadOne(f: Frame)
    ensures ReadAll([f]) == Read(f)
  {
    assert [f][1..] == [];
    if Read(f).Some? {
      assert Read(f).value + [] == Read(f).value;
    }
  }

  lemma {:induction false} ReadAllFails(fs: seq<Frame>, k: nat)
    requires k < |fs| && Read(fs[k]).None?
    ensures ReadAll(fs).None?
  {
    if k > 0 {
      ReadAllFails(fs[1..], k - 1);
    }
  }

  /* The batch at the head of the queue is a text burst that drains a binary message. */
  ghost predicate MixedBatch(q: seq<Bytes>, g: Glimpse, coalesce: bool)
    requires q != []
  {
    && coalesce && g.length > 0 && !IsBinary(q[0])
    && !NoBinary(q[1..1 + Drained(g, |q| - 1)])
  }

  lemma BinaryBatchReads(q: seq<Bytes>, k: nat)
    requires AllWellFormed(q) && k < |q| && forall i :: 0 <= i <= k ==> IsBinary(q[i])
    ensures Read(BinaryFrame(Flatten(q[..1 + k]))) == Some(q[..1 + k])
  {
    forall i | 0 <= i < 1 + k
      ensures ReadsAs(q[i], |q[i]|)
    {
      assert WellFormed(q[i]);
      OpReadsAs(q[i]);
    }
    SplitFlatten(q[..1 + k]);
  }

  lemma SingleReads(q: seq<Bytes>)
    requires q != [] && WellFormed(q[0])
    ensures Read(if IsBinary(q[0]) then BinaryFrame(q[0]) else TextFrame(q[0])) == Some(q[..1])
  {
    assert q[..1] == [q[0]];
    if IsBinary(q[0]) {
      OpReadsAs(q[0]);
      SplitFlatten([q[0]]);
      assert Flatten([q[0]]) == q[0] by {
        assert [q[0]][1..] == [];
        assert q[0] + [] == q[0];
      }
    }
  }

  lemma TextBatchReads(q: seq<Bytes>, n: nat)
    requires AllWellFormed(q) && n < |q| && !IsBinary(q[0]) && NoBinary(q[1..1 + n])
    ensures var fs := Burst([OPEN_BRACKET] + q[0], q[1..1 + n]);
            |fs| == 1 && Read(fs[0]) == Some(q[..1 + n])
  {
    var ms := q[..1 + n];
    assert [q[0]] + q[1..1 + n] == ms;
    TextBurst([q[0]], q[1..1 + n]);
    forall k | 0 <= k < |ms|
      ensures IsObject(ms[k])
    {
      assert WellFormed(q[k]);
      assert k > 0 ==> !IsBinary(q[1..1 + n][k - 1]);
    }
    ReadClosedArray(ms, ClosedArray(ms));
  }

  /* One batch reads back as exactly the messages it took, unless it is a mixed one. */
  lemma BatchReads(q: seq<Bytes>, g: Glimpse, coalesce: bool)
    requires q != [] && AllWellFormed(q)
    ensures var b := NextBatch(q, g, coalesce);
            if MixedBatch(q, g, coalesce) then ReadAll(b.frames).None?
            else |b.frames| == 1 && Read(b.frames[0]) == Some(q[..b.size]) && b.size <= MAX_BATCH_SIZE
  {
    var b := NextBatch(q, g, coalesce);
    if !coalesce || g.length == 0 {
      assert WellFormed(q[0]);
      SingleReads(q);
    } else if IsBinary(q[0]) {
      var k := LeadingBinary(q[1..], Drained(g, |q| - 1));
      forall i | 0 <= i <= k
        ensures IsBinary(q[i])
      {
        assert i > 0 ==> IsBinary(q[1..][i - 1]);
      }
      BinaryBatchReads(q, k);
    } else {
      var n := Drained(g, |q| - 1);
      if NoBinary(q[1..1 + n]) {
        TextBatchReads(q, n);
      } else {
        MixedBatchFails(q, n);
      }
    }
  }

  lemma MixedBatchFails(q: seq<Bytes>, n: nat)
    requires AllWellFormed(q) && n < |q| && !IsBinary(q[0]) && !NoBinary(q[1..1 + n])
    ensures ReadAll(Burst([OPEN_BRACKET] + q[0], q[1..1 + n])).None?
  {
    assert WellFormed(q[0]);
    assert Items([q[0]]) == q[0];
    FlushedTextRepeats([q[0]], q[1..1 + n]);
    var fs := Burst([OPEN_BRACKET] + q[0], q[1..1 + n]);
    ReadAllFails(fs, |fs| - 1);
  }

  /* No text burst of the run drains a binary message. */
  ghost predicate Unmixed(q: seq<Bytes>, gs: seq<Glimpse>, coalesce: bool)
    decreases |q|
  {
    q != [] ==>
      && !MixedBatch(q, Head(gs), coalesce)
      && Unmixed(q[NextBatch(q, Head(gs), coalesce).size..], Tail(gs), coalesce)
  }

  /* The client reads back exactly the queued messages, in order, if and only if the run is unmixed. */
  lemma {:induction false} ReadsBackExactly(q: seq<Bytes>, gs: seq<Glimpse>, coalesce: bool)
    requires AllWellFormed(q)
    ensures ReadAll(Pump(q, gs, coalesce)) == Some(q) <==> Unmixed(q, gs, coalesce)
    decreases |q|
  {
    if q != [] {
      var g := Head(gs);
      var b := NextBatch(q, g, coalesce);
      var rest := q[b.size..];
      var frames := Pump(rest, Tail(gs), coalesce);
      BatchReads(q, g, coalesce);
      ReadsBackExactly(rest, Tail(gs), coalesce);
      if MixedBatch(q, g, coalesce) {
        ReadAllConcat(b.frames, frames);
      } else {
        ReadOne(b.frames[0]);
        assert b.frames == [b.frames[0]];
        assert q == q[..b.size] + rest;
        RestReads(b.frames, frames, q[..b.size], rest);
      }
    }
  }

  /* After frames that read as they should, all is read back exactly when the rest is. */
  lemma RestReads(fs: seq<Frame>, more: seq<Frame>, read: seq<Bytes>, rest: seq<Bytes>)
    requires ReadAll(fs) == Some(read)
    ensures ReadAll(fs + more) == Some(read + rest) <==> ReadAll(more) == Some(rest)
  {
    ReadAllConcat(fs, more);
    if ReadAll(more).Some? {
      SplitEqual(read, rest, ReadAll(more).value);
    }
  }

  lemma SplitEqual(a: seq<Bytes>, b: seq<Bytes>, r: seq<Bytes>)
    ensures a + r == a + b <==> r == b
  {
    if a + r == a + b {
      assert r == (a + r)[|a|..];
      assert b == (a + b)[|a|..];
    }
  }

  /* How many messages a burst takes: one without coalescing or with an empty channel; otherwise up to
     63 more, as many as were reported, are there and can still be received, and a binary burst stops
     before a text message. */
  lemma BatchSizeExactly(q: seq<Bytes>, g: Glimpse, coalesce: bool)
    requires q != []
    ensures var more := NextBatch(q, g, coalesce).size - 1;
            if !coalesce || g.length == 0 then more == 0
            else
              && 0 <= more <= 63 && more <= g.length && more <= g.available && more < |q|
              && (IsBinary(q[0]) ==> forall i :: 0 <= i <= more ==> IsBinary(q[i]))
              && (more == 63 || more == g.length || more == g.available || more == |q| - 1
                  || (IsBinary(q[0]) && !IsBinary(q[more + 1])))
  {
    if coalesce && g.length > 0 && IsBinary(q[0]) {
      var k := LeadingBinary(q[1..], Drained(g, |q| - 1));
      assert forall i :: 0 < i <= k ==> q[i] == q[1..][i - 1];
      assert k < Drained(g, |q| - 1) ==> q[k + 1] == q[1..][k];
    }
  }

  /* No frame that reads at all carries more than a batch. */
  lemma {:induction false} FramesAreSmall(q: seq<Bytes>, gs: seq<Glimpse>, coalesce: bool)
    requires AllWellFormed(q) && Unmixed(q, gs, coalesce)
    ensures forall f :: f in Pump(q, gs, coalesce) ==> Read(f).Some? && 0 < |Read(f).value| <= 64
    decreases |q|
  {
    if q != [] {
      var b := NextBatch(q, Head(gs), coalesce);
      BatchReads(q, Head(gs), coalesce);
      FramesAreSmall(q[b.size..], Tail(gs), coalesce);
    }
  }

  // ---- Which queues are safe whatever the pump glimpses ----

  /* No text message is directly followed by a binary one. */
  ghost predicate BinaryFirst(q: seq<Bytes>) {
    forall k :: 0 <= k < |q| - 1 ==> !(!IsBinary(q[k]) && IsBinary(q[k + 1]))
  }

  lemma {:induction false} TextToTheEnd(q: seq<Bytes>)
    requires BinaryFirst(q) && q != [] && !IsBinary(q[0])
    ensures NoBinary(q)
  {
    if |q| > 1 {
      assert !IsBinary(q[0 + 1]);
      BinaryFirstTail(q, 1);
      TextToTheEnd(q[1..]);
      assert forall k :: 0 < k < |q| ==> q[k] == q[1..][k - 1];
    }
  }

  lemma BinaryFirstTail(q: seq<Bytes>, n: nat)
    requires BinaryFirst(q) && n <= |q|
    ensures BinaryFirst(q[n..])
  {
    var r := q[n..];
    forall k | 0 <= k < |r| - 1
      ensures !(!IsBinary(r[k]) && IsBinary(r[k + 1]))
    {
      assert r[k] == q[n + k] && r[k + 1] == q[n + k + 1];
    }
  }

  lemma {:induction false} SafeQueueUnmixed(q: seq<Bytes>, gs: seq<Glimpse>, coalesce: bool)
    requires !coalesce || BinaryFirst(q)
    ensures Unmixed(q, gs, coalesce)
    decreases |q|
  {
    if q != [] {
      var b := NextBatch(q, Head(gs), coalesce);
      if coalesce {
        BinaryFirstTail(q, b.size);
        if !IsBinary(q[0]) {
          TextToTheEnd(q);
        }
      }
      SafeQueueUnmixed(q[b.size..], Tail(gs), coalesce);
    }
  }

  /* Sending one message at a time up to a text message, then seeing exactly one more. */
  function Unlucky(k: nat): seq<Glimpse> {
    if k == 0 then [Glimpse(1, 1)] else [Glimpse(0, 0)] + Unlucky(k - 1)
  }

  lemma {:induction false} UnluckyRunMixed(q: seq<Bytes>, k: nat)
    requires k < |q| - 1 && !IsBinary(q[k]) && IsBinary(q[k + 1])
    ensures !Unmixed(q, Unlucky(k), true)
    decreases k
  {
    if k == 0 {
      assert q[1..2][0] == q[1];
      assert MixedBatch(q, Head(Unlucky(0)), true);
    } else {
      assert NextBatch(q, Head(Unlucky(k)), true).size == 1;
      UnluckyRunMixed(q[1..], k - 1);
    }
  }

  /* A queue survives every batching exactly when coalescing is off or no text message in it is
     directly followed by a binary one. */
  lemma SafeQueuesExactly(q: seq<Bytes>, coalesce: bool)
    requires AllWellFormed(q)
    ensures (forall gs :: ReadAll(Pump(q, gs, coalesce)) == Some(q)) <==> !coalesce || BinaryFirst(q)
  {
    if !coalesce || BinaryFirst(q) {
      forall gs
        ensures ReadAll(Pump(q, gs, coalesce)) == Some(q)
      {
        SafeQueueUnmixed(q, gs, coalesce);
        ReadsBackExactly(q, gs, coalesce);
      }
    } else {
      var k :| 0 <= k < |q| - 1 && !IsBinary(q[k]) && IsBinary(q[k + 1]);
      UnluckyRunMixed(q, k);
      ReadsBackExactly(q, Unlucky(k), true);
    }
  }

  // ---- The pump itself ----

  /* `inbox` is what the pump receives, in order, until it blocks; each glimpse is one look at the
     channel. */
  method WritePump(inbox: seq<Bytes>, glimpses: seq<Glimpse>, coalesce: bool) returns (frames: seq<Frame>)
    ensures frames == Pump(inbox, glimpses, coalesce)
    ensures AllWellFormed(inbox) ==> (ReadAll(frames) == Some(inbox) <==> Unmixed(inbox, glimpses, coalesce))
  {
    var q, gs := inbox, glimpses;
    frames := [];
    while q != []
      invariant frames + Pump(q, gs, coalesce) == Pump(inbox, glimpses, coalesce)
      decreases |q|
    {
      var fs, rest := WriteBatch(q, Head(gs), coalesce);
      assert frames + (fs + Pump(rest, Tail(gs), coalesce)) == (frames + fs) + Pump(rest, Tail(gs), coalesce);
      frames, q, gs := frames + fs, rest, Tail(gs);
    }
    assert frames + [] == frames;
    ReadsBackIfWellFormed(inbox, glimpses, coalesce);
  }

  lemma ReadsBackIfWellFormed(q: seq<Bytes>, gs: seq<Glimpse>, coalesce: bool)
    ensures AllWellFormed(q) ==> (ReadAll(Pump(q, gs, coalesce)) == Some(q) <==> Unmixed(q, gs, coalesce))
  {
    if AllWellFormed(q) {
      ReadsBackExactly(q, gs, coalesce);
    }
  }

  /* One message received, with whatever burst follows it. A text message met while packing binary
     ones is handled like the next message received. */
  method WriteBatch(q: seq<Bytes>, g: Glimpse, coalesce: bool) returns (fs: seq<Frame>, rest: seq<Bytes>)
    requires q != []
    ensures fs == NextBatch(q, g, coalesce).frames && rest == q[NextBatch(q, g, coalesce).size..]
  {
    var msg := q[0];
    if !coalesce || g.length == 0 {
      fs, rest := [if IsBinary(msg) then BinaryFrame(msg) else TextFrame(msg)], q[1..];
    } else if IsBinary(msg) {
      var f;
      f, rest := DrainBinary(q, g);
      fs := [f];
    } else {
      fs, rest := DrainText(q, g);
    }
  }

  /* Packs binary messages until the burst is full, the channel is empty or a text message comes. */
  method DrainBinary(q: seq<Bytes>, g: Glimpse) returns (f: Frame, rest: seq<Bytes>)
    requires q != [] && IsBinary(q[0]) && g.length > 0
    ensures [f] == NextBatch(q, g, true).frames && rest == q[NextBatch(q, g, true).size..]
  {
    var n := Drained(g, |q| - 1);
    var buf := q[0];
    FlattenSnoc([], q[0]);
    var i := 0;
    while i < n && IsBinary(q[1 + i])
      invariant i <= n
      invariant buf == Flatten(q[..1 + i])
      invariant forall j :: 0 <= j < i ==> IsBinary(q[1..][j])
    {
      FlattenSnoc(q[..1 + i], q[1 + i]);
      assert q[..1 + i] + [q[1 + i]] == q[..2 + i];
      buf := buf + q[1 + i];
      i := i + 1;
    }
    LeadingBinaryIs(q[1..], n, i);
    f, rest := BinaryFrame(buf), q[1 + i..];
  }

  lemma {:induction false} FlattenSnoc(ms: seq<Bytes>, m: Bytes)
    ensures Flatten(ms + [m]) == Flatten(ms) + m
  {
    if ms == [] {
      assert ms + [m] == [m];
      assert [m][1..] == [];
    } else {
      assert (ms + [m])[1..] == ms[1..] + [m];
      FlattenSnoc(ms[1..], m);
    }
  }

  lemma {:induction false} LeadingBinaryIs(q: seq<Bytes>, n: nat, k: nat)
    requires k <= n <= |q|
    requires forall i :: 0 <= i < k ==> IsBinary(q[i])
    requires k < n ==> !IsBinary(q[k])
    ensures LeadingBinary(q, n) == k
  {
  }

  method DrainText(q: seq<Bytes>, g: Glimpse) returns (fs: seq<Frame>, rest: seq<Bytes>)
    requires q != [] && !IsBinary(q[0]) && g.length > 0
    ensures fs == NextBatch(q, g, true).frames && rest == q[NextBatch(q, g, true).size..]
  {
    var n := Drained(g, |q| - 1);
    var buf := [OPEN_BRACKET] + q[0];
    ghost var all := Burst(buf, q[1..1 + n]);
    fs := [];
    for i := 0 to n
      invariant fs + Burst(buf, q[1 + i..1 + n]) == all
    {
      var next := q[1 + i];
      assert q[1 + i..1 + n][1..] == q[2 + i..1 + n];
      if IsBinary(next) {
        buf := buf + [CLOSE_BRACKET];
        fs := fs + [TextFrame(buf), BinaryFrame(next)];
        continue;
      }
      buf := buf + [COMMA] + next;
    }
    fs := fs + [TextFrame(buf + [CLOSE_BRACKET])];
    rest := q[1 + n..];
  }
}
