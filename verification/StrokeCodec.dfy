/** The binary drawing frames: the stroke encoder and the receive-side operation counter
    (loadtest/main.go:669-714). A frame is self-delimiting, so frames may be concatenated. */
module StrokeCodec {
  import opened Models

  newtype Byte = n: int | 0 <= n < 256

  type Uint16 = n: int | 0 <= n < 65536

  datatype Point = Point(x: real, y: real)

  datatype Stroke = Stroke(points: seq<Point>, r: Byte, g: Byte, b: Byte, size: Byte)

  /* Clamp to 0..65535, then round half away from zero. */
  function Quantise(v: real): Uint16 {
    var c := if v < 0.0 then 0.0 else if v > 65535.0 then 65535.0 else v;
    (c + 0.5).Floor
  }

  function Hi(n: Uint16): Byte { (n / 256) as Byte }

  function Lo(n: Uint16): Byte { (n % 256) as Byte }

  function BigEndian(n: Uint16): seq<Byte> { [Hi(n), Lo(n)] }

  function FromBigEndian(hi: Byte, lo: Byte): Uint16 { hi as int * 256 + lo as int }

  type Pair = (Uint16, Uint16)

  function PairBytes(q: Pair): seq<Byte> { BigEndian(q.0) + BigEndian(q.1) }

  function PairsBytes(qs: seq<Pair>): (d: seq<Byte>)
    ensures |d| == 4 * |qs|
  {
    if qs == [] then [] else PairsBytes(qs[..|qs| - 1]) + PairBytes(qs[|qs| - 1])
  }

  function QuantisePoint(p: Point): Pair { (Quantise(p.x), Quantise(p.y)) }

  function Quantised(ps: seq<Point>): seq<Pair> {
    seq(|ps|, i requires 0 <= i < |ps| => QuantisePoint(ps[i]))
  }

  function PointBytes(ps: seq<Point>): seq<Byte> { PairsBytes(Quantised(ps)) }

  /* The count field is 16 bits wide and wraps. */
  function StrokeBytes(s: Stroke): (d: seq<Byte>)
    ensures |d| == 7 + 4 * |s.points|
  {
    Header(s) + PointBytes(s.points)
  }

  function Header(s: Stroke): seq<Byte> {
    [0x01, s.r, s.g, s.b, s.size] + BigEndian(|s.points| % 65536)
  }

  method EncodeBinaryStroke(s: Stroke) returns (buf: array<Byte>)
    ensures fresh(buf) && buf[..] == StrokeBytes(s)
  {
    var count := |s.points|;
    buf := new Byte[7 + count * 4];
    PutHeader(buf, s);
    PutPoints(buf, s.points, Header(s));
  }

  /* Fills in the points behind a header of seven bytes. */
  method PutPoints(buf: array<Byte>, points: seq<Point>, ghost header: seq<Byte>)
    requires buf.Length == 7 + 4 * |points| && |header| == 7 && buf[..7] == header
    modifies buf
    ensures buf[..] == header + PointBytes(points)
  {
    var off := 7;
    for i := 0 to |points|
      invariant off == 7 + 4 * i
      invariant buf[..off] == header + PointBytes(points[..i])
    {
      PutPoint(buf, off, points[i]);
      PointBytesSnoc(points[..i], points[i]);
      assert points[..i + 1] == points[..i] + [points[i]];
      off := off + 4;
    }
    assert points[..|points|] == points;
    assert buf[..off] == buf[..];
  }

  lemma PointBytesSnoc(ps: seq<Point>, p: Point)
    ensures PointBytes(ps + [p]) == PointBytes(ps) + PairBytes(QuantisePoint(p))
  {
    var qs := Quantised(ps + [p]);
    assert qs == Quantised(ps) + [QuantisePoint(p)];
    assert qs[..|ps|] == Quantised(ps);
  }

  method PutHeader(buf: array<Byte>, s: Stroke)
    requires buf.Length >= 7
    modifies buf
    ensures buf[..7] == Header(s)
  {
    buf[0] := 0x01;
    buf[1], buf[2], buf[3], buf[4] := s.r, s.g, s.b, s.size;
    PutUint16(buf, 5, |s.points| % 65536);
  }

  method PutPoint(buf: array<Byte>, off: nat, p: Point)
    requires off + 4 <= buf.Length
    modifies buf
    ensures buf[..off + 4] == old(buf[..off]) + PairBytes(QuantisePoint(p))
  {
    PutUint16(buf, off, Quantise(p.x));
    PutUint16(buf, off + 2, Quantise(p.y));
  }

  method PutUint16(buf: array<Byte>, off: nat, n: Uint16)
    requires off + 2 <= buf.Length
    modifies buf
    ensures buf[..off + 2] == old(buf[..off]) + BigEndian(n)
  {
    buf[off] := Hi(n);
    buf[off + 1] := Lo(n);
  }

  /* Reference reading of a stroke's points. */
  function ReadPairs(d: seq<Byte>): seq<Pair> {
    if |d| < 4 then []
    else
      var k := |d| - 4;
      ReadPairs(d[..k]) + [ReadPair(d[k..])]
  }

  function ReadPair(d: seq<Byte>): Pair
    requires |d| == 4
  {
    (FromBigEndian(d[0], d[1]), FromBigEndian(d[2], d[3]))
  }

  lemma BigEndianRoundTrip(n: Uint16)
    ensures FromBigEndian(Hi(n), Lo(n)) == n
  {
  }

  lemma PairRoundTrip(q: Pair)
    ensures ReadPair(PairBytes(q)) == q
  {
    BigEndianRoundTrip(q.0);
    BigEndianRoundTrip(q.1);
    assert PairBytes(q) == [Hi(q.0), Lo(q.0), Hi(q.1), Lo(q.1)];
  }

  lemma ReadPairsSnoc(d: seq<Byte>, last: seq<Byte>)
    requires |last| == 4
    ensures ReadPairs(d + last) == ReadPairs(d) + [ReadPair(last)]
  {
    assert (d + last)[..|d|] == d && (d + last)[|d|..] == last;
  }

  /* Reading back the bytes gives the quantised points. */
  lemma {:induction false} PairsRoundTrip(qs: seq<Pair>)
    ensures ReadPairs(PairsBytes(qs)) == qs
  {
    if qs != [] {
      var n := |qs| - 1;
      PairsRoundTrip(qs[..n]);
      ReadPairsSnoc(PairsBytes(qs[..n]), PairBytes(qs[n]));
      PairRoundTrip(qs[n]);
      assert qs == qs[..n] + [qs[n]];
    }
  }

  lemma StrokePointsRoundTrip(s: Stroke)
    ensures StrokeBytes(s)[7..] == PointBytes(s.points)
    ensures ReadPairs(StrokeBytes(s)[7..]) == Quantised(s.points)
  {
    PairsRoundTrip(Quantised(s.points));
    assert StrokeBytes(s)[7..] == PointBytes(s.points);
  }

  /* Length of the operation at the head of the data, if its header is complete and known. */
  function OpLength(d: seq<Byte>): (r: Option<nat>)
    ensures r.Some? ==> r.value > 0
  {
    if d == [] then None
    else if d[0] == 0x01 || d[0] == 0x04 then
      if |d| < 7 then None else Some(7 + 4 * FromBigEndian(d[5], d[6]))
    else if d[0] == 0x02 then Some(1)
    else if d[0] == 0x03 then Some(8)
    else None
  }

  /* Strokes and fills carry a count of four-byte points behind seven bytes, a clear is one byte and
     the third operation eight; anything else, or a header cut short, is unreadable. */
  lemma OpLengthExactly(d: seq<Byte>)
    requires d != []
    ensures d[0] == 2 ==> OpLength(d) == Some(1)
    ensures d[0] == 3 ==> OpLength(d) == Some(8)
    ensures d[0] in {1, 4} && |d| >= 7 ==> OpLength(d) == Some(7 + 4 * (256 * d[5] as int + d[6] as int))
    ensures d[0] in {1, 4} && |d| < 7 ==> OpLength(d) == None
    ensures d[0] !in {1, 2, 3, 4} ==> OpLength(d) == None
  {
  }

  /* Every byte of an encoded stroke. */
  lemma StrokeBytesExactly(s: Stroke)
    ensures var d := StrokeBytes(s);
            && |d| == 7 + 4 * |s.points|
            && d[0] == 1 && d[1] == s.r && d[2] == s.g && d[3] == s.b && d[4] == s.size
            && 256 * d[5] as int + d[6] as int == |s.points| % 65536
            && forall k :: 0 <= k < |s.points| ==> PointStandsAt(d, 7 + 4 * k, s.points[k])
  {
    forall k | 0 <= k < |s.points|
      ensures PointStandsAt(StrokeBytes(s), 7 + 4 * k, s.points[k])
    {
      PointStands(s, k);
    }
  }

  lemma PointStands(s: Stroke, k: nat)
    requires k < |s.points|
    ensures PointStandsAt(StrokeBytes(s), 7 + 4 * k, s.points[k])
  {
    var d, p := StrokeBytes(s), s.points[k];
    PairStands(Quantised(s.points), k);
    assert d[7 + 4 * k..7 + 4 * k + 4] == PointBytes(s.points)[4 * k..4 * k + 4];
    var four := PairBytes(QuantisePoint(p));
    var off := 7 + 4 * k;
    var window := d[off..off + 4];
    assert window[0] == d[off] && window[1] == d[off + 1] && window[2] == d[off + 2] && window[3] == d[off + 3];
    assert four == [Hi(Quantise(p.x)), Lo(Quantise(p.x)), Hi(Quantise(p.y)), Lo(Quantise(p.y))];
    QuantiseExactly(p.x);
    QuantiseExactly(p.y);
  }

  /* Two 16-bit numbers, high byte first, nearest to the clamped coordinates. */
  ghost predicate PointStandsAt(d: seq<Byte>, off: nat, p: Point) {
    && off + 4 <= |d|
    && NearestClamped(p.x, 256 * d[off] as int + d[off + 1] as int)
    && NearestClamped(p.y, 256 * d[off + 2] as int + d[off + 3] as int)
  }

  /* Half a unit goes up. */
  ghost predicate NearestClamped(v: real, n: int) {
    if v < 0.0 then n == 0
    else if v > 65535.0 then n == 65535
    else n as real - 0.5 <= v < n as real + 0.5
  }

  lemma QuantiseExactly(v: real)
    ensures NearestClamped(v, 256 * Hi(Quantise(v)) as int + Lo(Quantise(v)) as int)
  {
    BigEndianRoundTrip(Quantise(v));
  }

  lemma {:induction false} PairStands(qs: seq<Pair>, k: nat)
    requires k < |qs|
    ensures PairsBytes(qs)[4 * k..4 * k + 4] == PairBytes(qs[k])
  {
    var n := |qs| - 1;
    if k < n {
      PairStands(qs[..n], k);
      assert PairsBytes(qs)[4 * k..4 * k + 4] == PairsBytes(qs[..n])[4 * k..4 * k + 4];
    }
  }

  /* Where each operation ends, reading from an offset. */
  function Ends(d: seq<Byte>, off: nat): seq<nat>
    decreases |d| - off
  {
    if off >= |d| then []
    else match OpLength(d[off..])
      case None => []
      case Some(n) => [off + n] + Ends(d, off + n)
  }

  /* Operations begun, reading from an offset. */
  function OpsFrom(d: seq<Byte>, off: nat): nat
    decreases |d| - off
  {
    if off >= |d| then 0
    else match OpLength(d[off..])
      case None => 1
      case Some(n) => 1 + OpsFrom(d, off + n)
  }

  /* Where a reader stops. */
  function Stop(d: seq<Byte>, off: nat): nat
    decreases |d| - off
  {
    if off >= |d| then off
    else match OpLength(d[off..])
      case None => off
      case Some(n) => Stop(d, off + n)
  }

  /* One operation for every end, and one for the unreadable rest if the reader stops before the end. */
  lemma {:induction false} OpsExactly(d: seq<Byte>, off: nat)
    ensures OpsFrom(d, off) == |Ends(d, off)| + if Stop(d, off) < |d| then 1 else 0
    ensures Ends(d, off) != [] ==> Ends(d, off)[|Ends(d, off)| - 1] == Stop(d, off)
    decreases |d| - off
  {
    if off < |d| {
      match OpLength(d[off..])
      case None =>
      case Some(n) => OpsExactly(d, off + n);
    }
  }

  method CountBinaryOps(d: seq<Byte>) returns (count: nat)
    ensures count == if d == [] then 1 else OpsFrom(d, 0)
  {
    var off := 0;
    count := 0;
    while off < |d|
      invariant count + OpsFrom(d, off) == OpsFrom(d, 0)
      decreases |d| - off
    {
      count := count + 1;
      var op := d[off];
      if op == 0x01 || op == 0x04 {
        if off + 7 > |d| {
          break;
        }
        var ptCount: int := FromBigEndian(d[off + 5], d[off + 6]);
        off := off + 7 + ptCount * 4;
      } else if op == 0x02 {
        off := off + 1;
      } else if op == 0x03 {
        off := off + 8;
      } else {
        break;
      }
    }
    if count < 1 {
      count := 1;
    }
  }

  // ---- Bursts of frames ----

  function Flatten(ms: seq<seq<Byte>>): seq<Byte> {
    if ms == [] then [] else ms[0] + Flatten(ms[1..])
  }

  /* Where each frame's own bytes end. */
  function FrameEnds(ms: seq<seq<Byte>>, off: nat): seq<nat> {
    if ms == [] then [] else [off + |ms[0]|] + FrameEnds(ms[1..], off + |ms[0]|)
  }

  /* Whatever follows it, the frame reads as one operation of n bytes. */
  ghost predicate ReadsAs(m: seq<Byte>, n: nat) {
    m != [] && forall rest :: OpLength(m + rest) == Some(n)
  }

  lemma HeadInBurst(pre: seq<Byte>, m: seq<Byte>, rest: seq<Byte>, n: nat)
    requires ReadsAs(m, n)
    ensures var d := pre + (m + rest);
            && d == (pre + m) + rest && |pre| < |d|
            && OpLength(d[|pre|..]) == Some(n)
  {
    assert (pre + (m + rest))[|pre|..] == m + rest;
  }

  ghost predicate AllReadAs(ms: seq<seq<Byte>>, ns: seq<nat>) {
    |ms| == |ns| && forall k :: 0 <= k < |ms| ==> ReadsAs(ms[k], ns[k])
  }

  /* From an offset on, the burst's frames begin operations of ns bytes. */
  ghost predicate ReadsFrom(d: seq<Byte>, off: nat, ms: seq<seq<Byte>>, ns: seq<nat>)
    requires |ms| == |ns|
    decreases |ms|
  {
    if ms == [] then off == |d|
    else
      && off < |d| && OpLength(d[off..]) == Some(ns[0])
      && ReadsFrom(d, off + |ms[0]|, ms[1..], ns[1..])
  }

  lemma AfterHead(d: seq<Byte>, off: nat, m: seq<Byte>, rest: seq<Byte>)
    requires off <= |d| && d[off..] == m + rest
    ensures off + |m| <= |d| && d[off + |m|..] == rest
  {
    assert d[off + |m|..] == d[off..][|m|..];
  }

  lemma {:induction false} AllReadInBurst(d: seq<Byte>, off: nat, ms: seq<seq<Byte>>, ns: seq<nat>)
    requires AllReadAs(ms, ns) && off <= |d| && d[off..] == Flatten(ms)
    ensures ReadsFrom(d, off, ms, ns)
    decreases |ms|
  {
    if ms != [] {
      assert ReadsAs(ms[0], ns[0]);
      AfterHead(d, off, ms[0], Flatten(ms[1..]));
      AllReadInBurst(d, off + |ms[0]|, ms[1..], ns[1..]);
    }
  }

  lemma EndsStep(d: seq<Byte>, off: nat, n: nat)
    requires off < |d| && OpLength(d[off..]) == Some(n)
    ensures Ends(d, off) == [off + n] + Ends(d, off + n)
  {
  }

  lemma ConsEqual(x: nat, s: seq<nat>, y: nat, t: seq<nat>)
    ensures [x] + s == [y] + t <==> x == y && s == t
  {
    if [x] + s == [y] + t {
      assert ([x] + s)[0] == ([y] + t)[0];
      assert ([x] + s)[1..] == ([y] + t)[1..];
    }
  }

  ghost predicate ReadWhole(ms: seq<seq<Byte>>, ns: seq<nat>)
    requires |ms| == |ns|
  {
    forall k :: 0 <= k < |ms| ==> ns[k] == |ms[k]|
  }

  lemma BoundaryAt(d: seq<Byte>, off: nat, k: nat, n: nat, ends: seq<nat>)
    requires off < |d| && OpLength(d[off..]) == Some(n)
    ensures Ends(d, off) == [off + k] + ends <==> n == k && Ends(d, off + k) == ends
  {
    EndsStep(d, off, n);
    ConsEqual(off + n, Ends(d, off + n), off + k, ends);
  }

  /* The boundaries that a reader finds are the frame ends exactly when every frame reads whole. */
  lemma {:induction false} BurstBoundaries(d: seq<Byte>, off: nat, ms: seq<seq<Byte>>, ns: seq<nat>)
    requires |ms| == |ns| && ReadsFrom(d, off, ms, ns)
    ensures Ends(d, off) == FrameEnds(ms, off) <==> ReadWhole(ms, ns)
    decreases |ms|
  {
    if ms != [] {
      BurstBoundaries(d, off + |ms[0]|, ms[1..], ns[1..]);
      BoundaryAt(d, off, |ms[0]|, ns[0], FrameEnds(ms[1..], off + |ms[0]|));
      BurstTail(ms, ns);
    }
  }

  lemma BurstTail(ms: seq<seq<Byte>>, ns: seq<nat>)
    requires |ms| == |ns| > 0
    ensures ReadWhole(ms, ns) <==> ns[0] == |ms[0]| && ReadWhole(ms[1..], ns[1..])
  {
    if ns[0] == |ms[0]| && ReadWhole(ms[1..], ns[1..]) {
      forall k | 0 < k < |ms|
        ensures ns[k] == |ms[k]|
      {
        assert ns[1..][k - 1] == |ms[1..][k - 1]|;
      }
    }
  }

  lemma {:induction false} BurstCount(pre: seq<Byte>, ms: seq<seq<Byte>>)
    requires forall k :: 0 <= k < |ms| ==> ReadsAs(ms[k], |ms[k]|)
    ensures OpsFrom(pre + Flatten(ms), |pre|) == |ms|
    decreases |ms|
  {
    if ms == [] {
      assert pre + Flatten(ms) == pre;
    } else {
      HeadInBurst(pre, ms[0], Flatten(ms[1..]), |ms[0]|);
      BurstCount(pre + ms[0], ms[1..]);
    }
  }

  // ---- Bursts of strokes ----

  /* Seven header bytes starting with the stroke opcode settle the length. */
  lemma HeaderReadsAs(h: seq<Byte>, tail: seq<Byte>, c: Uint16)
    requires |h| == 7 && h[0] == 0x01 && h[5] == Hi(c) && h[6] == Lo(c)
    ensures ReadsAs(h + tail, 7 + 4 * c)
  {
    BigEndianRoundTrip(c);
    forall rest
      ensures OpLength((h + tail) + rest) == Some(7 + 4 * c)
    {
      var d := (h + tail) + rest;
      assert d[0] == h[0] && d[5] == h[5] && d[6] == h[6];
    }
  }

  lemma StrokeReadsAs(s: Stroke)
    ensures ReadsAs(StrokeBytes(s), 7 + 4 * (|s.points| % 65536))
  {
    HeaderReadsAs(Header(s), PointBytes(s.points), |s.points| % 65536);
  }

  function Frames(ss: seq<Stroke>): seq<seq<Byte>> {
    seq(|ss|, k requires 0 <= k < |ss| => StrokeBytes(ss[k]))
  }

  lemma CountWraps(n: nat)
    ensures n % 65536 == n <==> n <= 65535
  {
  }

  /* A burst of strokes splits at the original frame ends exactly when every point count fits its
     16-bit field, */
  lemma StrokeBoundariesExactly(ss: seq<Stroke>)
    ensures Ends(Flatten(Frames(ss)), 0) == FrameEnds(Frames(ss), 0)
            <==> forall k :: 0 <= k < |ss| ==> |ss[k].points| <= 65535
  {
    var ms := Frames(ss);
    var ns: seq<nat> := seq(|ss|, k requires 0 <= k < |ss| => 7 + 4 * (|ss[k].points| % 65536));
    forall k | 0 <= k < |ss|
      ensures ReadsAs(ms[k], ns[k])
      ensures ns[k] == |ms[k]| <==> |ss[k].points| <= 65535
    {
      StrokeReadsAs(ss[k]);
      CountWraps(|ss[k].points|);
    }
    var d := Flatten(ms);
    assert d[0..] == d;
    AllReadInBurst(d, 0, ms, ns);
    BurstBoundaries(d, 0, ms, ns);
  }

  /* and then counts as that many operations. */
  lemma CountsEveryStroke(ss: seq<Stroke>)
    requires forall k :: 0 <= k < |ss| ==> |ss[k].points| <= 65535
    ensures OpsFrom(Flatten(Frames(ss)), 0) == |ss|
  {
    var ms := Frames(ss);
    forall k | 0 <= k < |ss|
      ensures ReadsAs(ms[k], |ms[k]|)
    {
      StrokeReadsAs(ss[k]);
      CountWraps(|ss[k].points|);
    }
    BurstCount([], ms);
    assert [] + Flatten(ms) == Flatten(ms);
  }

  // ---- Splitting any run of operations ----

  ghost predicate IsOp(m: seq<Byte>) { OpLength(m) == Some(|m|) }

  lemma OpReadsAs(m: seq<Byte>)
    requires IsOp(m)
    ensures ReadsAs(m, |m|)
  {
  }

  function SplitOps(d: seq<Byte>): Option<seq<seq<Byte>>>
    decreases |d|
  {
    if d == [] then Some([])
    else match OpLength(d)
      case None => None
      case Some(n) =>
        if n > |d| then None
        else match SplitOps(d[n..])
          case None => None
          case Some(tail) => Some([d[..n]] + tail)
  }

  lemma {:induction false} SplitFlatten(ms: seq<seq<Byte>>)
    requires forall k :: 0 <= k < |ms| ==> ReadsAs(ms[k], |ms[k]|)
    ensures SplitOps(Flatten(ms)) == Some(ms)
    decreases |ms|
  {
    if ms != [] {
      var m, rest := ms[0], Flatten(ms[1..]);
      SplitFlatten(ms[1..]);
      assert (m + rest)[..|m|] == m && (m + rest)[|m|..] == rest;
      assert ms == [m] + ms[1..];
    }
  }
}
