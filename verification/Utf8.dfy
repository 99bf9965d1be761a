/** UTF-8 text and wide text, both ended by a zero. A wide character holds 32 bits. */
module Utf8 {
  import opened Options

  type Byte = bv8
  type Point = bv32

  /** The character a pointer into the text meets: beyond the text there is the terminator. */
  function At<T>(s: seq<T>, i: nat, terminator: T): T {
    if i < |s| then s[i] else terminator
  }

  // ---------------------------------------------------------------- one character

  /** The bits of a lead byte and the number of bytes that have to follow it. */
  function Lead(ch: Byte): Option<(Point, nat)> {
    if ch < 0x80 then Some((ch as Point, 0))
    else if ch & 0xE0 == 0xC0 then Some(((ch & 0x1F) as Point, 1))
    else if ch & 0xF0 == 0xE0 then Some(((ch & 0x0F) as Point, 2))
    else if ch & 0xF8 == 0xF0 then Some(((ch & 0x07) as Point, 3))
    else None
  }

  predicate Continuation(next: Byte) {
    next & 0xC0 == 0x80
  }

  function Extend(point: Point, next: Byte): Point {
    (point << 6) | ((next & 0x3F) as Point)
  }

  /** `point` with the bits of the next `extra` bytes. */
  function Continue(s: seq<Byte>, point: Point, extra: nat): Option<Point>
    decreases extra
  {
    if extra == 0 then Some(point)
    else if s == [] || !Continuation(s[0]) then None
    else Continue(s[1..], Extend(point, s[0]), extra - 1)
  }

  /** The code point that `s` starts with and the bytes it takes. */
  function ReadPoint(s: seq<Byte>): (r: Option<(Point, nat)>)
    requires s != []
    ensures r.Some? ==> 1 <= r.value.1 <= 4
  {
    match Lead(s[0])
    case None => None
    case Some((point, extra)) =>
      match Continue(s[1..], point, extra)
      case None => None
      case Some(p) => Some((p, 1 + extra))
  }

  lemma {:induction false} ContinueLength(s: seq<Byte>, point: Point, extra: nat)
    ensures Continue(s, point, extra).Some? ==> extra <= |s|
    decreases extra
  {
    if extra > 0 && s != [] {
      ContinueLength(s[1..], Extend(point, s[0]), extra - 1);
    }
  }

  lemma ReadLength(s: seq<Byte>)
    requires s != [] && ReadPoint(s).Some?
    ensures ReadPoint(s).value.1 <= |s|
  {
    var (point, extra) := Lead(s[0]).value;
    ContinueLength(s[1..], point, extra);
  }

  function Low(p: Point): Byte {
    (p & 0xFF) as Byte
  }

  /** The bytes of a code point; none beyond the last one of Unicode. */
  function WritePoint(p: Point): (r: Option<seq<Byte>>)
    ensures r.Some? <==> p <= 0x10FFFF
    ensures r.Some? ==> 1 <= |r.value| <= 4
  {
    if p <= 0x7F then Some([Low(p)])
    else if p <= 0x7FF then Some([Low((p >> 6) | 0xC0), Low((p & 0x3F) | 0x80)])
    else if p <= 0xFFFF then
      Some([Low((p >> 12) | 0xE0), Low(((p >> 6) & 0x3F) | 0x80), Low((p & 0x3F) | 0x80)])
    else if p <= 0x10FFFF then
      Some([Low((p >> 18) | 0xF0), Low(((p >> 12) & 0x3F) | 0x80), Low(((p >> 6) & 0x3F) | 0x80), Low((p & 0x3F) | 0x80)])
    else None
  }

  /** The least code point that needs this many bytes. */
  function Minimum(bytes: nat): Point {
    if bytes <= 1 then 0 else if bytes == 2 then 0x80 else if bytes == 3 then 0x800 else 0x1_0000
  }

  // ---------------------------------------------------------------- bits

  lemma Bits1(p: Point)
    requires p <= 0x7F
    ensures Lead(Low(p)) == Some((p, 0))
    ensures p != 0 ==> Low(p) != 0
  {
  }

  lemma Bits2(p: Point)
    requires 0x7F < p <= 0x7FF
    ensures var a, b := Low((p >> 6) | 0xC0), Low((p & 0x3F) | 0x80);
            a != 0 && Lead(a) == Some(((a & 0x1F) as Point, 1)) && Continuation(b) && Extend((a & 0x1F) as Point, b) == p
  {
  }

  lemma Bits3(p: Point)
    requires 0x7FF < p <= 0xFFFF
    ensures var a, b, c := Low((p >> 12) | 0xE0), Low(((p >> 6) & 0x3F) | 0x80), Low((p & 0x3F) | 0x80);
            && a != 0 && Lead(a) == Some(((a & 0x0F) as Point, 2)) && Continuation(b) && Continuation(c)
            && Extend(Extend((a & 0x0F) as Point, b), c) == p
  {
  }

  lemma Bits4(p: Point)
    requires 0xFFFF < p <= 0x10FFFF
    ensures var a, b, c, d :=
              Low((p >> 18) | 0xF0), Low(((p >> 12) & 0x3F) | 0x80), Low(((p >> 6) & 0x3F) | 0x80), Low((p & 0x3F) | 0x80);
            && a != 0 && Lead(a) == Some(((a & 0x07) as Point, 3))
            && Continuation(b) && Continuation(c) && Continuation(d)
            && Extend(Extend(Extend((a & 0x07) as Point, b), c), d) == p
  {
  }

  lemma Back2(a: Byte, b: Byte)
    requires a & 0xE0 == 0xC0 && Continuation(b)
    ensures var p := Extend((a & 0x1F) as Point, b);
            p <= 0x7FF && Low((p >> 6) | 0xC0) == a && Low((p & 0x3F) | 0x80) == b
  {
  }

  lemma Back3(a: Byte, b: Byte, c: Byte)
    requires a & 0xF0 == 0xE0 && Continuation(b) && Continuation(c)
    ensures var p := Extend(Extend((a & 0x0F) as Point, b), c);
            && p <= 0xFFFF && Low((p >> 12) | 0xE0) == a && Low(((p >> 6) & 0x3F) | 0x80) == b
            && Low((p & 0x3F) | 0x80) == c
  {
  }

  lemma Back4(a: Byte, b: Byte, c: Byte, d: Byte)
    requires a & 0xF8 == 0xF0 && Continuation(b) && Continuation(c) && Continuation(d)
    ensures var p := Extend(Extend(Extend((a & 0x07) as Point, b), c), d);
            && Low((p >> 18) | 0xF0) == a && Low(((p >> 12) & 0x3F) | 0x80) == b
            && Low(((p >> 6) & 0x3F) | 0x80) == c && Low((p & 0x3F) | 0x80) == d
  {
  }

  /** `bytes` make the code point `p`; the code point makes these bytes, or fewer if it is less than
      they are needed for. Only four bytes can make more than a code point. */
  predicate Made(p: Point, bytes: seq<Byte>) {
    && (|bytes| <= 3 ==> p <= 0x10FFFF)
    && (Minimum(|bytes|) <= p <= 0x10FFFF ==> WritePoint(p) == Some(bytes))
    && (p < Minimum(|bytes|) ==> |WritePoint(p).value| < |bytes|)
  }

  lemma Made1(a: Byte)
    requires a < 0x80
    ensures Made(a as Point, [a])
  {
    assert a as Point <= 0x7F && Low(a as Point) == a;
  }

  lemma Made2(p: Point, a: Byte, b: Byte)
    requires p <= 0x7FF && Low((p >> 6) | 0xC0) == a && Low((p & 0x3F) | 0x80) == b
    ensures Made(p, [a, b])
  {
  }

  lemma Made3(p: Point, a: Byte, b: Byte, c: Byte)
    requires p <= 0xFFFF && Low((p >> 12) | 0xE0) == a
    requires Low(((p >> 6) & 0x3F) | 0x80) == b && Low((p & 0x3F) | 0x80) == c
    ensures Made(p, [a, b, c])
  {
  }

  lemma Made4(p: Point, a: Byte, b: Byte, c: Byte, d: Byte)
    requires Low((p >> 18) | 0xF0) == a && Low(((p >> 12) & 0x3F) | 0x80) == b
    requires Low(((p >> 6) & 0x3F) | 0x80) == c && Low((p & 0x3F) | 0x80) == d
    ensures Made(p, [a, b, c, d])
  {
  }

  /** The table of section 3 of RFC 3629: how many bytes a code point takes, and its bits six at a time
      behind the lead byte. */
  lemma WrittenAs(p: Point)
    ensures p <= 0x7F ==> WritePoint(p) == Some([p as Byte])
    ensures 0x7F < p <= 0x7FF ==>
              WritePoint(p).Some? && |WritePoint(p).value| == 2
              && var b := WritePoint(p).value;
                 0xC0 <= b[0] <= 0xDF && 0x80 <= b[1] <= 0xBF && p == (b[0] as Point - 0xC0) * 64 + (b[1] as Point - 0x80)
    ensures p > 0x10FFFF ==> WritePoint(p).None?
  {
  }

  lemma LengthByPoint(p: Point)
    ensures 0x7FF < p <= 0xFFFF ==> WritePoint(p).Some? && |WritePoint(p).value| == 3
    ensures 0xFFFF < p <= 0x10FFFF ==> WritePoint(p).Some? && |WritePoint(p).value| == 4
  {
  }

  /** The examples of section 7 of RFC 3629: A, not identical to, Alpha, and a character of four
      bytes. */
  lemma Examples()
    ensures WritePoint(0x0041) == Some([0x41]) && WritePoint(0x2262) == Some([0xE2, 0x89, 0xA2])
    ensures WritePoint(0x0391) == Some([0xCE, 0x91]) && WritePoint(0x233B4) == Some([0xF0, 0xA3, 0x8E, 0xB4])
    ensures ReadPoint([0xE2, 0x89, 0xA2]) == Some((0x2262, 3)) && ReadPoint([0xF0, 0xA3, 0x8E, 0xB4]) == Some((0x233B4, 4))
  {
    assert WritePoint(0x2262) == Some([0xE2, 0x89, 0xA2]);
    assert WritePoint(0x233B4) == Some([0xF0, 0xA3, 0x8E, 0xB4]);
    PointRoundTrip(0x2262, []);
    PointRoundTrip(0x233B4, []);
  }

  // ---------------------------------------------------------------- reading what was written

  lemma {:induction false} ContinuePrefix(bytes: seq<Byte>, rest: seq<Byte>, point: Point, extra: nat)
    requires extra <= |bytes|
    ensures Continue(bytes + rest, point, extra) == Continue(bytes, point, extra)
    decreases extra
  {
    if extra > 0 {
      assert (bytes + rest)[1..] == bytes[1..] + rest;
      ContinuePrefix(bytes[1..], rest, Extend(point, bytes[0]), extra - 1);
    }
  }

  lemma ReadPrefix(bytes: seq<Byte>, rest: seq<Byte>)
    requires bytes != [] && ReadPoint(bytes).Some? && ReadPoint(bytes).value.1 == |bytes|
    ensures ReadPoint(bytes + rest) == ReadPoint(bytes)
  {
    var (point, extra) := Lead(bytes[0]).value;
    assert (bytes + rest)[1..] == bytes[1..] + rest;
    ContinuePrefix(bytes[1..], rest, point, extra);
  }

  lemma Reads2(a: Byte, b: Byte, lead: Point)
    requires Lead(a) == Some((lead, 1)) && Continuation(b)
    ensures ReadPoint([a, b]) == Some((Extend(lead, b), 2))
  {
    assert [a, b][1..] == [b];
    assert Continue([b], lead, 1) == Some(Extend(lead, b));
  }

  lemma Reads3(a: Byte, b: Byte, c: Byte, lead: Point)
    requires Lead(a) == Some((lead, 2)) && Continuation(b) && Continuation(c)
    ensures ReadPoint([a, b, c]) == Some((Extend(Extend(lead, b), c), 3))
  {
    assert [a, b, c][1..] == [b, c] && [b, c][1..] == [c];
    assert Continue([c], Extend(lead, b), 1) == Some(Extend(Extend(lead, b), c));
  }

  lemma Reads4(a: Byte, b: Byte, c: Byte, d: Byte, lead: Point)
    requires Lead(a) == Some((lead, 3)) && Continuation(b) && Continuation(c) && Continuation(d)
    ensures ReadPoint([a, b, c, d]) == Some((Extend(Extend(Extend(lead, b), c), d), 4))
  {
    assert [a, b, c, d][1..] == [b, c, d] && [b, c, d][1..] == [c, d] && [c, d][1..] == [d];
    assert Continue([d], Extend(Extend(lead, b), c), 1) == Some(Extend(Extend(Extend(lead, b), c), d));
    assert Continue([c, d], Extend(lead, b), 2) == Continue([d], Extend(Extend(lead, b), c), 1);
  }

  /** A written code point is read back, whatever follows it. */
  lemma PointRoundTrip(p: Point, rest: seq<Byte>)
    requires p <= 0x10FFFF
    ensures var bytes := WritePoint(p).value;
            ReadPoint(bytes + rest) == Some((p, |bytes|)) && (p != 0 ==> bytes[0] != 0)
  {
    var bytes := WritePoint(p).value;
    if p <= 0x7F {
      Bits1(p);
    } else if p <= 0x7FF {
      Bits2(p);
      Reads2(bytes[0], bytes[1], (bytes[0] & 0x1F) as Point);
    } else if p <= 0xFFFF {
      Bits3(p);
      Reads3(bytes[0], bytes[1], bytes[2], (bytes[0] & 0x0F) as Point);
    } else {
      Bits4(p);
      Reads4(bytes[0], bytes[1], bytes[2], bytes[3], (bytes[0] & 0x07) as Point);
    }
    ReadPrefix(bytes, rest);
  }

  /** The code point of as many bytes as the lead byte announces. */
  predicate Bytes2(s: seq<Byte>, p: Point) {
    |s| >= 2 && s[0] & 0xE0 == 0xC0 && Continuation(s[1]) && p == Extend((s[0] & 0x1F) as Point, s[1])
  }

  predicate Bytes3(s: seq<Byte>, p: Point) {
    |s| >= 3 && s[0] & 0xF0 == 0xE0 && Continuation(s[1]) && Continuation(s[2])
    && p == Extend(Extend((s[0] & 0x0F) as Point, s[1]), s[2])
  }

  predicate Bytes4(s: seq<Byte>, p: Point) {
    |s| >= 4 && s[0] & 0xF8 == 0xF0 && Continuation(s[1]) && Continuation(s[2]) && Continuation(s[3])
    && p == Extend(Extend(Extend((s[0] & 0x07) as Point, s[1]), s[2]), s[3])
  }

  lemma Unfolded(s: seq<Byte>, p: Point, n: nat)
    requires s != [] && ReadPoint(s) == Some((p, n))
    ensures n == 1 ==> s[0] < 0x80 && p == s[0] as Point
    ensures n == 2 ==> Bytes2(s, p)
    ensures n == 3 ==> Bytes3(s, p)
    ensures n == 4 ==> Bytes4(s, p)
  {
    ReadLength(s);
    if n >= 2 {
      assert s[1..][0] == s[1];
    }
    if n >= 3 {
      assert s[1..][1..][0] == s[2];
    }
    if n >= 4 {
      assert s[1..][1..][1..][0] == s[3];
    }
  }

  lemma MadeOf2(s: seq<Byte>, p: Point)
    requires Bytes2(s, p)
    ensures Made(p, s[..2])
  {
    Back2(s[0], s[1]);
    Made2(p, s[0], s[1]);
    assert s[..2] == [s[0], s[1]];
  }

  lemma MadeOf3(s: seq<Byte>, p: Point)
    requires Bytes3(s, p)
    ensures Made(p, s[..3])
  {
    Back3(s[0], s[1], s[2]);
    Made3(p, s[0], s[1], s[2]);
    assert s[..3] == [s[0], s[1], s[2]];
  }

  lemma MadeOf4(s: seq<Byte>, p: Point)
    requires Bytes4(s, p)
    ensures Made(p, s[..4])
  {
    Back4(s[0], s[1], s[2], s[3]);
    Made4(p, s[0], s[1], s[2], s[3]);
    assert s[..4] == [s[0], s[1], s[2], s[3]];
  }

  /** A code point that was read is written as the bytes it was read from exactly if no shorter
      form exists; otherwise as fewer, or not at all. */
  lemma ShortestForm(s: seq<Byte>, p: Point, n: nat)
    requires s != [] && ReadPoint(s) == Some((p, n))
    ensures n <= |s| && Made(p, s[..n])
  {
    ReadLength(s);
    Unfolded(s, p, n);
    if n == 1 {
      Made1(s[0]);
      assert s[..1] == [s[0]];
    } else if n == 2 {
      MadeOf2(s, p);
    } else if n == 3 {
      MadeOf3(s, p);
    } else {
      MadeOf4(s, p);
    }
  }
}

/** Whole texts. */
module Utf8Text {
  import opened Options
  import opened Utf8

  /** The code points before the first zero; none if a byte is out of place. */
  function Decode(s: seq<Byte>): Option<seq<Point>>
    decreases |s|
  {
    if s == [] || s[0] == 0 then Some([])
    else
      match ReadPoint(s)
      case None => None
      case Some((p, n)) =>
        ReadLength(s);
        match Decode(s[n..])
        case None => None
        case Some(w) => Some([p] + w)
  }

  function Encode(w: seq<Point>): Option<seq<Byte>> {
    if w == [] || w[0] == 0 then Some([])
    else
      match WritePoint(w[0])
      case None => None
      case Some(bytes) =>
        match Encode(w[1..])
        case None => None
        case Some(s) => Some(bytes + s)
  }

  /** What cannot be converted becomes the empty text. */
  function Wide(s: seq<Byte>): seq<Point> {
    match Decode(s)
    case None => []
    case Some(w) => w
  }

  function Narrow(w: seq<Point>): seq<Byte> {
    match Encode(w)
    case None => []
    case Some(s) => s
  }

  function Normalized(s: seq<Byte>): seq<Byte> {
    Narrow(Wide(s))
  }

  // ---------------------------------------------------------------- the loops

  method ReadOne(s: seq<Byte>, start: nat) returns (point: Option<Point>, next: nat)
    requires start < |s|
    ensures point == match ReadPoint(s[start..]) case None => None case Some((p, _)) => Some(p)
    ensures point.Some? ==> start < next <= |s| && next == start + ReadPoint(s[start..]).value.1
  {
    next := start + 1;
    var lead := Lead(s[start]);
    if lead.None? {
      return None, next;
    }
    var codePoint, extraBytes := lead.value.0, lead.value.1;
    assert s[start..][1..] == s[start + 1..];
    for index := 0 to extraBytes
      invariant next == start + 1 + index <= |s|
      invariant Continue(s[next..], codePoint, extraBytes - index) == Continue(s[start + 1..], lead.value.0, extraBytes)
    {
      var byte := At(s, next, 0);
      if !Continuation(byte) {
        return None, next;
      }
      assert next < |s|;
      assert s[next..][1..] == s[next + 1..];
      codePoint := Extend(codePoint, byte);
      next := next + 1;
    }
    point := Some(codePoint);
  }

  method StringToWstring(s: seq<Byte>) returns (result: seq<Point>)
    ensures result == Wide(s)
  {
    result := [];
    var ptr := 0;
    assert s[0..] == s;
    OntoNothing(Decode(s));
    while At(s, ptr, 0) != 0
      invariant ptr <= |s| && Onto(result, Decode(s[ptr..])) == Decode(s)
      decreases |s| - ptr
    {
      var point, next := ReadOne(s, ptr);
      if point.None? {
        return [];
      }
      assert s[ptr..][next - ptr..] == s[next..];
      Shift(result, point.value, Decode(s[next..]));
      result := result + [point.value];
      ptr := next;
    }
    assert result + [] == result;
  }

  lemma Shift<T>(done: seq<T>, one: T, rest: Option<seq<T>>)
    ensures Onto(done + [one], rest) == Onto(done, Onto([one], rest))
  {
    if rest.Some? {
      assert done + [one] + rest.value == done + ([one] + rest.value);
    }
  }

  lemma ShiftAll<T>(done: seq<T>, more: seq<T>, rest: Option<seq<T>>)
    ensures Onto(done + more, rest) == Onto(done, Onto(more, rest))
  {
    if rest.Some? {
      assert done + more + rest.value == done + (more + rest.value);
    }
  }

  method WstringToString(w: seq<Point>) returns (result: seq<Byte>)
    ensures result == Narrow(w)
  {
    result := [];
    var ptr := 0;
    assert w[0..] == w;
    OntoNothing(Encode(w));
    while At(w, ptr, 0) != 0
      invariant ptr <= |w| && Onto(result, Encode(w[ptr..])) == Encode(w)
      decreases |w| - ptr
    {
      var bytes := WritePoint(w[ptr]);
      if bytes.None? {
        return [];
      }
      assert w[ptr..][1..] == w[ptr + 1..];
      ShiftAll(result, bytes.value, Encode(w[ptr + 1..]));
      result := result + bytes.value;
      ptr := ptr + 1;
    }
    assert result + [] == result;
  }

  method NormalizeOctalEscapedUtf8(s: seq<Byte>) returns (result: seq<Byte>)
    ensures result == Normalized(s)
  {
    var wide := StringToWstring(s);
    result := WstringToString(wide);
  }

  // ---------------------------------------------------------------- there and back

  /** Wide text whose characters are code points, and none of them the terminator. */
  predicate Points(w: seq<Point>) {
    forall i :: 0 <= i < |w| ==> 0 < w[i] <= 0x10FFFF
  }

  lemma {:induction false} DecodesEncoded(w: seq<Point>)
    requires Points(w)
    ensures Encode(w).Some? && Decode(Encode(w).value) == Some(w)
    decreases |w|
  {
    if w != [] {
      DecodesEncoded(w[1..]);
      var bytes, s := WritePoint(w[0]).value, Encode(w[1..]).value;
      PointRoundTrip(w[0], s);
      assert (bytes + s)[|bytes|..] == s;
      assert [w[0]] + w[1..] == w;
    }
  }

  /** Every wide text of code points survives the way through bytes. */
  lemma WideRoundTrip(w: seq<Point>)
    requires Points(w)
    ensures Wide(Narrow(w)) == w
  {
    DecodesEncoded(w);
  }

  /** A code point other than zero that needs this many bytes. */
  predicate Proper(p: Point, n: nat) {
    p != 0 && Minimum(n) <= p <= 0x10FFFF
  }

  /** UTF-8 proper, zero-free: every code point in its shortest form and none beyond the last.
      Surrogates are let through. */
  predicate ShortestUtf8(s: seq<Byte>)
    decreases |s|
  {
    s == []
    || match ReadPoint(s)
       case None => false
       case Some((p, n)) =>
         ReadLength(s);
         Proper(p, n) && ShortestUtf8(s[n..])
  }

  predicate ZeroFree(s: seq<Byte>) {
    forall i :: 0 <= i < |s| ==> s[i] != 0
  }

  lemma EncodeCons(p: Point, w: seq<Point>)
    ensures p == 0 ==> Encode([p] + w) == Some([])
    ensures p > 0x10FFFF ==> Encode([p] + w) == None
    ensures 0 < p <= 0x10FFFF ==> Encode([p] + w) == Onto(WritePoint(p).value, Encode(w))
  {
    assert ([p] + w)[1..] == w;
  }

  lemma DecodeStep(s: seq<Byte>, p: Point, n: nat)
    requires s != [] && s[0] != 0 && ReadPoint(s) == Some((p, n)) && n <= |s|
    ensures Decode(s) == Onto([p], Decode(s[n..]))
  {
  }

  lemma ShortestStep(s: seq<Byte>, p: Point, n: nat)
    requires s != [] && ReadPoint(s) == Some((p, n)) && n <= |s|
    ensures ShortestUtf8(s) <==> Proper(p, n) && ShortestUtf8(s[n..])
  {
  }

  /** What `Reproduces` says of `s`, `r` being what it is read and written to. */
  predicate Reproduced(shortest: bool, r: Option<seq<Byte>>, s: seq<Byte>) {
    && (shortest ==> r == Some(s))
    && (r.Some? ==> |r.value| <= |s| && (|r.value| == |s| ==> shortest))
  }

  /** One more code point in front. */
  lemma OneMore(p: Point, bytes: seq<Byte>, shortest: bool, w: seq<Point>, rest: seq<Byte>)
    requires bytes != [] && Made(p, bytes) && Reproduced(shortest, Encode(w), rest)
    ensures Reproduced(Proper(p, |bytes|) && shortest, Encode([p] + w), bytes + rest)
  {
    EncodeCons(p, w);
  }

  function Reencoded(d: Option<seq<Point>>): Option<seq<Byte>> {
    match d
    case None => None
    case Some(w) => Encode(w)
  }

  function Rewritten(s: seq<Byte>): Option<seq<Byte>> {
    Reencoded(Decode(s))
  }

  /** `Reproduced` from the rest of the text to the whole of it: `d` is what the rest reads as. */
  lemma ReproducedOn(p: Point, bytes: seq<Byte>, shortest: bool, d: Option<seq<Point>>, rest: seq<Byte>)
    requires bytes != [] && Made(p, bytes) && Reproduced(shortest, Reencoded(d), rest)
    ensures Reproduced(Proper(p, |bytes|) && shortest, Reencoded(Onto([p], d)), bytes + rest)
  {
    if d.Some? {
      OneMore(p, bytes, shortest, d.value, rest);
    }
  }

  lemma StepForward(s: seq<Byte>, p: Point, n: nat, shortest: bool, d: Option<seq<Point>>)
    requires s != [] && ReadPoint(s) == Some((p, n)) && n <= |s|
    requires Reproduced(shortest, Reencoded(d), s[n..])
    ensures Reproduced(Proper(p, n) && shortest, Reencoded(Onto([p], d)), s)
  {
    ShortestForm(s, p, n);
    ReproducedOn(p, s[..n], shortest, d, s[n..]);
    assert s[..n] + s[n..] == s;
  }

  lemma Rename(s: seq<Byte>, a: bool, b: bool, d: Option<seq<Point>>, e: Option<seq<Point>>)
    requires a == b && d == e && Reproduced(a, Reencoded(d), s)
    ensures Reproduced(b, Reencoded(e), s)
  {
  }

  lemma ReproducesStep(s: seq<Byte>, p: Point, n: nat)
    requires s != [] && s[0] != 0 && ReadPoint(s) == Some((p, n)) && n <= |s|
    requires Reproduced(ShortestUtf8(s[n..]), Rewritten(s[n..]), s[n..])
    ensures Reproduced(ShortestUtf8(s), Rewritten(s), s)
  {
    StepForward(s, p, n, ShortestUtf8(s[n..]), Decode(s[n..]));
    DecodeStep(s, p, n);
    ShortestStep(s, p, n);
    Rename(s, Proper(p, n) && ShortestUtf8(s[n..]), ShortestUtf8(s), Onto([p], Decode(s[n..])), Decode(s));
  }

  lemma Unreadable(s: seq<Byte>)
    requires s != [] && s[0] != 0 && ReadPoint(s).None?
    ensures Decode(s).None? && !ShortestUtf8(s)
  {
  }

  /** Writing what was read never takes more bytes, and as many only for the shortest forms, which
      it then reproduces. */
  lemma {:induction false} Reproduces(s: seq<Byte>)
    requires ZeroFree(s)
    ensures Reproduced(ShortestUtf8(s), Rewritten(s), s)
    decreases |s|
  {
    if s == [] {
      assert Rewritten(s) == Some([]);
    } else if ReadPoint(s).None? {
      Unreadable(s);
    } else {
      var (p, n) := ReadPoint(s).value;
      ReadLength(s);
      Reproduces(s[n..]);
      ReproducesStep(s, p, n);
    }
  }

  /** Normalising leaves exactly the proper UTF-8 texts as they are, among all zero-free ones. */
  lemma NormalizeIdentity(s: seq<Byte>)
    requires ZeroFree(s)
    ensures Normalized(s) == s <==> ShortestUtf8(s)
  {
    Reproduces(s);
  }
}
