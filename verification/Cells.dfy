/** Cells and values in memory: little-endian integers, optionals and strings.

    A buffer is a sequence of `char`, one for each byte. A value of a primitive type is an
    integer: the number itself, 0 or 1 for a boolean, nanoseconds for a timer or a duration, and
    the bit pattern for a floating-point number. */
module Cells {
  import opened Options

  datatype Primitive =
    | Int8 | Int16 | Int32 | Int64
    | Uint8 | Uint16 | Uint32 | Uint64
    | Float32 | Float64
    | Boolean | Timer | Duration

  datatype ColumnType = Plain(p: Primitive) | Optional(p: Primitive) | String

  datatype Cell = Value(v: int) | Maybe(o: Option<int>) | Chars(s: string)

  function Size(p: Primitive): (n: nat)
    ensures n == 1 || n == 2 || n == 4 || n == 8
  {
    match p
    case Int8 => 1
    case Uint8 => 1
    case Boolean => 1
    case Int16 => 2
    case Uint16 => 2
    case Int32 => 4
    case Uint32 => 4
    case Float32 => 4
    case _ => 8
  }

  predicate Signed(p: Primitive) {
    p == Int8 || p == Int16 || p == Int32 || p == Int64 || p == Timer || p == Duration
  }

  function Pow256(n: nat): (r: nat)
    ensures r > 0
  {
    if n == 0 then 1 else 256 * Pow256(n - 1)
  }

  predicate InRange(p: Primitive, v: int) {
    var m := Pow256(Size(p));
    if p == Boolean then 0 <= v <= 1
    else if Signed(p) then -(m / 2) <= v < m / 2
    else 0 <= v < m
  }

  /** A value of the type in the sense of the language: optionals exist of numbers only. */
  predicate Fits(c: Cell, t: ColumnType) {
    match t
    case Plain(p) => c.Value? && InRange(p, c.v)
    case Optional(p) => c.Maybe? && (c.o.Some? ==> InRange(p, c.o.value))
    case String => c.Chars? && |c.s| < Pow256(8)
  }

  function LittleEndian(v: nat, width: nat): (bytes: seq<char>)
    ensures |bytes| == width
    decreases width, v
  {
    if width == 0 then [] else [(v % 256) as char] + LittleEndian(v / 256, width - 1)
  }

  function Number(bytes: seq<char>): nat {
    if bytes == [] then 0 else bytes[0] as int + 256 * Number(bytes[1..])
  }

  lemma {:induction false} NumberOfBytes(v: nat, width: nat)
    requires v < Pow256(width)
    ensures Number(LittleEndian(v, width)) == v
    decreases width
  {
    if width > 0 {
      NumberOfBytes(v / 256, width - 1);
      assert LittleEndian(v, width)[1..] == LittleEndian(v / 256, width - 1);
    }
  }

  /** The two's complement of `v`. */
  function EncodePrimitive(p: Primitive, v: int): (bytes: seq<char>)
    ensures |bytes| == Size(p)
  {
    LittleEndian(v % Pow256(Size(p)), Size(p))
  }

  function Reinterpret(p: Primitive, u: nat): int {
    if Signed(p) && u >= Pow256(Size(p)) / 2 then u - Pow256(Size(p)) else u
  }

  function DecodePrimitive(p: Primitive, bytes: seq<char>): int
    requires |bytes| == Size(p)
  {
    Reinterpret(p, Number(bytes))
  }

  lemma Pow256Values()
    ensures Pow256(1) == 0x100 && Pow256(2) == 0x1_0000 && Pow256(4) == 0x1_0000_0000
    ensures Pow256(8) == 0x1_0000_0000_0000_0000
  {
    assert Pow256(3) == 0x100_0000;
    assert Pow256(6) == 0x1_0000_0000_0000 by { assert Pow256(5) == 0x100_0000_0000; }
    assert Pow256(7) == 0x100_0000_0000_0000;
  }

  /** What a cast to the type makes of an integer. */
  function Wrap(p: Primitive, v: int): int {
    Reinterpret(p, v % Pow256(Size(p)))
  }

  lemma WrapInRange(p: Primitive, v: int)
    requires InRange(p, v)
    ensures Wrap(p, v) == v
  {
    Pow256Values();
  }

  lemma WrapRange(p: Primitive, v: int)
    requires p != Boolean
    ensures InRange(p, Wrap(p, v))
  {
    Pow256Values();
  }

  lemma PrimitiveRoundTrip(p: Primitive, v: int)
    requires InRange(p, v)
    ensures DecodePrimitive(p, EncodePrimitive(p, v)) == v
  {
    NumberOfBytes(v % Pow256(Size(p)), Size(p));
    WrapInRange(p, v);
  }

  function EncodeCell(t: ColumnType, c: Cell): seq<char> {
    match (t, c)
    case (Plain(p), Value(v)) => EncodePrimitive(p, v)
    case (Optional(p), Maybe(None)) => [1 as char]
    case (Optional(p), Maybe(Some(v))) => [0 as char] + EncodePrimitive(p, v)
    case (String, Chars(s)) => LittleEndian(|s|, 8) + s
    case _ => []
  }

  /** The bytes of a cell as the size accounting of a table counts them. */
  function CellSize(t: ColumnType, c: Cell): nat {
    match (t, c)
    case (Plain(p), _) => Size(p)
    case (Optional(p), Maybe(None)) => 1
    case (Optional(p), _) => 1 + Size(p)
    case (String, Chars(s)) => |s| + 8
    case (String, _) => 8
  }

  lemma CellSizeIsLength(t: ColumnType, c: Cell)
    requires Fits(c, t)
    ensures |EncodeCell(t, c)| == CellSize(t, c) > 0
  {
  }

  // ---------------------------------------------------------------- the types in numbers

  /** The values of each type. */
  lemma Ranges(v: int)
    ensures InRange(Int8, v) <==> -128 <= v <= 127
    ensures InRange(Int16, v) <==> -32768 <= v <= 32767
    ensures InRange(Int32, v) <==> -2147483648 <= v <= 2147483647
    ensures InRange(Int64, v) <==> -9223372036854775808 <= v <= 9223372036854775807
    ensures InRange(Uint8, v) <==> 0 <= v <= 255
    ensures InRange(Uint16, v) <==> 0 <= v <= 65535
    ensures InRange(Uint32, v) <==> 0 <= v <= 4294967295
    ensures InRange(Uint64, v) <==> 0 <= v <= 18446744073709551615
    ensures InRange(Float32, v) <==> 0 <= v <= 4294967295
    ensures InRange(Float64, v) <==> 0 <= v <= 18446744073709551615
    ensures InRange(Boolean, v) <==> 0 <= v <= 1
    ensures InRange(Timer, v) <==> -9223372036854775808 <= v <= 9223372036854775807
    ensures InRange(Duration, v) <==> -9223372036854775808 <= v <= 9223372036854775807
  {
    Pow256Values();
  }

  /** The bytes that a value of each type takes. */
  lemma Widths(v: int)
    ensures |EncodePrimitive(Int8, v)| == |EncodePrimitive(Uint8, v)| == |EncodePrimitive(Boolean, v)| == 1
    ensures |EncodePrimitive(Int16, v)| == |EncodePrimitive(Uint16, v)| == 2
    ensures |EncodePrimitive(Int32, v)| == |EncodePrimitive(Uint32, v)| == |EncodePrimitive(Float32, v)| == 4
    ensures |EncodePrimitive(Int64, v)| == |EncodePrimitive(Uint64, v)| == |EncodePrimitive(Float64, v)| == 8
    ensures |EncodePrimitive(Timer, v)| == |EncodePrimitive(Duration, v)| == 8
  {
  }

  /** What a cell adds to the size of a table: the bytes of its type, one more for an optional, of
      which an empty one has no others, and eight more for a string. */
  lemma CellSizes(p: Primitive, v: int, s: string)
    ensures p == Int8 || p == Uint8 || p == Boolean ==>
              CellSize(Plain(p), Value(v)) == 1 && CellSize(Optional(p), Maybe(Some(v))) == 2
    ensures p == Int16 || p == Uint16 ==>
              CellSize(Plain(p), Value(v)) == 2 && CellSize(Optional(p), Maybe(Some(v))) == 3
    ensures p == Int32 || p == Uint32 || p == Float32 ==>
              CellSize(Plain(p), Value(v)) == 4 && CellSize(Optional(p), Maybe(Some(v))) == 5
    ensures p == Int64 || p == Uint64 || p == Float64 || p == Timer || p == Duration ==>
              CellSize(Plain(p), Value(v)) == 8 && CellSize(Optional(p), Maybe(Some(v))) == 9
    ensures CellSize(Optional(p), Maybe(None)) == 1
    ensures CellSize(String, Chars(s)) == 8 + |s|
  {
  }

  /** A cast takes a number into the range of its type by adding or subtracting the number of the
      type's values, as often as it takes. */
  lemma WrapMeans(p: Primitive, v: int) returns (times: int)
    requires p != Boolean
    ensures InRange(p, Wrap(p, v))
    ensures p == Int8 || p == Uint8 ==> v == Wrap(p, v) + times * 256
    ensures p == Int16 || p == Uint16 ==> v == Wrap(p, v) + times * 65536
    ensures p == Int32 || p == Uint32 || p == Float32 ==> v == Wrap(p, v) + times * 4294967296
    ensures p == Int64 || p == Uint64 || p == Float64 || p == Timer || p == Duration ==>
              v == Wrap(p, v) + times * 18446744073709551616
  {
    Pow256Values();
    WrapRange(p, v);
    times := WrapTimes(v, Pow256(Size(p)), Wrap(p, v));
  }

  lemma WrapTimes(v: int, m: nat, w: int) returns (times: int)
    requires m > 0 && (w == v % m || w == v % m - m)
    ensures v == w + times * m
  {
    times := v / m + if w == v % m then 0 else 1;
    assert v == v / m * m + v % m;
  }

  /** An optional has its flag first, zero if there is a value; a string its length in eight bytes. */
  lemma CellBytes(t: ColumnType, c: Cell)
    requires Fits(c, t)
    ensures t.Optional? && c.o.Some? ==> EncodeCell(t, c)[0] as int == 0 && EncodeCell(t, c)[1..] == EncodePrimitive(t.p, c.o.value)
    ensures t.Optional? && c.o.None? ==> |EncodeCell(t, c)| == 1 && EncodeCell(t, c)[0] as int == 1
    ensures t == String ==> |EncodeCell(t, c)| == 8 + |c.s| && Number(EncodeCell(t, c)[..8]) == |c.s| && EncodeCell(t, c)[8..] == c.s
  {
    if t == String {
      NumberOfBytes(|c.s|, 8);
      assert EncodeCell(t, c)[..8] == LittleEndian(|c.s|, 8);
    }
  }

  /** The bytes of a number: the i-th is its i-th digit to the base 256, the least first. */
  lemma {:induction false} ByteOf(v: nat, width: nat, i: nat)
    requires i < width
    ensures LittleEndian(v, width)[i] as int == v / Pow256(i) % 256
    decreases width
  {
    if i > 0 {
      ByteOf(v / 256, width - 1, i - 1);
      DivideTwice(v, 256, Pow256(i - 1));
    }
  }

  lemma DivideTwice(v: nat, a: nat, b: nat)
    requires a > 0 && b > 0
    ensures a * b > 0 && v / a / b == v / (a * b)
  {
    var q, r := v / a, v % a;
    var p, s := q / b, q % b;
    assert v == a * (b * p + s) + r;
    assert v == (a * b) * p + (a * s + r);
    assert 0 <= a * s + r < a * b by {
      assert a * s <= a * (b - 1) by { Monotone(a, s, b - 1); }
    }
    Unique(v, a * b, p, a * s + r);
  }

  lemma Monotone(a: nat, x: int, y: int)
    requires x <= y
    ensures a * x <= a * y
  {
    assert a * (y - x) >= 0;
    assert a * y == a * x + a * (y - x);
  }

  lemma Unique(v: nat, n: nat, p: nat, r: nat)
    requires n > 0 && r < n && v == n * p + r
    ensures v / n == p
  {
    var d := v / n - p;
    assert n * d == r - v % n;
    if d >= 1 {
      Monotone(n, 1, d);
    } else if d <= -1 {
      Monotone(n, d, -1);
    }
  }
}
