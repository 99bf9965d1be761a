/** Tables in memory: rows of cells laid out one after another behind their total size. */
module TableLayout {
  import opened Cells

  type Row = seq<Cell>

  predicate RowFits(types: seq<ColumnType>, row: Row) {
    |row| == |types| && forall i :: 0 <= i < |row| ==> Fits(row[i], types[i])
  }

  predicate RowsFit(types: seq<ColumnType>, rows: seq<Row>) {
    forall i :: 0 <= i < |rows| ==> RowFits(types, rows[i])
  }

  function RowSize(types: seq<ColumnType>, row: Row): nat
    requires |row| == |types|
  {
    if row == [] then 0 else CellSize(types[0], row[0]) + RowSize(types[1..], row[1..])
  }

  function RowsSize(types: seq<ColumnType>, rows: seq<Row>): nat
    requires forall i :: 0 <= i < |rows| ==> |rows[i]| == |types|
  {
    if rows == [] then 0
    else RowsSize(types, rows[..|rows| - 1]) + RowSize(types, rows[|rows| - 1])
  }

  function EncodeRow(types: seq<ColumnType>, row: Row): seq<char>
    requires |row| == |types|
  {
    if row == [] then [] else EncodeCell(types[0], row[0]) + EncodeRow(types[1..], row[1..])
  }

  function EncodeRows(types: seq<ColumnType>, rows: seq<Row>): seq<char>
    requires forall i :: 0 <= i < |rows| ==> |rows[i]| == |types|
  {
    if rows == [] then [] else EncodeRow(types, rows[0]) + EncodeRows(types, rows[1..])
  }

  /** The buffer of a table: its size in eight bytes, then the rows. */
  function EncodeTable(types: seq<ColumnType>, rows: seq<Row>): seq<char>
    requires forall i :: 0 <= i < |rows| ==> |rows[i]| == |types|
  {
    LittleEndian(8 + RowsSize(types, rows), 8) + EncodeRows(types, rows)
  }

  lemma {:induction false} RowSizeIsLength(types: seq<ColumnType>, row: Row)
    requires RowFits(types, row)
    ensures |EncodeRow(types, row)| == RowSize(types, row)
    ensures row != [] ==> RowSize(types, row) > 0
    decreases |row|
  {
    if row != [] {
      CellSizeIsLength(types[0], row[0]);
      RowSizeIsLength(types[1..], row[1..]);
    }
  }

  lemma {:induction false} EncodeRowsConcat(types: seq<ColumnType>, a: seq<Row>, b: seq<Row>)
    requires forall i :: 0 <= i < |a| ==> |a[i]| == |types|
    requires forall i :: 0 <= i < |b| ==> |b[i]| == |types|
    ensures EncodeRows(types, a + b) == EncodeRows(types, a) + EncodeRows(types, b)
    decreases |a|
  {
    if a == [] {
      assert a + b == b;
    } else {
      assert (a + b)[1..] == a[1..] + b;
      EncodeRowsConcat(types, a[1..], b);
    }
  }

  lemma Slices<T>(s: seq<T>, i: nat)
    requires 0 < i <= |s|
    ensures s[..i][0] == s[0] && s[..i][1..] == s[1..][..i - 1] && s[1..][i - 1..] == s[i..]
  {
  }

  lemma Regroup(a: seq<char>, b: seq<char>, c: seq<char>)
    ensures a + (b + c) == (a + b) + c
  {
  }

  lemma {:induction false} EncodeRowConcat(types: seq<ColumnType>, row: Row, i: nat)
    requires |row| == |types| && i <= |row|
    ensures EncodeRow(types, row) == EncodeRow(types[..i], row[..i]) + EncodeRow(types[i..], row[i..])
    decreases i
  {
    if i == 0 {
      assert row[0..] == row && types[0..] == types;
    } else {
      EncodeRowConcat(types[1..], row[1..], i - 1);
      Slices(types, i);
      Slices(row, i);
      Regroup(EncodeCell(types[0], row[0]), EncodeRow(types[1..][..i - 1], row[1..][..i - 1]), EncodeRow(types[i..], row[i..]));
    }
  }

  /** One more cell at the end of what has been laid out of a row. */
  lemma EncodeRowNext(types: seq<ColumnType>, row: Row, i: nat)
    requires |row| == |types| && i < |row|
    ensures EncodeRow(types[..i + 1], row[..i + 1])
            == EncodeRow(types[..i], row[..i]) + EncodeCell(types[i], row[i])
  {
    EncodeRowConcat(types[..i + 1], row[..i + 1], i);
    assert types[..i + 1][..i] == types[..i] && row[..i + 1][..i] == row[..i];
    assert types[..i + 1][i..] == [types[i]] && row[..i + 1][i..] == [row[i]];
    assert EncodeRow([types[i]], [row[i]]) == EncodeCell(types[i], row[i]) + [];
  }

  lemma RowPart(types: seq<ColumnType>, row: Row, i: nat)
    requires |row| == |types| && i < |row|
    ensures EncodeRow(types[..i + 1], row[..i + 1]) == EncodeRow(types[..i], row[..i]) + EncodeCell(types[i], row[i])
    ensures |EncodeRow(types[..i + 1], row[..i + 1])| <= |EncodeRow(types, row)|
  {
    EncodeRowNext(types, row, i);
    EncodeRowConcat(types, row, i + 1);
  }

  lemma {:induction false} RowSizeNext(types: seq<ColumnType>, row: Row, i: nat)
    requires |row| == |types| && i < |row|
    ensures RowSize(types[..i + 1], row[..i + 1]) == RowSize(types[..i], row[..i]) + CellSize(types[i], row[i])
    decreases i
  {
    if i > 0 {
      RowSizeNext(types[1..], row[1..], i - 1);
      assert row[..i][1..] == row[1..][..i - 1] && types[..i][1..] == types[1..][..i - 1];
      assert row[..i + 1][1..] == row[1..][..i] && types[..i + 1][1..] == types[1..][..i];
    }
  }

  lemma {:induction false} RowsSizeIsLength(types: seq<ColumnType>, rows: seq<Row>)
    requires RowsFit(types, rows)
    ensures |EncodeRows(types, rows)| == RowsSize(types, rows)
    ensures rows != [] && types != [] ==> RowsSize(types, rows) > 0
    decreases |rows|
  {
    if rows != [] {
      var n := |rows| - 1;
      RowsSizeIsLength(types, rows[..n]);
      RowSizeIsLength(types, rows[n]);
      EncodeRowsConcat(types, rows[..n], [rows[n]]);
      assert rows[..n] + [rows[n]] == rows;
      assert EncodeRows(types, [rows[n]]) == EncodeRow(types, rows[n]) + [];
    }
  }

  /** The rows before `r`, row `r`, and the rest, as they lie in the buffer. */
  lemma SplitRow(types: seq<ColumnType>, rows: seq<Row>, r: nat)
    requires r < |rows| && forall i :: 0 <= i < |rows| ==> |rows[i]| == |types|
    ensures EncodeRows(types, rows[..r + 1]) == EncodeRows(types, rows[..r]) + EncodeRow(types, rows[r])
    ensures EncodeRows(types, rows) == EncodeRows(types, rows[..r + 1]) + EncodeRows(types, rows[r + 1..])
  {
    EncodeRowsConcat(types, rows[..r], [rows[r]]);
    assert rows[..r + 1] == rows[..r] + [rows[r]];
    assert EncodeRows(types, [rows[r]]) == EncodeRow(types, rows[r]) + [];
    EncodeRowsConcat(types, rows[..r + 1], rows[r + 1..]);
    assert rows == rows[..r + 1] + rows[r + 1..];
  }

  /** A table of one column: each row adds its one cell. */
  lemma OneColumn(t: ColumnType, c: Cell)
    ensures RowSize([t], [c]) == CellSize(t, c) && EncodeRow([t], [c]) == EncodeCell(t, c)
  {
    assert [t][1..] == [] && [c][1..] == [];
    assert EncodeCell(t, c) + [] == EncodeCell(t, c);
  }

  /** Changing one cell of a row changes the size by the difference of the two cells. */
  lemma {:induction false} RowSizeUpdate(types: seq<ColumnType>, row: Row, i: nat, c: Cell)
    requires |row| == |types| && i < |row|
    ensures RowSize(types, row[i := c]) == RowSize(types, row) - CellSize(types[i], row[i]) + CellSize(types[i], c)
    decreases i
  {
    if i > 0 {
      RowSizeUpdate(types[1..], row[1..], i - 1, c);
      assert row[i := c][1..] == row[1..][i - 1 := c];
    } else {
      assert row[0 := c][1..] == row[1..];
    }
  }

  lemma {:induction false} RowsSizeUpdate(types: seq<ColumnType>, rows: seq<Row>, r: nat, i: nat, c: Cell)
    requires forall k :: 0 <= k < |rows| ==> |rows[k]| == |types|
    requires r < |rows| && i < |types|
    ensures RowsSize(types, rows[r := rows[r][i := c]])
            == RowsSize(types, rows) - CellSize(types[i], rows[r][i]) + CellSize(types[i], c)
    decreases |rows|
  {
    var n := |rows| - 1;
    var rows' := rows[r := rows[r][i := c]];
    if r == n {
      RowSizeUpdate(types, rows[n], i, c);
      assert rows'[..n] == rows[..n];
    } else {
      RowsSizeUpdate(types, rows[..n], r, i, c);
      assert rows'[..n] == rows[..n][r := rows[r][i := c]];
    }
  }
}

/** A buffer says which rows it encodes. */
module TableUnique {
  import opened Options
  import opened Cells
  import opened TableLayout

  lemma SplitEqual(a: seq<char>, r: seq<char>, b: seq<char>, q: seq<char>)
    requires a + r == b + q && |a| == |b|
    ensures a == b && r == q
  {
    assert a == (a + r)[..|a|] && b == (b + q)[..|b|];
    assert r == (a + r)[|a|..] && q == (b + q)[|b|..];
  }

  lemma CountedPrefixFree(h: seq<char>, s: string, r: seq<char>, g: seq<char>, z: string, q: seq<char>)
    requires |h| == |g| && (h == g ==> |s| == |z|) && h + s + r == g + z + q
    ensures s == z && r == q
  {
    Regroup(h, s, r);
    Regroup(g, z, q);
    SplitEqual(h, s + r, g, z + q);
    SplitEqual(s, r, z, q);
  }

  lemma StringPrefixFree(width: nat, s: string, r: seq<char>, z: string, q: seq<char>)
    requires |s| < Pow256(width) && |z| < Pow256(width)
    requires LittleEndian(|s|, width) + s + r == LittleEndian(|z|, width) + z + q
    ensures s == z && r == q
  {
    NumberOfBytes(|s|, width);
    NumberOfBytes(|z|, width);
    CountedPrefixFree(LittleEndian(|s|, width), s, r, LittleEndian(|z|, width), z, q);
  }

  lemma CellPrefixFree(t: ColumnType, c: Cell, r: seq<char>, d: Cell, q: seq<char>)
    requires Fits(c, t) && Fits(d, t) && EncodeCell(t, c) + r == EncodeCell(t, d) + q
    ensures c == d && r == q
  {
    match t {
      case Plain(p) =>
        SplitEqual(EncodePrimitive(p, c.v), r, EncodePrimitive(p, d.v), q);
        PrimitiveRoundTrip(p, c.v);
        PrimitiveRoundTrip(p, d.v);
      case Optional(p) =>
        assert (EncodeCell(t, c) + r)[0] == EncodeCell(t, c)[0] && (EncodeCell(t, d) + q)[0] == EncodeCell(t, d)[0];
        SplitEqual(EncodeCell(t, c), r, EncodeCell(t, d), q);
        if c.o.Some? {
          assert EncodeCell(t, c)[1..] == EncodePrimitive(p, c.o.value);
          assert EncodeCell(t, d)[1..] == EncodePrimitive(p, d.o.value);
          PrimitiveRoundTrip(p, c.o.value);
          PrimitiveRoundTrip(p, d.o.value);
        }
      case String =>
        StringPrefixFree(8, c.s, r, d.s, q);
    }
  }

  lemma {:induction false} RowPrefixFree(types: seq<ColumnType>, a: Row, r: seq<char>, b: Row, q: seq<char>)
    requires RowFits(types, a) && RowFits(types, b) && EncodeRow(types, a) + r == EncodeRow(types, b) + q
    ensures a == b && r == q
    decreases |types|
  {
    if types == [] {
      assert [] + r == r && [] + q == q;
    } else {
      Regroup(EncodeCell(types[0], a[0]), EncodeRow(types[1..], a[1..]), r);
      Regroup(EncodeCell(types[0], b[0]), EncodeRow(types[1..], b[1..]), q);
      CellPrefixFree(types[0], a[0], EncodeRow(types[1..], a[1..]) + r, b[0], EncodeRow(types[1..], b[1..]) + q);
      RowPrefixFree(types[1..], a[1..], r, b[1..], q);
      assert a == [a[0]] + a[1..] && b == [b[0]] + b[1..];
    }
  }

  lemma {:induction false} RowsInjective(types: seq<ColumnType>, a: seq<Row>, b: seq<Row>)
    requires types != [] && RowsFit(types, a) && RowsFit(types, b) && EncodeRows(types, a) == EncodeRows(types, b)
    ensures a == b
    decreases |a| + |b|
  {
    if a != [] {
      RowSizeIsLength(types, a[0]);
    }
    if b != [] {
      RowSizeIsLength(types, b[0]);
    }
    if a != [] && b != [] {
      RowPrefixFree(types, a[0], EncodeRows(types, a[1..]), b[0], EncodeRows(types, b[1..]));
      RowsInjective(types, a[1..], b[1..]);
      assert a == [a[0]] + a[1..] && b == [b[0]] + b[1..];
    }
  }

  /** Two tables with the same columns and the same buffer hold the same rows. */
  lemma EncodingDeterminesRows(types: seq<ColumnType>, a: seq<Row>, b: seq<Row>)
    requires types != [] && RowsFit(types, a) && RowsFit(types, b)
    requires EncodeTable(types, a) == EncodeTable(types, b)
    ensures a == b
  {
    SplitEqual(LittleEndian(8 + RowsSize(types, a), 8), EncodeRows(types, a),
               LittleEndian(8 + RowsSize(types, b), 8), EncodeRows(types, b));
    RowsInjective(types, a, b);
  }
}

/** Reading one cell of a buffer at an offset, as every walk over a table does. */
module CellReader {
  import opened Options
  import opened Cells

  /** `buffer` holds cell `c` of type `t` at `offset`, followed by `rest`. */
  ghost predicate Holds(buffer: seq<char>, offset: nat, t: ColumnType, c: Cell, rest: seq<char>) {
    offset <= |buffer| && Fits(c, t) && buffer[offset..] == EncodeCell(t, c) + rest
  }

  /** `head` at `offset`, and what follows it. */
  lemma HeadAt(buffer: seq<char>, offset: nat, head: seq<char>, rest: seq<char>)
    requires offset <= |buffer| && buffer[offset..] == head + rest
    ensures offset + |head| <= |buffer|
    ensures buffer[offset..offset + |head|] == head && buffer[offset + |head|..] == rest
  {
    assert |buffer[offset..]| == |head| + |rest|;
    assert buffer[offset..offset + |head|] == buffer[offset..][..|head|] == head;
    assert buffer[offset + |head|..] == buffer[offset..][|head|..] == rest;
  }

  method ReadPrimitive(buffer: seq<char>, offset: nat, p: Primitive, ghost v: int, ghost rest: seq<char>)
    returns (value: int)
    requires offset <= |buffer| && InRange(p, v) && buffer[offset..] == EncodePrimitive(p, v) + rest
    ensures value == v
    ensures offset + Size(p) <= |buffer| && buffer[offset + Size(p)..] == rest
  {
    HeadAt(buffer, offset, EncodePrimitive(p, v), rest);
    PrimitiveRoundTrip(p, v);
    value := DecodePrimitive(p, buffer[offset..offset + Size(p)]);
  }

  /** A flag that says whether the value is missing, then the value. */
  method ReadOptional(buffer: seq<char>, offset: nat, p: Primitive, ghost o: Option<int>, ghost rest: seq<char>)
    returns (value: Option<int>, next: nat)
    requires o.Some? ==> InRange(p, o.value)
    requires offset <= |buffer| && buffer[offset..] == EncodeCell(Optional(p), Maybe(o)) + rest
    ensures value == o && next == offset + CellSize(Optional(p), Maybe(o))
    ensures next <= |buffer| && buffer[next..] == rest
  {
    ghost var flag := if o.None? then [1 as char] else [0 as char];
    ghost var tail := if o.None? then rest else EncodePrimitive(p, o.value) + rest;
    assert buffer[offset..] == flag + tail;
    HeadAt(buffer, offset, flag, tail);
    next := offset + 1;
    assert buffer[offset] == buffer[offset..next][0];
    if buffer[offset] != 0 as char {
      value := None;
    } else {
      var v := ReadPrimitive(buffer, next, p, o.value, rest);
      value, next := Some(v), next + Size(p);
    }
  }

  /** A string behind its length; `length` holds the word. */
  method ReadString(buffer: seq<char>, offset: nat, ghost length: seq<char>, ghost s: string, ghost rest: seq<char>)
    returns (value: string, next: nat)
    requires |length| == 8 && Number(length) == |s|
    requires offset <= |buffer| && buffer[offset..] == length + s + rest
    ensures value == s && next == offset + 8 + |s|
    ensures next <= |buffer| && buffer[next..] == rest
  {
    assert buffer[offset..] == length + (s + rest);
    HeadAt(buffer, offset, length, s + rest);
    var size := Number(buffer[offset..offset + 8]);
    next := offset + 8;
    HeadAt(buffer, next, s, rest);
    value := buffer[next..next + size];
    next := next + size;
  }

  method ReadCell(buffer: seq<char>, offset: nat, t: ColumnType, ghost c: Cell, ghost rest: seq<char>)
    returns (cell: Cell, next: nat)
    requires Holds(buffer, offset, t, c, rest)
    ensures cell == c && next == offset + CellSize(t, c)
    ensures next <= |buffer| && buffer[next..] == rest
  {
    match t {
      case Plain(p) =>
        var v := ReadPrimitive(buffer, offset, p, c.v, rest);
        cell, next := Value(v), offset + Size(p);
      case Optional(p) =>
        var o;
        o, next := ReadOptional(buffer, offset, p, c.o, rest);
        cell := Maybe(o);
      case String =>
        NumberOfBytes(|c.s|, 8);
        var s;
        s, next := ReadString(buffer, offset, LittleEndian(|c.s|, 8), c.s, rest);
        cell := Chars(s);
    }
  }
}

/** A table column by column, and the same table as rows. */
module TableColumns {
  import opened Cells
  import opened TableLayout

  type Column = map<int, Cell>

  /** Every column holds a cell of its type for exactly the rows 0 to `rows` - 1. */
  ghost predicate Shaped(types: seq<ColumnType>, data: seq<Column>, rows: nat) {
    && types != []
    && |data| == |types|
    && (forall i, r :: 0 <= i < |data| ==> (r in data[i] <==> 0 <= r < rows))
    && (forall i, r :: 0 <= i < |data| && r in data[i] ==> Fits(data[i][r], types[i]))
  }

  function RowAt(data: seq<Column>, r: int): (row: Row)
    requires forall i :: 0 <= i < |data| ==> r in data[i]
    ensures |row| == |data|
  {
    seq(|data|, i requires 0 <= i < |data| => data[i][r])
  }

  /** `row` is what the columns hold at row `r`. */
  ghost predicate IsRow(data: seq<Column>, r: int, row: Row) {
    (forall i :: 0 <= i < |data| ==> r in data[i]) && row == RowAt(data, r)
  }

  ghost function RowsOf(types: seq<ColumnType>, data: seq<Column>, rows: nat): (s: seq<Row>)
    requires Shaped(types, data, rows)
    ensures |s| == rows && RowsFit(types, s)
    ensures forall r, i :: 0 <= r < rows && 0 <= i < |types| ==> s[r][i] == data[i][r]
    ensures forall r :: 0 <= r < rows ==> IsRow(data, r, s[r])
  {
    var s := seq(rows, r requires 0 <= r < rows && Shaped(types, data, rows) => RowAt(data, r));
    s
  }

  /** `data'` is `data` with the cells of a new row in the first `n` columns. */
  ghost predicate Extended(data: seq<Column>, cells: Row, rows: nat, n: nat, data': seq<Column>) {
    && |data'| == |data| == |cells|
    && forall i :: 0 <= i < |data| ==> data'[i] == if i < n then data[i][rows := cells[i]] else data[i]
  }

  lemma ExtendedRow(types: seq<ColumnType>, data: seq<Column>, rows: nat, cells: Row, data': seq<Column>)
    requires Shaped(types, data, rows) && RowFits(types, cells)
    requires Extended(data, cells, rows, |cells|, data')
    ensures Shaped(types, data', rows + 1)
    ensures RowsOf(types, data', rows + 1) == RowsOf(types, data, rows) + [cells]
  {
    var s, s' := RowsOf(types, data, rows), RowsOf(types, data', rows + 1);
    forall r | 0 <= r < rows
      ensures s'[r] == s[r]
    {
    }
    assert s'[rows] == cells;
  }

  lemma UpdatedCell(types: seq<ColumnType>, data: seq<Column>, rows: nat, i: nat, r: nat, c: Cell)
    requires Shaped(types, data, rows) && i < |types| && r < rows && Fits(c, types[i])
    ensures var data' := data[i := data[i][r := c]];
            && Shaped(types, data', rows)
            && var s := RowsOf(types, data, rows);
               RowsOf(types, data', rows) == s[r := s[r][i := c]]
  {
    var data' := data[i := data[i][r := c]];
    var s := RowsOf(types, data, rows);
    forall k | 0 <= k < rows
      ensures RowsOf(types, data', rows)[k] == s[r := s[r][i := c]][k]
    {
    }
  }

  lemma EmptyRows(types: seq<ColumnType>, data: seq<Column>)
    requires types != [] && |data| == |types| && forall i :: 0 <= i < |data| ==> data[i] == map[]
    ensures Shaped(types, data, 0) && RowsOf(types, data, 0) == []
  {
  }
}

/** The size accounting of a cell update. */
module UpdateAccounting {
  import opened Options
  import opened Cells

  /** What an update adds to the kept size. A change of presence moves it by the size of the
      optional wrapper, which is the payload twice: the flag is padded to the payload's alignment. */
  function Accounted(t: ColumnType, before: Cell, after: Cell): int
    requires Fits(before, t) && Fits(after, t)
  {
    match t
    case Plain(_) => 0
    case Optional(p) =>
      if after.o.Some? && before.o.None? then 2 * Size(p)
      else if after.o.None? && before.o.Some? then -2 * Size(p)
      else 0
    case String => |after.s| - |before.s|
  }

  /** In numbers: an optional that is filled adds twice the bytes of its payload, and one that is
      emptied takes them away. */
  lemma FillingAdds(p: Primitive, empty: Cell, full: Cell)
    requires Fits(empty, Optional(p)) && empty.o.None? && Fits(full, Optional(p)) && full.o.Some?
    ensures p == Int8 || p == Uint8 || p == Boolean ==> Accounted(Optional(p), empty, full) == 2
    ensures p == Int16 || p == Uint16 ==> Accounted(Optional(p), empty, full) == 4
    ensures p == Int32 || p == Uint32 || p == Float32 ==> Accounted(Optional(p), empty, full) == 8
    ensures p == Int64 || p == Uint64 || p == Float64 ==> Accounted(Optional(p), empty, full) == 16
    ensures Accounted(Optional(p), full, empty) == -Accounted(Optional(p), empty, full)
  {
  }

  /** A string changes the size by its length, and nothing else does. */
  lemma OthersAdd(t: ColumnType, before: Cell, after: Cell)
    requires Fits(before, t) && Fits(after, t)
    ensures t.Plain? ==> Accounted(t, before, after) == 0
    ensures t.Optional? && before.o.Some? == after.o.Some? ==> Accounted(t, before, after) == 0
    ensures t == String ==> Accounted(t, before, after) == |after.s| - |before.s|
  {
  }

  predicate PresenceChanges(t: ColumnType, before: Cell, after: Cell)
    requires Fits(before, t) && Fits(after, t)
  {
    t.Optional? && before.o.Some? != after.o.Some?
  }

  /** The accounting is right exactly for the updates that keep an optional's presence. */
  lemma AccountingExact(t: ColumnType, before: Cell, after: Cell)
    requires Fits(before, t) && Fits(after, t)
    ensures Accounted(t, before, after) == CellSize(t, after) - CellSize(t, before)
            <==> !PresenceChanges(t, before, after)
  {
  }
}

/** Writing into a buffer at an offset. */
module BufferWriter {

  /** The buffer holds `before` up to `offset`; `bytes` are added to it. */
  method Put(buffer: array<char>, offset: nat, bytes: seq<char>, ghost before: seq<char>)
    requires offset + |bytes| <= buffer.Length && buffer[..offset] == before
    modifies buffer
    ensures buffer[..offset + |bytes|] == before + bytes
  {
    forall i | 0 <= i < |bytes| {
      buffer[offset + i] := bytes[i];
    }
  }
}

module TableModel {
  import opened Options
  import opened Cells
  import opened BufferWriter
  import opened UpdateAccounting
  import opened TableLayout
  import opened TableColumns
  import opened CellReader

  class Table {
    const types: seq<ColumnType>
    var data: seq<Column>
    var bufferSize: int
    var rows: nat

    ghost predicate Shape()
      reads this
    {
      Shaped(types, data, rows)
    }

    /** The table as rows of cells. */
    ghost function Rows(): (s: seq<Row>)
      reads this
      requires Shape()
      ensures |s| == rows && RowsFit(types, s)
    {
      RowsOf(types, data, rows)
    }

    /** The size that is kept up to date is the size of the encoded table. */
    ghost predicate SizeExact()
      reads this
      requires Shape()
    {
      bufferSize == 8 + RowsSize(types, Rows())
    }

    ghost predicate Valid()
      reads this
    {
      Shape() && SizeExact()
    }

    constructor (types: seq<ColumnType>)
      requires types != []
      ensures Valid() && Rows() == [] && this.types == types
    {
      this.types := types;
      data := seq(|types|, _ => map[]);
      bufferSize, rows := 8, 0;
      new;
      EmptyRows(types, data);
    }

    method AddRow(cells: Row)
      requires Shape() && RowFits(types, cells)
      modifies this`data, this`bufferSize, this`rows
      ensures Shape() && Rows() == old(Rows()) + [cells]
      ensures bufferSize == old(bufferSize) + RowSize(types, cells)
      ensures old(SizeExact()) ==> SizeExact()
    {
      for index := 0 to |cells|
        invariant rows == old(rows) && Extended(old(data), cells, rows, index, data)
        invariant bufferSize == old(bufferSize) + RowSize(types[..index], cells[..index])
      {
        RowSizeNext(types, cells, index);
        data := data[index := data[index][rows := cells[index]]];
        bufferSize := bufferSize + CellSize(types[index], cells[index]);
      }
      assert types[..|types|] == types && cells[..|types|] == cells;
      ExtendedRow(types, old(data), rows, cells, data);
      rows := rows + 1;
      assert Rows()[..rows - 1] == old(Rows());
    }

    method Clear()
      requires Shape()
      modifies this`data, this`bufferSize, this`rows
      ensures Valid() && Rows() == []
    {
      rows := 0;
      bufferSize := 8;
      data := seq(|types|, _ => map[]);
      EmptyRows(types, data);
    }

    method GetCell(column: nat, row: nat) returns (cell: Option<Cell>)
      requires Shape()
      ensures cell == if column < |types| && row < rows then Some(Rows()[row][column]) else None
    {
      if column >= |types| || row >= rows {
        return None;
      }
      cell := if row in data[column] then Some(data[column][row]) else None;
    }

    /** An update of another type, or of a row that does not exist, is skipped. */
    predicate Applies(column: nat, row: nat, t: ColumnType)
      reads this
    {
      column < |types| && types[column] == t && row < rows
    }

    method UpdateCell(column: nat, row: nat, t: ColumnType, update: Cell)
      requires Shape() && Fits(update, t)
      modifies this`data, this`bufferSize
      ensures Shape()
      ensures Rows() == if old(Applies(column, row, t)) then old(Rows())[row := old(Rows())[row][column := update]]
                        else old(Rows())
      ensures old(SizeExact()) ==>
                (SizeExact() <==>
                 !(old(Applies(column, row, t)) && PresenceChanges(t, old(Rows())[row][column], update)))
    {
      if column >= |types| || types[column] != t || row !in data[column] {
        return;
      }
      var before := data[column][row];
      bufferSize := bufferSize + Accounted(t, before, update);
      UpdatedCell(types, data, rows, column, row, update);
      RowsSizeUpdate(types, Rows(), row, column, update);
      AccountingExact(t, before, update);
      data := data[column := data[column][row := update]];
    }

    /** Lays the table out in a buffer of the kept size. The cells fill it exactly, so that the
        branch for a mismatch between the two is never taken. */
    method Encode() returns (buffer: array<char>)
      requires Valid() && bufferSize < Pow256(8)
      ensures fresh(buffer) && buffer[..] == EncodeTable(types, Rows())
    {
      RowsSizeIsLength(types, Rows());
      buffer := EncodeColumns(types, data, rows, bufferSize, Rows());
    }

    /** Makes the table the one that the buffer encodes, whatever it held before. The buffer has to
        come from a table with the same columns; reading it ends exactly at its recorded size. */
    method Copy(buffer: seq<char>, ghost source: seq<Row>)
      requires Valid() && RowsFit(types, source)
      requires buffer == EncodeTable(types, source) && |buffer| < Pow256(8)
      modifies this`data, this`bufferSize, this`rows
      ensures Valid() && Rows() == source && bufferSize == |buffer|
    {
      if rows != 0 {
        Clear();
      }
      EncodedSize(types, source);
      var offset;
      data, rows, offset := ReadRows(types, data, buffer, source);
      bufferSize := bufferSize + offset - 8;
    }
  }

  /** A table that goes through its buffer into another one of the same columns, which may hold rows
      already, arrives whole. */
  method Transfer(original: Table, target: Table)
    requires original != target && original.Valid() && target.Valid()
    requires original.types == target.types && original.bufferSize < Pow256(8)
    modifies target
    ensures target.Valid() && target.Rows() == original.Rows()
    ensures target.rows == original.rows && target.bufferSize == original.bufferSize
  {
    ghost var source := original.Rows();
    EncodedSize(original.types, source);
    var buffer := original.Encode();
    target.Copy(buffer[..], source);
  }

  lemma EncodedSize(types: seq<ColumnType>, rows: seq<Row>)
    requires RowsFit(types, rows)
    ensures |EncodeTable(types, rows)| == 8 + RowsSize(types, rows)
  {
    RowsSizeIsLength(types, rows);
  }

  /** The first word of an encoded table is its length, and the rows follow. */
  lemma Header(types: seq<ColumnType>, rows: seq<Row>)
    requires RowsFit(types, rows) && |EncodeTable(types, rows)| < Pow256(8)
    ensures var buffer := EncodeTable(types, rows);
            |buffer| >= 8 && Number(buffer[..8]) == |buffer| && buffer[8..] == EncodeRows(types, rows)
  {
    var buffer := EncodeTable(types, rows);
    EncodedSize(types, rows);
    assert buffer[..8] == LittleEndian(|buffer|, 8);
    NumberOfBytes(|buffer|, 8);
  }

  /** What is left of the encoded rows at row `r`. */
  lemma RestOfRows(types: seq<ColumnType>, source: seq<Row>, r: nat)
    requires types != [] && RowsFit(types, source) && r <= |source|
    ensures r == |source| ==> EncodeRows(types, source[r..]) == []
    ensures r < |source| ==>
              && EncodeRows(types, source[r..]) == EncodeRow(types, source[r]) + EncodeRows(types, source[r + 1..])
              && |EncodeRow(types, source[r])| > 0
  {
    if r < |source| {
      assert source[r..][0] == source[r] && source[r..][1..] == source[r + 1..];
      RowSizeIsLength(types, source[r]);
    }
  }

  lemma NextRow(types: seq<ColumnType>, data: seq<Column>, rows: nat, source: seq<Row>, data': seq<Column>)
    requires Shaped(types, data, rows) && RowsFit(types, source) && rows < |source|
    requires RowsOf(types, data, rows) == source[..rows]
    requires Extended(data, source[rows], rows, |source[rows]|, data')
    ensures Shaped(types, data', rows + 1) && RowsOf(types, data', rows + 1) == source[..rows + 1]
  {
    ExtendedRow(types, data, rows, source[rows], data');
    assert source[..rows + 1] == source[..rows] + [source[rows]];
  }

  /** Reads rows until the recorded size is reached, which is where the rows end. */
  method ReadRows(types: seq<ColumnType>, empty: seq<Column>, buffer: seq<char>, ghost source: seq<Row>)
    returns (data: seq<Column>, rows: nat, offset: nat)
    requires Shaped(types, empty, 0) && RowsFit(types, source)
    requires buffer == EncodeTable(types, source) && |buffer| < Pow256(8)
    ensures Shaped(types, data, rows) && RowsOf(types, data, rows) == source && offset == |buffer|
  {
    Header(types, source);
    var size := Number(buffer[..8]);
    data, rows, offset := empty, 0, 8;
    assert source[0..] == source;
    RestOfRows(types, source, 0);
    while offset < size
      invariant rows <= |source| && Shaped(types, data, rows) && RowsOf(types, data, rows) == source[..rows]
      invariant offset <= size == |buffer| && buffer[offset..] == EncodeRows(types, source[rows..])
      decreases size - offset
    {
      RestOfRows(types, source, rows);
      ghost var before := data;
      data, offset := ReadRow(types, data, rows, buffer, offset, source[rows], EncodeRows(types, source[rows + 1..]));
      NextRow(types, before, rows, source, data);
      rows := rows + 1;
    }
    RestOfRows(types, source, rows);
    assert source[..|source|] == source;
  }

  /** Reads the cells of one row into the columns. */
  method ReadRow(types: seq<ColumnType>, data: seq<Column>, rows: nat, buffer: seq<char>, start: nat,
                 ghost row: Row, ghost rest: seq<char>) returns (data': seq<Column>, offset: nat)
    requires |data| == |types| && RowFits(types, row)
    requires start <= |buffer| && buffer[start..] == EncodeRow(types, row) + rest
    ensures Extended(data, row, rows, |row|, data')
    ensures start <= offset <= |buffer| && buffer[offset..] == rest
    ensures offset == start + |EncodeRow(types, row)|
  {
    data', offset := data, start;
    assert types[0..] == types && row[0..] == row;
    for index := 0 to |types|
      invariant Extended(data, row, rows, index, data')
      invariant start <= offset <= |buffer|
      invariant buffer[offset..] == EncodeRow(types[index..], row[index..]) + rest
    {
      ghost var tail := EncodeRow(types[index + 1..], row[index + 1..]);
      assert types[index..][1..] == types[index + 1..] && row[index..][1..] == row[index + 1..];
      Regroup(EncodeCell(types[index], row[index]), tail, rest);
      var cell, next := ReadCell(buffer, offset, types[index], row[index], tail + rest);
      data' := data'[index := data'[index][rows := cell]];
      offset := next;
    }
    assert [] + rest == rest;
  }

  method EncodeColumns(types: seq<ColumnType>, data: seq<Column>, rows: nat, bufferSize: nat, ghost s: seq<Row>)
    returns (buffer: array<char>)
    requires |data| == |types| && |s| == rows && forall i :: 0 <= i < |s| ==> |s[i]| == |types|
    requires forall r :: 0 <= r < rows ==> IsRow(data, r, s[r])
    requires bufferSize == 8 + |EncodeRows(types, s)|
    ensures fresh(buffer) && buffer[..] == LittleEndian(bufferSize, 8) + EncodeRows(types, s)
  {
    var header := LittleEndian(bufferSize, 8);
    ghost var done: seq<char> := [];
    buffer := new char[bufferSize];
    Put(buffer, 0, header, []);
    var offset := 8;
    for row := 0 to rows
      invariant done == EncodeRows(types, s[..row])
      invariant offset == 8 + |done| <= buffer.Length
      invariant buffer[..offset] == header + done
    {
      assert IsRow(data, row, s[row]);
      SplitRow(types, s, row);
      offset := EncodeOneRow(types, data, row, buffer, offset, header + done);
      Regroup(header, done, EncodeRow(types, s[row]));
      done := done + EncodeRow(types, s[row]);
    }
    assert s[..rows] == s;
    assert offset == bufferSize;
    assert buffer[..offset] == buffer[..];
  }

  method EncodeOneRow(types: seq<ColumnType>, data: seq<Column>, row: nat, buffer: array<char>, start: nat,
                      ghost before: seq<char>) returns (offset: nat)
    requires |data| == |types| && forall i :: 0 <= i < |data| ==> row in data[i]
    requires start + |EncodeRow(types, RowAt(data, row))| <= buffer.Length && buffer[..start] == before
    modifies buffer
    ensures offset == start + |EncodeRow(types, RowAt(data, row))|
    ensures buffer[..offset] == before + EncodeRow(types, RowAt(data, row))
  {
    ghost var cells := RowAt(data, row);
    ghost var done: seq<char> := [];
    offset := start;
    for column := 0 to |types|
      invariant done == EncodeRow(types[..column], cells[..column])
      invariant offset == start + |done| <= buffer.Length
      invariant buffer[..offset] == before + done
    {
      RowPart(types, cells, column);
      var bytes := EncodeCell(types[column], data[column][row]);
      Put(buffer, offset, bytes, before + done);
      Regroup(before, done, bytes);
      done := done + bytes;
      offset := offset + |bytes|;
    }
    assert types[..|types|] == types && cells[..|types|] == cells;
  }
}
