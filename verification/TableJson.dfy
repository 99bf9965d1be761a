/** JSON rows as table cells and table cells as JSON. */
module TableJsonCells {
  import opened Options
  import opened Cells
  import opened TableLayout
  import opened JsonText

  predicate Float(p: Primitive) {
    p == Float32 || p == Float64
  }

  /** The column types a table can be formed with. */
  predicate Supported(t: ColumnType) {
    t.Optional? ==> t.p != Boolean && t.p != Timer && t.p != Duration
  }

  ghost predicate NoFloats(types: seq<ColumnType>) {
    forall i :: 0 <= i < |types| ==> (types[i].String? || !Float(types[i].p))
  }

  /** Which numbers a column takes: any unsigned one, a negative one only where the column is
      signed, and for a timer no negative one. */
  function ConvertNumber(p: Primitive, n: Node): Option<int> {
    if n.UInt? then Some(Wrap(p, n.u))
    else if n.Int? && Signed(p) && p != Timer then Some(Wrap(p, n.i))
    else None
  }

  function ConvertCell(t: ColumnType, n: Node): Option<Cell> {
    match t
    case Plain(Boolean) => if n.Bool? then Some(Value(if n.b then 1 else 0)) else None
    case Plain(p) =>
      (match ConvertNumber(p, n)
       case Some(v) => Some(Value(v))
       case None => None)
    case Optional(p) =>
      if n.Null? then Some(Maybe(None)) else
      (match ConvertNumber(p, n)
       case Some(v) => Some(Maybe(Some(v)))
       case None => None)
    case String => if n.Str? then Some(Chars(n.text)) else None
  }

  function NumberNode(v: int): Node {
    if v < 0 then Int(v) else UInt(v)
  }

  function CellNode(t: ColumnType, c: Cell): Node {
    match (t, c)
    case (Plain(p), Value(v)) => if p == Boolean then Bool(v != 0) else NumberNode(v)
    case (Optional(_), Maybe(Some(v))) => NumberNode(v)
    case (String, Chars(s)) => Str(s)
    case _ => Null
  }

  /** A number as the parser gives it: a sign only where there is one to give. */
  predicate Normal(n: Node) {
    (n.Int? ==> n.i < 0) && (n.UInt? ==> n.u >= 0)
  }

  predicate MatchesNumber(p: Primitive, n: Node) {
    (n.UInt? && InRange(p, n.u)) || (n.Int? && p != Timer && InRange(p, n.i))
  }

  /** The value is of the column's type and within its range. */
  predicate Matches(t: ColumnType, n: Node) {
    match t
    case Plain(p) => if p == Boolean then n.Bool? else MatchesNumber(p, n)
    case Optional(p) => n.Null? || MatchesNumber(p, n)
    case String => n.Str?
  }

  /** Which values a column takes, by its type; whether they fit is another matter. */
  lemma ColumnTakes(n: Node, p: Primitive)
    ensures p == Int8 || p == Int16 || p == Int32 || p == Int64 || p == Duration ==>
              (ConvertCell(Plain(p), n).Some? <==> n.Int? || n.UInt?)
    ensures p == Uint8 || p == Uint16 || p == Uint32 || p == Uint64 || p == Timer ==>
              (ConvertCell(Plain(p), n).Some? <==> n.UInt?)
    ensures p == Int8 || p == Int16 || p == Int32 || p == Int64 ==>
              (ConvertCell(Optional(p), n).Some? <==> n.Null? || n.Int? || n.UInt?)
    ensures p == Uint8 || p == Uint16 || p == Uint32 || p == Uint64 ==>
              (ConvertCell(Optional(p), n).Some? <==> n.Null? || n.UInt?)
    ensures ConvertCell(Plain(Boolean), n).Some? <==> n.Bool?
    ensures ConvertCell(String, n).Some? <==> n.Str?
  {
  }

  /** What they become. */
  lemma CellIs(n: Node, p: Primitive)
    requires p != Boolean
    ensures n.UInt? ==> ConvertCell(Plain(p), n) == Some(Value(Wrap(p, n.u)))
                        && ConvertCell(Optional(p), n) == Some(Maybe(Some(Wrap(p, n.u))))
    ensures n.Int? && ConvertCell(Plain(p), n).Some? ==> ConvertCell(Plain(p), n) == Some(Value(Wrap(p, n.i)))
    ensures n.Int? && ConvertCell(Optional(p), n).Some? ==> ConvertCell(Optional(p), n) == Some(Maybe(Some(Wrap(p, n.i))))
    ensures n.Null? ==> ConvertCell(Optional(p), n) == Some(Maybe(None))
    ensures n.Bool? ==> ConvertCell(Plain(Boolean), n) == Some(Value(if n.b then 1 else 0))
    ensures n.Str? ==> ConvertCell(String, n) == Some(Chars(n.text))
  {
  }

  /** Optionals are formed of numbers only. */
  lemma SupportedTypes(p: Primitive)
    ensures Supported(Plain(p)) && Supported(String)
    ensures p == Boolean || p == Timer || p == Duration ==> !Supported(Optional(p))
    ensures p != Boolean && p != Timer && p != Duration ==> Supported(Optional(p))
  {
  }

  /** The cell gives the value back exactly when the value matches the column. */
  lemma CellRoundTrip(t: ColumnType, n: Node)
    requires Supported(t) && Normal(n)
    ensures Matches(t, n) <==> (ConvertCell(t, n).Some? && CellNode(t, ConvertCell(t, n).value) == n)
  {
    if !t.String? && t != Plain(Boolean) && (n.UInt? || n.Int?) {
      var v := if n.UInt? then n.u else n.i;
      WrapRange(t.p, v);
      if InRange(t.p, v) {
        WrapInRange(t.p, v);
      }
    }
  }

  /** A cell formed from a value always fits its column: numbers out of range wrap. */
  lemma ConvertedFits(t: ColumnType, n: Node)
    requires Supported(t) && ConvertCell(t, n).Some? && (n.Str? ==> |n.text| < Pow256(8))
    ensures Fits(ConvertCell(t, n).value, t)
  {
    if !t.String? && t != Plain(Boolean) && (n.UInt? || n.Int?) {
      WrapRange(t.p, if n.UInt? then n.u else n.i);
    }
  }

  /** The cells of a row, if it is an array of as many values as there are columns and each
      value suits its column. */
  function ConvertRow(types: seq<ColumnType>, row: Node): (r: Option<Row>)
    ensures r.Some? ==> |r.value| == |types|
  {
    if row.Array? && |row.items| == |types|
       && forall i :: 0 <= i < |types| ==> ConvertCell(types[i], row.items[i]).Some?
    then
      Some(seq(|types|, i requires 0 <= i < |types| && ConvertCell(types[i], row.items[i]).Some? =>
                       ConvertCell(types[i], row.items[i]).value))
    else None
  }

  function ConvertRows(types: seq<ColumnType>, rows: seq<Node>): (r: Option<seq<Row>>)
    ensures r.Some? ==> |r.value| == |rows| && forall i :: 0 <= i < |rows| ==> |r.value[i]| == |types|
  {
    if (forall i :: 0 <= i < |types| ==> Supported(types[i]))
       && (forall i :: 0 <= i < |rows| ==> ConvertRow(types, rows[i]).Some?)
    then
      Some(seq(|rows|, i requires 0 <= i < |rows| && ConvertRow(types, rows[i]).Some? =>
                       ConvertRow(types, rows[i]).value))
    else None
  }

  /** What forming a table from rows gives: the table, or an empty one if any row does not do. */
  function FormedTable(types: seq<ColumnType>, rows: seq<Node>): seq<char> {
    match ConvertRows(types, rows)
    case Some(cells) => EncodeTable(types, cells)
    case None => EncodeTable(types, [])
  }

  function CellNodes(types: seq<ColumnType>, row: Row): (nodes: seq<Node>)
    requires |row| == |types|
  {
    seq(|row|, i requires 0 <= i < |row| && |row| == |types| => CellNode(types[i], row[i]))
  }

  function RowNodes(types: seq<ColumnType>, rows: seq<Row>): (nodes: seq<Node>)
    requires forall i :: 0 <= i < |rows| ==> |rows[i]| == |types|
  {
    seq(|rows|, i requires 0 <= i < |rows| && |rows[i]| == |types| => Array(true, CellNodes(types, rows[i])))
  }

  /** The JSON view of a table. */
  function TableNode(types: seq<ColumnType>, rows: seq<Row>): Node
    requires forall i :: 0 <= i < |rows| ==> |rows[i]| == |types|
  {
    Object(true, [Member("Buffer size", UInt(|EncodeTable(types, rows)|)),
                  Member("Rows", Array(true, RowNodes(types, rows)))])
  }

  /** Rows with in-range values of the types of the columns. */
  ghost predicate RowsMatch(types: seq<ColumnType>, rows: seq<Node>) {
    forall r :: 0 <= r < |rows| ==> RowMatches(types, rows[r])
  }

  ghost predicate RowMatches(types: seq<ColumnType>, row: Node) {
    && row.Array? && row.valid && |row.items| == |types|
    && forall i :: 0 <= i < |types| ==> Matches(types[i], row.items[i])
  }

  ghost predicate RowNormal(row: Node) {
    row.Array? ==> forall i :: 0 <= i < |row.items| ==> Normal(row.items[i])
  }

  /** No string is longer than a length word can say. */
  ghost predicate Short(row: Node) {
    row.Array? ==> forall i :: 0 <= i < |row.items| ==> (row.items[i].Str? ==> |row.items[i].text| < Pow256(8))
  }

  /** Whatever row is converted, its cells fit the columns: numbers out of range wrap. */
  lemma ConvertedRowFits(types: seq<ColumnType>, row: Node)
    requires (forall i :: 0 <= i < |types| ==> Supported(types[i])) && Short(row) && ConvertRow(types, row).Some?
    ensures RowFits(types, ConvertRow(types, row).value)
  {
    forall i | 0 <= i < |types|
      ensures Fits(ConvertRow(types, row).value[i], types[i])
    {
      ConvertedFits(types[i], row.items[i]);
    }
  }

  lemma ConvertedRowsFit(types: seq<ColumnType>, rows: seq<Node>)
    requires (forall r :: 0 <= r < |rows| ==> Short(rows[r])) && ConvertRows(types, rows).Some?
    ensures RowsFit(types, ConvertRows(types, rows).value)
  {
    forall r | 0 <= r < |rows|
      ensures RowFits(types, ConvertRows(types, rows).value[r])
    {
      ConvertedRowFits(types, rows[r]);
    }
  }

  lemma RowRoundTrip(types: seq<ColumnType>, row: Node)
    requires (forall i :: 0 <= i < |types| ==> Supported(types[i])) && RowNormal(row)
    ensures RowMatches(types, row)
            <==> (ConvertRow(types, row).Some? && Array(true, CellNodes(types, ConvertRow(types, row).value)) == row)
  {
    if row.Array? && |row.items| == |types| {
      forall i | 0 <= i < |types|
        ensures Matches(types[i], row.items[i])
                <==> (ConvertCell(types[i], row.items[i]).Some?
                      && CellNode(types[i], ConvertCell(types[i], row.items[i]).value) == row.items[i])
      {
        CellRoundTrip(types[i], row.items[i]);
      }
      if ConvertRow(types, row).Some? {
        var nodes := CellNodes(types, ConvertRow(types, row).value);
        if nodes == row.items {
          assert forall i :: 0 <= i < |types| ==> nodes[i] == row.items[i];
        } else if RowMatches(types, row) {
          assert false;
        }
      }
    }
  }

  /** Rows come back from their cells exactly when every row matches the columns. */
  lemma RowsRoundTrip(types: seq<ColumnType>, rows: seq<Node>)
    requires forall i :: 0 <= i < |types| ==> Supported(types[i])
    requires forall r :: 0 <= r < |rows| ==> RowNormal(rows[r])
    ensures RowsMatch(types, rows)
            <==> (ConvertRows(types, rows).Some? && RowNodes(types, ConvertRows(types, rows).value) == rows)
  {
    forall r | 0 <= r < |rows|
      ensures RowMatches(types, rows[r])
              <==> (ConvertRow(types, rows[r]).Some?
                    && Array(true, CellNodes(types, ConvertRow(types, rows[r]).value)) == rows[r])
    {
      RowRoundTrip(types, rows[r]);
    }
    if ConvertRows(types, rows).Some? {
      var nodes := RowNodes(types, ConvertRows(types, rows).value);
      if nodes == rows {
        assert forall r :: 0 <= r < |rows| ==> nodes[r] == rows[r];
      } else if RowsMatch(types, rows) {
        assert false;
      }
    }
  }
}

/** Forming a table from JSON rows in a buffer that grows, and printing it back. */
module TableJson {
  import opened Options
  import opened Cells
  import opened BufferWriter
  import opened TableLayout
  import opened TableColumns
  import opened CellReader
  import opened JsonText
  import opened TableJsonCells
  import TableModel
  import opened JsonParser
  import opened JsonRoundTrip
  import opened JsonBrackets

  // ---------------------------------------------------------------- forming

  /** What a column adds to the step; 64 bytes are foreseen for a string. */
  function ColumnStep(t: ColumnType): nat {
    match t
    case Plain(p) => Size(p)
    case Optional(p) => 1 + Size(p)
    case String => 72
  }

  /** The bytes foreseen for a cell: those of a full one, for a string 8 and 64 more. */
  lemma Foreseen(p: Primitive, v: int)
    ensures ColumnStep(Plain(p)) == CellSize(Plain(p), Value(v))
    ensures ColumnStep(Optional(p)) == CellSize(Optional(p), Maybe(Some(v)))
    ensures ColumnStep(String) == 8 + 64
  {
  }

  /** The bytes foreseen for a row. */
  function StepOf(types: seq<ColumnType>): nat {
    if types == [] then 0 else ColumnStep(types[0]) + StepOf(types[1..])
  }

  /** The bytes foreseen are enough for every row without a longer string. */
  lemma {:induction false} StepSuffices(types: seq<ColumnType>, row: Row)
    requires RowFits(types, row) && forall i :: 0 <= i < |row| && row[i].Chars? ==> |row[i].s| <= 64
    ensures |EncodeRow(types, row)| <= StepOf(types)
    decreases |row|
  {
    if row != [] {
      assert Fits(row[0], types[0]);
      CellSizeIsLength(types[0], row[0]);
      StepSuffices(types[1..], row[1..]);
    }
  }

  method AllocationStep(types: seq<ColumnType>) returns (ok: bool, step: nat)
    ensures ok <==> forall i :: 0 <= i < |types| ==> Supported(types[i])
    ensures ok ==> step == StepOf(types)
  {
    step := 0;
    for i := 0 to |types|
      invariant forall k :: 0 <= k < i ==> Supported(types[k])
      invariant step + StepOf(types[i..]) == StepOf(types)
    {
      if !Supported(types[i]) {
        return false, 0;
      }
      assert types[i..][1..] == types[i + 1..];
      step := step + ColumnStep(types[i]);
    }
    ok := true;
  }

  /** What the growth of the buffer is measured by. Only the last term of a cell's size is
      doubled: the size is handed over as a sum, without brackets. */
  function LastTermDoubled(t: ColumnType, c: Cell): (n: nat)
    requires ConvertedTo(c, t)
    ensures n >= |EncodeCell(t, c)|
  {
    match t
    case Plain(p) => Size(p) * 2
    case Optional(p) => if c.o.None? then 1 * 2 else Size(p) + 1 * 2
    case String => 8 + |c.s| * 2
  }

  /** By how much the buffer grows at least, in the bytes of the cell. */
  lemma GrowthMeans(p: Primitive, v: int, s: string)
    ensures LastTermDoubled(Plain(p), Value(v)) == 2 * CellSize(Plain(p), Value(v))
    ensures LastTermDoubled(Optional(p), Maybe(None)) == 2
    ensures LastTermDoubled(Optional(p), Maybe(Some(v))) == CellSize(Optional(p), Maybe(Some(v))) + 1
    ensures LastTermDoubled(String, Chars(s)) == 8 + 2 * |s|
  {
  }

  predicate ConvertedTo(c: Cell, t: ColumnType) {
    (t.Plain? && c.Value?) || (t.Optional? && c.Maybe?) || (t == String && c.Chars?)
  }

  /** Room for `size` more bytes at `offset`: the same buffer, or a longer copy of it, grown by
      the step or by `doubled`. */
  method Room(buffer: array<char>, offset: nat, size: nat, step: nat, doubled: nat) returns (room: array<char>)
    requires offset <= buffer.Length && size <= doubled
    ensures room == buffer || fresh(room)
    ensures offset + size <= room.Length && room[..offset] == buffer[..offset]
    ensures room.Length
            == buffer.Length + if offset + size <= buffer.Length then 0 else if step > doubled then step else doubled
  {
    if offset + size > buffer.Length {
      var capacity := buffer.Length + (if step > doubled then step else doubled);
      room := Resized(buffer, capacity, offset);
    } else {
      room := buffer;
    }
  }

  method Resized(buffer: array<char>, length: nat, used: nat) returns (r: array<char>)
    requires used <= buffer.Length && used <= length
    ensures fresh(r) && r.Length == length && r[..used] == buffer[..used]
  {
    r := new char[length];
    forall i | 0 <= i < used {
      r[i] := buffer[i];
    }
  }

  /** Appends the cell that a value makes, if it suits the column. */
  method WriteCell(buffer: array<char>, offset: nat, step: nat, t: ColumnType, n: Node, ghost before: seq<char>)
    returns (cell: Option<Cell>, grown: array<char>, next: nat)
    requires offset <= buffer.Length && buffer[..offset] == before
    modifies buffer
    ensures grown == buffer || fresh(grown)
    ensures cell == ConvertCell(t, n)
    ensures cell.Some? ==> next <= grown.Length && grown[..next] == before + EncodeCell(t, cell.value)
    ensures cell.Some? ==> next == offset + |EncodeCell(t, cell.value)|
  {
    cell, grown, next := ConvertCell(t, n), buffer, offset;
    if cell.Some? {
      var bytes := EncodeCell(t, cell.value);
      grown := Room(buffer, offset, |bytes|, step, LastTermDoubled(t, cell.value));
      Put(grown, offset, bytes, before);
      next := offset + |bytes|;
    }
  }

  /** `row` is made of the first cells of the values. */
  ghost predicate Prefix(types: seq<ColumnType>, items: seq<Node>, row: Row) {
    && |row| <= |types| == |items|
    && forall i :: 0 <= i < |row| ==> ConvertCell(types[i], items[i]) == Some(row[i])
  }

  lemma OneMoreCell(types: seq<ColumnType>, row: Row, cell: Cell)
    requires |row| < |types|
    ensures EncodeRow(types[..|row| + 1], row + [cell])
            == EncodeRow(types[..|row|], row) + EncodeCell(types[|row|], cell)
  {
    var ts, row' := types[..|row| + 1], row + [cell];
    EncodeRowNext(ts, row', |row|);
    assert ts[..|row| + 1] == ts && row'[..|row| + 1] == row';
    assert ts[..|row|] == types[..|row|] && row'[..|row|] == row;
  }

  lemma WholeRow(types: seq<ColumnType>, node: Node, row: Row)
    requires node.Array? && Prefix(types, node.items, row) && |row| == |types|
    ensures ConvertRow(types, node) == Some(row)
  {
    assert ConvertRow(types, node).value == row;
  }

  method WriteRow(buffer: array<char>, start: nat, step: nat, types: seq<ColumnType>, node: Node, ghost before: seq<char>)
    returns (ok: bool, grown: array<char>, offset: nat)
    requires start <= buffer.Length && buffer[..start] == before
    modifies buffer
    ensures grown == buffer || fresh(grown)
    ensures ok <==> ConvertRow(types, node).Some?
    ensures ok ==> offset <= grown.Length
                   && grown[..offset] == before + EncodeRow(types, ConvertRow(types, node).value)
    ensures ok ==> offset == start + |EncodeRow(types, ConvertRow(types, node).value)|
  {
    ok, grown, offset := false, buffer, start;
    if !node.Array? || |node.items| != |types| {
      return;
    }
    ghost var row: Row := [];
    ghost var done: seq<char> := [];
    for index := 0 to |types|
      invariant grown == buffer || fresh(grown)
      invariant |row| == index && Prefix(types, node.items, row)
      invariant done == EncodeRow(types[..index], row)
      invariant offset == start + |done| <= grown.Length
      invariant grown[..offset] == before + done
    {
      var cell, room, next := WriteCell(grown, offset, step, types[index], node.items[index], before + done);
      if cell.None? {
        return;
      }
      grown, offset := room, next;
      OneMoreCell(types, row, cell.value);
      Regroup(before, done, EncodeCell(types[index], cell.value));
      done := done + EncodeCell(types[index], cell.value);
      row := row + [cell.value];
    }
    assert types[..|types|] == types;
    WholeRow(types, node, row);
    ok := true;
  }

  /** `cells` is made of the first rows. */
  ghost predicate Leading(types: seq<ColumnType>, nodes: seq<Node>, cells: seq<Row>) {
    && |cells| <= |nodes|
    && (forall r :: 0 <= r < |cells| ==> |cells[r]| == |types|)
    && forall r :: 0 <= r < |cells| ==> ConvertRow(types, nodes[r]) == Some(cells[r])
  }

  lemma OneMoreRow(types: seq<ColumnType>, cells: seq<Row>, row: Row)
    requires (forall r :: 0 <= r < |cells| ==> |cells[r]| == |types|) && |row| == |types|
    ensures EncodeRows(types, cells + [row]) == EncodeRows(types, cells) + EncodeRow(types, row)
  {
    EncodeRowsConcat(types, cells, [row]);
    assert EncodeRows(types, [row]) == EncodeRow(types, row) + [];
  }

  lemma AllRows(types: seq<ColumnType>, nodes: seq<Node>, cells: seq<Row>)
    requires (forall i :: 0 <= i < |types| ==> Supported(types[i]))
    requires Leading(types, nodes, cells) && |cells| == |nodes|
    ensures ConvertRows(types, nodes) == Some(cells)
  {
    assert ConvertRows(types, nodes).value == cells;
  }

  /** The rows behind eight bytes that are still to be written. */
  method WriteRows(types: seq<ColumnType>, nodes: seq<Node>, step: nat)
    returns (ok: bool, buffer: array<char>, offset: nat)
    requires forall i :: 0 <= i < |types| ==> Supported(types[i])
    ensures fresh(buffer)
    ensures ok <==> ConvertRows(types, nodes).Some?
    ensures ok ==> 8 <= offset <= buffer.Length
                   && buffer[8..offset] == EncodeRows(types, ConvertRows(types, nodes).value)
  {
    ok, offset := false, 8;
    buffer := new char[step * |nodes| + 8];
    ghost var head := buffer[..8];
    ghost var cells: seq<Row> := [];
    ghost var done: seq<char> := [];
    for r := 0 to |nodes|
      invariant fresh(buffer)
      invariant |cells| == r && Leading(types, nodes, cells)
      invariant done == EncodeRows(types, cells)
      invariant offset == 8 + |done| <= buffer.Length
      invariant buffer[..offset] == head + done
    {
      var written, room, next := WriteRow(buffer, offset, step, types, nodes[r], head + done);
      if !written {
        return;
      }
      buffer, offset := room, next;
      ghost var row := ConvertRow(types, nodes[r]).value;
      OneMoreRow(types, cells, row);
      Regroup(head, done, EncodeRow(types, row));
      done := done + EncodeRow(types, row);
      cells := cells + [row];
    }
    AllRows(types, nodes, cells);
    assert buffer[8..offset] == buffer[..offset][8..] == done;
    ok := true;
  }

  /** Forms the table of the rows. It is empty if there are no rows, if a column type is not
      supported or if any row does not suit the columns. The first word of the buffer is its length. */
  method FormTable(types: seq<ColumnType>, nodes: seq<Node>) returns (buffer: array<char>)
    requires NoFloats(types) && forall r :: 0 <= r < |nodes| ==> Short(nodes[r])
    ensures buffer[..] == FormedTable(types, nodes)
  {
    buffer := new char[8];
    Put(buffer, 0, LittleEndian(8, 8), []);
    assert buffer[..8] == buffer[..];
    assert EncodeTable(types, []) == LittleEndian(8, 8) + [];
    if nodes == [] {
      EmptyTable(types);
      return;
    }
    var supported, step := AllocationStep(types);
    if !supported {
      return;
    }
    var ok, written, offset := WriteRows(types, nodes, step);
    if ok {
      ConvertedRowsFit(types, nodes);
      buffer := Finish(types, written, offset, ConvertRows(types, nodes).value);
    }
  }

  lemma EmptyTable(types: seq<ColumnType>)
    ensures FormedTable(types, []) == EncodeTable(types, [])
  {
    if ConvertRows(types, []).Some? {
      assert ConvertRows(types, []).value == [];
    }
  }

  /** The length goes into the first word, the rest stays. */
  method PutHeader(buffer: array<char>, header: seq<char>, ghost rest: seq<char>)
    requires |header| == 8 <= buffer.Length && buffer[8..] == rest
    modifies buffer
    ensures buffer[..] == header + rest
  {
    forall i | 0 <= i < 8 {
      buffer[i] := header[i];
    }
  }

  /** Cuts the buffer down to what was written and records its length. */
  method Finish(types: seq<ColumnType>, written: array<char>, offset: nat, ghost cells: seq<Row>)
    returns (buffer: array<char>)
    requires RowsFit(types, cells)
    requires 8 <= offset <= written.Length && written[8..offset] == EncodeRows(types, cells)
    ensures buffer[..] == EncodeTable(types, cells)
  {
    RowsSizeIsLength(types, cells);
    buffer := Resized(written, offset, offset);
    assert buffer[8..] == buffer[..offset][8..] == written[..offset][8..];
    PutHeader(buffer, LittleEndian(offset, 8), EncodeRows(types, cells));
  }

  // ---------------------------------------------------------------- printing

  /** The rows of a table between the outermost brackets. */
  function RowsText(types: seq<ColumnType>, rows: seq<Row>): string
    requires forall i :: 0 <= i < |rows| ==> |rows[i]| == |types|
  {
    if rows == [] then ""
    else ItemsText(CellNodes(types, rows[0])) + (if |rows| == 1 then "" else "],[" + RowsText(types, rows[1..]))
  }

  lemma {:induction false} RowsTextIsItems(types: seq<ColumnType>, rows: seq<Row>)
    requires rows != [] && forall i :: 0 <= i < |rows| ==> |rows[i]| == |types|
    ensures ItemsText(RowNodes(types, rows)) == "[" + RowsText(types, rows) + "]"
    decreases |rows|
  {
    var nodes := RowNodes(types, rows);
    if |rows| > 1 {
      RowsTextIsItems(types, rows[1..]);
      assert nodes[1..] == RowNodes(types, rows[1..]);
    }
  }

  lemma TwoMembers(a: Member, b: Member)
    ensures Text(Object(true, [a, b]))
            == "{" + (Head(a.key) + Text(a.value) + ("," + (Head(b.key) + Text(b.value)))) + "}"
  {
    assert [a, b][1..] == [b];
    assert MembersText([b]) == Head(b.key) + Text(b.value) + "";
  }

  /** What is printed before the first row. */
  function Lead(size: nat): string {
    "{" + Head("Buffer size") + IntText(size) + "," + Head("Rows") + "["
  }

  lemma Pieces(a: string, b: string, c: string, d: string)
    ensures "{" + (a + b + ("," + (c + ("[" + d + "]")))) + "}" == "{" + a + b + "," + c + "[" + d + "]}"
  {
  }

  lemma TableText(types: seq<ColumnType>, rows: seq<Row>)
    requires forall i :: 0 <= i < |rows| ==> |rows[i]| == |types|
    ensures Text(TableNode(types, rows)) == Lead(|EncodeTable(types, rows)|) + ItemsText(RowNodes(types, rows)) + "]}"
  {
    var size, items := |EncodeTable(types, rows)|, RowNodes(types, rows);
    TwoMembers(Member("Buffer size", UInt(size)), Member("Rows", Array(true, items)));
    Pieces(Head("Buffer size"), IntText(size), Head("Rows"), ItemsText(items));
  }

  lemma ItemsTextNext(nodes: seq<Node>, i: nat)
    requires i < |nodes|
    ensures ItemsText(nodes[i..])
            == Text(nodes[i]) + (if i == |nodes| - 1 then "" else "," + ItemsText(nodes[i + 1..]))
  {
    assert nodes[i..][1..] == nodes[i + 1..];
  }

  /** One item more is printed: `all` is what the whole list gives. */
  lemma PrintStep(text: string, nodes: seq<Node>, i: nat, piece: string, all: string)
    requires i < |nodes| && text + ItemsText(nodes[i..]) == all && piece == Text(nodes[i])
    ensures i == |nodes| - 1 ==> text + piece == all
    ensures i < |nodes| - 1 ==> text + piece + "," + ItemsText(nodes[i + 1..]) == all
  {
    ItemsTextNext(nodes, i);
    if i < |nodes| - 1 {
      PieceOn(text, piece, ",", ItemsText(nodes[i + 1..]));
    } else {
      assert text + (piece + "") == text + piece;
    }
  }

  lemma PieceOn(text: string, piece: string, between: string, rest: string)
    ensures text + (piece + (between + rest)) == text + piece + between + rest
  {
  }

  /** The cell at `index` and what follows it. */
  lemma RowTail(types: seq<ColumnType>, row: Row, index: nat, rest: seq<char>)
    requires |row| == |types| && index < |row|
    ensures EncodeRow(types[index..], row[index..]) + rest
            == EncodeCell(types[index], row[index]) + (EncodeRow(types[index + 1..], row[index + 1..]) + rest)
  {
    assert types[index..][1..] == types[index + 1..] && row[index..][1..] == row[index + 1..];
    Regroup(EncodeCell(types[index], row[index]), EncodeRow(types[index + 1..], row[index + 1..]), rest);
  }

  method PrintCell(types: seq<ColumnType>, buffer: seq<char>, start: nat, index: nat, ghost row: Row, ghost rest: seq<char>)
    returns (piece: string, offset: nat)
    requires index < |types| && RowFits(types, row)
    requires start <= |buffer| && buffer[start..] == EncodeRow(types[index..], row[index..]) + rest
    ensures piece == Text(CellNodes(types, row)[index])
    ensures start <= offset <= |buffer| && buffer[offset..] == EncodeRow(types[index + 1..], row[index + 1..]) + rest
  {
    RowTail(types, row, index, rest);
    var cell;
    cell, offset := ReadCell(buffer, start, types[index], row[index], EncodeRow(types[index + 1..], row[index + 1..]) + rest);
    piece := Text(CellNode(types[index], cell));
  }

  /** Prints one row, its cells separated by commas. */
  method PrintRow(types: seq<ColumnType>, buffer: seq<char>, start: nat, json: string,
                  ghost row: Row, ghost rest: seq<char>) returns (text: string, offset: nat)
    requires types != [] && RowFits(types, row)
    requires start <= |buffer| && buffer[start..] == EncodeRow(types, row) + rest
    ensures text == json + ItemsText(CellNodes(types, row))
    ensures start <= offset <= |buffer| && buffer[offset..] == rest
  {
    ghost var nodes, all := CellNodes(types, row), json + ItemsText(CellNodes(types, row));
    text, offset := json, start;
    var index := 0;
    assert types[0..] == types && row[0..] == row && nodes[0..] == nodes;
    while true
      invariant index < |types|
      invariant text + ItemsText(nodes[index..]) == all
      invariant start <= offset <= |buffer|
      invariant buffer[offset..] == EncodeRow(types[index..], row[index..]) + rest
      decreases |types| - index
    {
      var piece;
      piece, offset := PrintCell(types, buffer, offset, index, row, rest);
      PrintStep(text, nodes, index, piece, all);
      text := text + piece;
      if index == |types| - 1 {
        break;
      }
      text := text + ",";
      index := index + 1;
    }
    assert [] + rest == rest;
  }

  lemma RowsTextNext(types: seq<ColumnType>, rows: seq<Row>, r: nat)
    requires RowsFit(types, rows) && r < |rows|
    ensures RowsText(types, rows[r..])
            == ItemsText(CellNodes(types, rows[r])) + (if r == |rows| - 1 then "" else "],[" + RowsText(types, rows[r + 1..]))
  {
    assert rows[r..][0] == rows[r] && rows[r..][1..] == rows[r + 1..];
  }

  /** One row more is printed: `all` is what all rows give. */
  lemma RowsStep(types: seq<ColumnType>, json: string, rows: seq<Row>, r: nat, all: string)
    requires RowsFit(types, rows) && r < |rows| && json + RowsText(types, rows[r..]) == all
    ensures var printed := json + ItemsText(CellNodes(types, rows[r]));
            && (r == |rows| - 1 ==> printed == all)
            && (r < |rows| - 1 ==> printed + "],[" + RowsText(types, rows[r + 1..]) == all)
  {
    RowsTextNext(types, rows, r);
    var piece := ItemsText(CellNodes(types, rows[r]));
    if r < |rows| - 1 {
      PieceOn(json, piece, "],[", RowsText(types, rows[r + 1..]));
    } else {
      assert json + (piece + "") == json + piece;
    }
  }

  /** Prints row `r` and comes to the next, or to the end of the buffer. */
  method PrintRowAt(types: seq<ColumnType>, buffer: seq<char>, start: nat, json: string, ghost rows: seq<Row>, ghost r: nat)
    returns (text: string, offset: nat)
    requires types != [] && RowsFit(types, rows) && r < |rows|
    requires start <= |buffer| && buffer[start..] == EncodeRows(types, rows[r..])
    ensures text == json + ItemsText(CellNodes(types, rows[r]))
    ensures start < offset <= |buffer| && buffer[offset..] == EncodeRows(types, rows[r + 1..])
    ensures offset == |buffer| <==> r + 1 == |rows|
  {
    TableModel.RestOfRows(types, rows, r);
    text, offset := PrintRow(types, buffer, start, json, rows[r], EncodeRows(types, rows[r + 1..]));
    assert |buffer[start..]| == |EncodeRow(types, rows[r])| + |buffer[offset..]|;
    TableModel.RestOfRows(types, rows, r + 1);
  }

  /** Prints the rows of a buffer that holds at least one. */
  method PrintRows(types: seq<ColumnType>, buffer: seq<char>, lead: string, ghost rows: seq<Row>) returns (json: string)
    requires types != [] && RowsFit(types, rows) && rows != []
    requires buffer == EncodeTable(types, rows) && |buffer| < Pow256(8)
    ensures json == lead + RowsText(types, rows)
  {
    TableModel.Header(types, rows);
    ghost var all, r := lead + RowsText(types, rows), 0;
    json := lead;
    var offset := 8;
    assert rows[0..] == rows;
    while true
      invariant r < |rows| && json + RowsText(types, rows[r..]) == all
      invariant offset <= |buffer| && buffer[offset..] == EncodeRows(types, rows[r..])
      decreases |buffer| - offset
    {
      RowsStep(types, json, rows, r, all);
      json, offset := PrintRowAt(types, buffer, offset, json, rows, r);
      if offset == |buffer| {
        break;
      }
      json := json + "],[";
      r := r + 1;
    }
  }

  /** The JSON view of a buffer, which is the view of the table it encodes. */
  method LookUpToJson(types: seq<ColumnType>, buffer: seq<char>, ghost rows: seq<Row>) returns (json: string)
    requires types != [] && NoFloats(types) && RowsFit(types, rows)
    requires buffer == EncodeTable(types, rows) && |buffer| < Pow256(8)
    ensures json == Text(TableNode(types, rows))
  {
    TableText(types, rows);
    RowsSizeIsLength(types, rows);
    if |buffer| == 8 {
      assert RowNodes(types, rows) == [];
      return Lead(|buffer|) + "]}";
    }
    json := PrintRows(types, buffer, Lead(|buffer|) + "[", rows);
    RowsTextIsItems(types, rows);
    Closed(Lead(|buffer|), RowsText(types, rows));
    json := json + "]]}";
  }

  lemma Closed(lead: string, rows: string)
    ensures lead + "[" + rows + "]]}" == lead + ("[" + rows + "]") + "]}"
  {
  }

  // ---------------------------------------------------------------- there and back

  /** What looking up the table formed from rows prints. */
  function ThroughTable(types: seq<ColumnType>, nodes: seq<Node>): Node {
    match ConvertRows(types, nodes)
    case Some(cells) => TableNode(types, cells)
    case None => TableNode(types, [])
  }

  method FormAndLookUp(types: seq<ColumnType>, nodes: seq<Node>) returns (json: string)
    requires types != [] && NoFloats(types) && forall r :: 0 <= r < |nodes| ==> Short(nodes[r])
    requires |FormedTable(types, nodes)| < Pow256(8)
    ensures json == Text(ThroughTable(types, nodes))
  {
    var buffer := FormTable(types, nodes);
    var cells := match ConvertRows(types, nodes) case Some(cells) => cells case None => [];
    if ConvertRows(types, nodes).Some? {
      ConvertedRowsFit(types, nodes);
    }
    json := LookUpToJson(types, buffer[..], cells);
  }

  /** The rows that are printed are the rows that were put in exactly if these match the columns,
      value by value and within range. */
  lemma RowsComeBack(types: seq<ColumnType>, nodes: seq<Node>)
    requires types != [] && nodes != []
    requires (forall i :: 0 <= i < |types| ==> Supported(types[i])) && forall r :: 0 <= r < |nodes| ==> RowNormal(nodes[r])
    ensures RowsMatch(types, nodes) <==> ThroughTable(types, nodes).members[1] == Member("Rows", Array(true, nodes))
  {
    RowsRoundTrip(types, nodes);
    if ConvertRows(types, nodes).None? {
      assert RowNodes(types, []) == [];
    }
  }

  /** What the parser makes of the printed view: the size of the buffer and the rows themselves. */
  lemma ParsedBack(types: seq<ColumnType>, nodes: seq<Node>)
    requires types != [] && nodes != [] && RowsMatch(types, nodes)
    requires (forall i :: 0 <= i < |types| ==> Supported(types[i])) && forall r :: 0 <= r < |nodes| ==> RowNormal(nodes[r])
    requires forall r :: 0 <= r < |nodes| ==> WellTypedAll(nodes[r]) && StringsBalanced(nodes[r])
    requires |FormedTable(types, nodes)| < TWO_64
    ensures ParseObject(Text(ThroughTable(types, nodes)))
            == Object(true, [Member("Buffer size", UInt(|FormedTable(types, nodes)|)), Member("Rows", Array(true, nodes))])
  {
    RowsRoundTrip(types, nodes);
    var size, list := UInt(|FormedTable(types, nodes)|), Array(true, nodes);
    var n := ThroughTable(types, nodes);
    assert n == Object(true, [Member("Buffer size", size), Member("Rows", list)]);
    ViewPrintable(n);
    RoundTrip(n);
  }

  lemma PairPrintable(a: Member, b: Member)
    requires Raw(a.key) && BalancedBoth(a.key) && WellTypedAll(a.value) && StringsBalanced(a.value)
    requires Raw(b.key) && BalancedBoth(b.key) && WellTypedAll(b.value) && StringsBalanced(b.value)
    requires Less(a.key, b.key)
    ensures WellTypedAll(Object(true, [a, b])) && StringsBalanced(Object(true, [a, b]))
  {
    assert forall i :: 0 <= i < 2 ==> [a, b][i] == a || [a, b][i] == b;
  }

  lemma PlainKey(key: string)
    requires key == "Buffer size" || key == "Rows"
    ensures Raw(key) && BalancedBoth(key)
  {
    KeyPlain(key);
  }

  lemma KeysOrdered(a: string, b: string)
    requires a != "" && b != "" && a[0] < b[0]
    ensures Less(a, b)
  {
  }

  lemma ViewPrintable(n: Node)
    requires n.Object? && n.valid && |n.members| == 2
    requires n.members[0].key == "Buffer size" && n.members[0].value.UInt? && 0 <= n.members[0].value.u < TWO_64
    requires n.members[1].key == "Rows" && WellTypedAll(n.members[1].value) && StringsBalanced(n.members[1].value)
    ensures WellTypedAll(n) && StringsBalanced(n)
  {
    PlainKey(n.members[0].key);
    PlainKey(n.members[1].key);
    KeysOrdered(n.members[0].key, n.members[1].key);
    PairPrintable(n.members[0], n.members[1]);
    assert n == Object(true, [n.members[0], n.members[1]]);
  }

  lemma {:induction false} KeyPlain(key: string)
    requires forall i :: 0 <= i < |key| ==> !IsBracket(key[i]) && key[i] != '"' && key[i] != '\\'
    ensures Raw(key) && BalancedBoth(key)
  {
    PlainIsBalanced(key, '{', '}');
    PlainIsBalanced(key, '[', ']');
    if key != "" {
      KeyPlain(key[1..]);
    }
  }
}
