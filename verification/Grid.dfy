/** Sorting grid rows by a column: the comparators and the stable order they define. */
module GridOrder {
  import opened Lists

  type Id = int
  type Column = int

  datatype Value = Null | Num(n: int)

  datatype Sorting = NoSorting | Ascending | Descending

  /** The comparators: nulls come first in ascending order and last in descending order. */
  function Compare(s: Sorting, a: Value, b: Value): int {
    if a.Null? && b.Null? then 0
    else if a.Null? then if s == Descending then 1 else -1
    else if b.Null? then if s == Descending then -1 else 1
    else if a.n == b.n then 0
    else if (a.n < b.n) == (s != Descending) then -1 else 1
  }

  function Elements(s: seq<Id>): set<Id> {
    set x | x in s
  }

  /** `a` is to stand before `b`: by the comparator, or by insertion where that finds no difference. */
  predicate Precedes(s: Sorting, key: map<Id, Value>, stamp: map<Id, nat>, a: Id, b: Id)
    requires a in key && b in key && a in stamp && b in stamp
  {
    var c := Compare(s, key[a], key[b]);
    c < 0 || (c == 0 && stamp[a] < stamp[b])
  }

  ghost predicate Covers(key: map<Id, Value>, stamp: map<Id, nat>, rows: seq<Id>) {
    forall i :: 0 <= i < |rows| ==> rows[i] in key && rows[i] in stamp
  }

  ghost predicate Arranged(s: Sorting, key: map<Id, Value>, stamp: map<Id, nat>, rows: seq<Id>)
    requires Covers(key, stamp, rows)
  {
    forall i, j :: 0 <= i < j < |rows| ==> Precedes(s, key, stamp, rows[i], rows[j])
  }

  /** The rows were inserted in this order. */
  ghost predicate Stamped(stamp: map<Id, nat>, order: seq<Id>) {
    && (forall i :: 0 <= i < |order| ==> order[i] in stamp)
    && forall i, j :: 0 <= i < j < |order| ==> stamp[order[i]] < stamp[order[j]]
  }

  lemma PrecedesTransitive(s: Sorting, key: map<Id, Value>, stamp: map<Id, nat>, a: Id, b: Id, c: Id)
    requires a in key && b in key && c in key && a in stamp && b in stamp && c in stamp
    requires Precedes(s, key, stamp, a, b) && Precedes(s, key, stamp, b, c)
    ensures Precedes(s, key, stamp, a, c)
  {
  }

  lemma FirstElement(s: seq<Id>)
    ensures s != [] ==> s[0] in Elements(s)
  {
  }

  /** Two arrangements of the same rows are the same. */
  lemma {:induction false} ArrangedUnique(s: Sorting, key: map<Id, Value>, stamp: map<Id, nat>, a: seq<Id>, b: seq<Id>)
    requires Covers(key, stamp, a) && Covers(key, stamp, b)
    requires Arranged(s, key, stamp, a) && Arranged(s, key, stamp, b)
    requires Distinct(a) && Distinct(b) && Elements(a) == Elements(b)
    ensures a == b
    decreases |a|
  {
    if a == [] {
      FirstElement(b);
    } else {
      assert a[0] in Elements(a) && a[0] in b;
      assert b[0] in Elements(b) && b[0] in a;
      assert a[0] == b[0];
      assert Elements(a[1..]) == Elements(a) - {a[0]};
      assert Elements(b[1..]) == Elements(b) - {b[0]};
      ArrangedUnique(s, key, stamp, a[1..], b[1..]);
      assert a == [a[0]] + a[1..] && b == [b[0]] + b[1..];
    }
  }

  /** A row goes behind all rows that it does not compare less than, from the back. */
  function Insert(s: Sorting, key: map<Id, Value>, sorted: seq<Id>, x: Id): (r: seq<Id>)
    requires x in key && forall y :: y in sorted ==> y in key
    ensures |r| == |sorted| + 1
  {
    if sorted == [] then [x]
    else
      var n := |sorted| - 1;
      var last := sorted[n];
      assert last in sorted;
      if Compare(s, key[x], key[last]) < 0 then Insert(s, key, sorted[..n], x) + [last]
      else sorted + [x]
  }

  /** Stable sorting, as `Array.prototype.sort` does it. */
  function StableSort(s: Sorting, key: map<Id, Value>, order: seq<Id>): (r: seq<Id>)
    requires forall y :: y in order ==> y in key
    ensures |r| == |order| && forall y :: y in r ==> y in order
    decreases |order|
  {
    if order == [] then []
    else
      var n := |order| - 1;
      var front := StableSort(s, key, order[..n]);
      InsertElements(s, key, front, order[n]);
      Insert(s, key, front, order[n])
  }

  lemma {:induction false} InsertElements(s: Sorting, key: map<Id, Value>, sorted: seq<Id>, x: Id)
    requires x in key && forall y :: y in sorted ==> y in key
    ensures forall y :: y in Insert(s, key, sorted, x) <==> y == x || y in sorted
    decreases |sorted|
  {
    if sorted != [] {
      var n := |sorted| - 1;
      InsertElements(s, key, sorted[..n], x);
      assert sorted == sorted[..n] + [sorted[n]];
    }
  }

  lemma ArrangedSnoc(s: Sorting, key: map<Id, Value>, stamp: map<Id, nat>, rows: seq<Id>, x: Id)
    requires Covers(key, stamp, rows) && x in key && x in stamp
    requires Arranged(s, key, stamp, rows) && Distinct(rows)
    requires forall y :: y in rows ==> Precedes(s, key, stamp, y, x) && y != x
    ensures Covers(key, stamp, rows + [x]) && Arranged(s, key, stamp, rows + [x]) && Distinct(rows + [x])
  {
  }

  lemma ArrangedFront(s: Sorting, key: map<Id, Value>, stamp: map<Id, nat>, rows: seq<Id>)
    requires Covers(key, stamp, rows) && Arranged(s, key, stamp, rows) && Distinct(rows) && rows != []
    ensures var front, last := rows[..|rows| - 1], rows[|rows| - 1];
            && Covers(key, stamp, front) && Arranged(s, key, stamp, front) && Distinct(front)
            && forall y :: y in front ==> Precedes(s, key, stamp, y, last) && y != last
    ensures rows == rows[..|rows| - 1] + [rows[|rows| - 1]]
  {
    var front, last := rows[..|rows| - 1], rows[|rows| - 1];
    forall y | y in front
      ensures Precedes(s, key, stamp, y, last) && y != last
    {
      var i :| 0 <= i < |front| && front[i] == y;
      assert rows[i] == y;
    }
  }

  /** Inserting the latest row keeps the arrangement. */
  lemma {:induction false} InsertArranges(s: Sorting, key: map<Id, Value>, stamp: map<Id, nat>, sorted: seq<Id>, x: Id)
    requires Covers(key, stamp, sorted) && x in key && x in stamp
    requires Arranged(s, key, stamp, sorted) && Distinct(sorted)
    requires forall y :: y in sorted ==> stamp[y] < stamp[x]
    ensures var r := Insert(s, key, sorted, x);
            Covers(key, stamp, r) && Arranged(s, key, stamp, r) && Distinct(r)
    decreases |sorted|
  {
    if sorted != [] {
      var n := |sorted| - 1;
      var front, last := sorted[..n], sorted[n];
      ArrangedFront(s, key, stamp, sorted);
      if Compare(s, key[x], key[last]) < 0 {
        InsertArranges(s, key, stamp, front, x);
        InsertElements(s, key, front, x);
        ArrangedSnoc(s, key, stamp, Insert(s, key, front, x), last);
      } else {
        AllPrecede(s, key, stamp, front, last, x);
        ArrangedSnoc(s, key, stamp, sorted, x);
      }
    }
  }

  lemma AllPrecede(s: Sorting, key: map<Id, Value>, stamp: map<Id, nat>, front: seq<Id>, last: Id, x: Id)
    requires Covers(key, stamp, front) && last in key && last in stamp && x in key && x in stamp
    requires forall y :: y in front ==> Precedes(s, key, stamp, y, last)
    requires Compare(s, key[x], key[last]) >= 0 && stamp[last] < stamp[x]
    ensures forall y :: y in front + [last] ==> Precedes(s, key, stamp, y, x) && y != x
  {
    forall y | y in front
      ensures Precedes(s, key, stamp, y, x) && y != x
    {
      PrecedesTransitive(s, key, stamp, y, last, x);
    }
  }

  lemma FrontElements(order: seq<Id>)
    requires order != []
    ensures var front, last := order[..|order| - 1], order[|order| - 1];
            forall y :: y in order <==> y == last || y in front
  {
    assert order == order[..|order| - 1] + [order[|order| - 1]];
  }

  /** The stable sort of the rows in insertion order is an arrangement of the same rows. */
  lemma {:induction false} StableSortArranges(s: Sorting, key: map<Id, Value>, stamp: map<Id, nat>, order: seq<Id>)
    requires Covers(key, stamp, order) && Stamped(stamp, order)
    ensures var r := StableSort(s, key, order);
            && Covers(key, stamp, r) && Arranged(s, key, stamp, r) && Distinct(r)
            && forall y :: y in r <==> y in order
    decreases |order|
  {
    if order != [] {
      var n := |order| - 1;
      StableSortArranges(s, key, stamp, order[..n]);
      var front := StableSort(s, key, order[..n]);
      FrontElements(order);
      LatestStamp(stamp, order);
      InsertArranges(s, key, stamp, front, order[n]);
      InsertElements(s, key, front, order[n]);
    }
  }

  lemma LatestStamp(stamp: map<Id, nat>, order: seq<Id>)
    requires Stamped(stamp, order) && order != []
    ensures forall y :: y in order[..|order| - 1] ==> y in stamp && stamp[y] < stamp[order[|order| - 1]]
    ensures Stamped(stamp, order[..|order| - 1])
  {
  }

  /** Rows without a value stand at the end that the order dictates. */
  lemma NullsAtTheEnd(s: Sorting, key: map<Id, Value>, stamp: map<Id, nat>, rows: seq<Id>, i: nat, j: nat)
    requires Covers(key, stamp, rows) && Arranged(s, key, stamp, rows) && i < j < |rows|
    ensures s != Descending ==> (key[rows[j]].Null? ==> key[rows[i]].Null?)
    ensures s == Descending ==> (key[rows[i]].Null? ==> key[rows[j]].Null?)
  {
    assert Precedes(s, key, stamp, rows[i], rows[j]);
  }

  /** Rows with numbers stand in the order of these, and where the values are equal in the order of
      their insertion. */
  lemma NumbersInOrder(s: Sorting, key: map<Id, Value>, stamp: map<Id, nat>, rows: seq<Id>, i: nat, j: nat)
    requires Covers(key, stamp, rows) && Arranged(s, key, stamp, rows) && i < j < |rows|
    ensures key[rows[i]].Num? && key[rows[j]].Num? && s != Descending ==> key[rows[i]].n <= key[rows[j]].n
    ensures key[rows[i]].Num? && key[rows[j]].Num? && s == Descending ==> key[rows[i]].n >= key[rows[j]].n
    ensures key[rows[i]] == key[rows[j]] ==> stamp[rows[i]] < stamp[rows[j]]
  {
    assert Precedes(s, key, stamp, rows[i], rows[j]);
  }
}

/** Where the rows stand, kept in two maps that are inverse to each other. */
module GridPlaces {
  import opened Lists
  import opened GridOrder

  /** The rows stand in places 2, 3, and so on; the first place is the header's. */
  ghost predicate Places(byPlace: map<int, Id>, place: map<Id, int>, rows: seq<Id>) {
    && Distinct(rows)
    && (forall g :: g in byPlace <==> 2 <= g < |rows| + 2)
    && (forall g :: 2 <= g < |rows| + 2 ==> byPlace[g] == rows[g - 2])
    && (forall x :: x in place <==> x in rows)
    && (forall i :: 0 <= i < |rows| ==> place[rows[i]] == i + 2)
  }

  function Swapped(rows: seq<Id>, i: int, j: int): (r: seq<Id>)
    requires 0 <= i < |rows| && 0 <= j < |rows|
    ensures |r| == |rows|
  {
    rows[i := rows[j]][j := rows[i]]
  }

  lemma SwappedElements(rows: seq<Id>, i: int, j: int)
    requires 0 <= i < |rows| && 0 <= j < |rows| && Distinct(rows)
    ensures Distinct(Swapped(rows, i, j))
    ensures forall x :: x in Swapped(rows, i, j) <==> x in rows
  {
    var r := Swapped(rows, i, j);
    forall x | x in rows
      ensures x in r
    {
      var k :| 0 <= k < |rows| && rows[k] == x;
      assert r[if k == i then j else if k == j then i else k] == x;
    }
  }

  lemma SwapPlaces(byPlace: map<int, Id>, place: map<Id, int>, rows: seq<Id>, g: int, h: int)
    requires Places(byPlace, place, rows) && g in byPlace && h in byPlace && g != h
    ensures Places(byPlace[g := byPlace[h]][h := byPlace[g]], place[byPlace[g] := h][byPlace[h] := g],
                   Swapped(rows, g - 2, h - 2))
  {
    SwappedElements(rows, g - 2, h - 2);
  }

  /** A row behind all others. */
  lemma AddPlace(byPlace: map<int, Id>, place: map<Id, int>, rows: seq<Id>, x: Id)
    requires Places(byPlace, place, rows) && x !in rows
    ensures Places(byPlace[|rows| + 2 := x], place[x := |rows| + 2], rows + [x])
  {
  }

  lemma DropPlace(byPlace: map<int, Id>, place: map<Id, int>, rows: seq<Id>, x: Id)
    requires Places(byPlace, place, rows) && rows != [] && rows[|rows| - 1] == x
    ensures Places(byPlace - {|rows| + 1}, place - {x}, rows[..|rows| - 1])
  {
    var rows' := rows[..|rows| - 1];
    assert rows == rows' + [x];
    assert forall y :: y in rows' <==> y in rows && y != x;
  }

  ghost function FirstPlaces(n: nat): (r: set<int>)
    ensures |r| == n && forall g :: g in r <==> 2 <= g < n + 2
  {
    if n == 0 then {} else FirstPlaces(n - 1) + {n + 1}
  }

  lemma PlaceCount(keys: set<int>, n: nat)
    requires forall g :: g in keys <==> 2 <= g < n + 2
    ensures |keys| == n
  {
    assert keys == FirstPlaces(n);
  }

  /** The rows without the one at `p`, the others in their order. */
  function Without(rows: seq<Id>, p: nat): seq<Id>
    requires p < |rows|
  {
    rows[..p] + rows[p + 1..]
  }

  /** The row at `p` moved to `q`, those between moved up. */
  function Moved(rows: seq<Id>, p: nat, q: nat): (r: seq<Id>)
    requires p <= q < |rows|
    ensures |r| == |rows|
  {
    rows[..p] + rows[p + 1..q + 1] + [rows[p]] + rows[q + 1..]
  }

  lemma MovedOn(rows: seq<Id>, p: nat, q: nat)
    requires p <= q && q + 1 < |rows|
    ensures Swapped(Moved(rows, p, q), q, q + 1) == Moved(rows, p, q + 1)
  {
  }

  lemma MovedNowhere(rows: seq<Id>, p: nat)
    requires p < |rows|
    ensures Moved(rows, p, p) == rows
  {
  }

  lemma MovedToEnd(rows: seq<Id>, p: nat)
    requires p < |rows|
    ensures Moved(rows, p, |rows| - 1)[..|rows| - 1] == Without(rows, p)
    ensures Moved(rows, p, |rows| - 1)[|rows| - 1] == rows[p]
  {
  }
}

module GridModel {
  import opened Lists
  import opened GridOrder
  import opened GridPlaces

  /** The rows of a grid and the two maps of their places. */
  class Rows {
    var rowByGridRow: map<int, Id>
    var gridRow: map<Id, int>
    ghost var rows: seq<Id>

    ghost predicate Valid()
      reads this
    {
      Places(rowByGridRow, gridRow, rows)
    }

    constructor ()
      ensures Valid() && rows == []
    {
      rowByGridRow, gridRow, rows := map[], map[], [];
    }

    /** Swaps two rows; nothing happens if there is no row in one of the places. */
    method SwapRows(gridRow1: int, gridRow2: int)
      requires Valid()
      modifies this
      ensures Valid()
      ensures rows == if 2 <= gridRow1 < |old(rows)| + 2 && 2 <= gridRow2 < |old(rows)| + 2
                      then Swapped(old(rows), gridRow1 - 2, gridRow2 - 2) else old(rows)
    {
      if gridRow1 == gridRow2 {
        return;
      }
      if gridRow1 !in rowByGridRow || gridRow2 !in rowByGridRow {
        return;
      }
      var row1, row2 := rowByGridRow[gridRow1], rowByGridRow[gridRow2];
      SwapPlaces(rowByGridRow, gridRow, rows, gridRow1, gridRow2);
      gridRow := gridRow[row1 := gridRow2][row2 := gridRow1];
      rowByGridRow := rowByGridRow[gridRow1 := row2][gridRow2 := row1];
      rows := Swapped(rows, gridRow1 - 2, gridRow2 - 2);
    }

    /** Puts the rows in the order of `sorted`, by one swap for each place. */
    method Rearrange(sorted: seq<Id>)
      requires Valid() && Distinct(sorted) && |sorted| == |rows| && forall x :: x in sorted ==> x in rows
      modifies this
      ensures Valid() && rows == sorted
    {
      for i := 0 to |sorted|
        invariant Valid() && |sorted| == |rows|
        invariant forall k :: 0 <= k < i ==> rows[k] == sorted[k]
        invariant forall x :: x in sorted ==> x in rows
      {
        var x := sorted[i];
        assert x in sorted;
        ghost var before, p := rows, gridRow[x] - 2;
        NotEarlier(rows, sorted, i, p);
        SwapRows(gridRow[x], i + 2);
        SwappedElements(before, p, i);
      }
    }

    method Add(x: Id)
      requires Valid() && x !in rows
      modifies this
      ensures Valid() && rows == old(rows) + [x]
    {
      AddPlace(rowByGridRow, gridRow, rows, x);
      PlaceCount(rowByGridRow.Keys, |rows|);
      var place := |rowByGridRow| + 2;
      gridRow := gridRow[x := place];
      rowByGridRow := rowByGridRow[place := x];
      rows := rows + [x];
    }

    /** Takes a row out by swapping it to the end; the others keep their order. */
    method Remove(x: Id)
      requires Valid() && x in rows
      modifies this
      ensures Valid() && old(gridRow[x]) == PlaceOf(old(rows), x) + 2
      ensures rows == Without(old(rows), PlaceOf(old(rows), x))
    {
      ghost var p := PlaceOf(rows, x);
      MovedToEnd(rows, p);
      MoveToEnd(gridRow[x], p);
      DropPlace(rowByGridRow, gridRow, rows, x);
      rowByGridRow := rowByGridRow - {gridRow[x]};
      gridRow := gridRow - {x};
      rows := rows[..|rows| - 1];
    }

    /** As many rows as places. */
    function Size(): (n: nat)
      requires Valid()
      reads this
      ensures n == |rows|
    {
      PlaceCount(rowByGridRow.Keys, |rows|);
      |rowByGridRow|
    }

    method MoveToEnd(from: int, ghost p: nat)
      requires Valid() && p < |rows| && from == p + 2
      modifies this
      ensures Valid() && rows == Moved(old(rows), p, |old(rows)| - 1)
    {
      ghost var before, q := rows, p;
      MovedNowhere(rows, p);
      var index, size := from, Size();
      while index < size + 1
        invariant p <= q < |before| && size == |before| && index == q + 2
        invariant Valid() && rows == Moved(before, p, q)
        decreases size - index
      {
        MoveOn(index, before, p, q);
        q := q + 1;
        index := index + 1;
      }
    }

    method MoveOn(index: int, ghost before: seq<Id>, ghost p: nat, ghost q: nat)
      requires Valid() && p <= q && q + 1 < |before| && index == q + 2 && rows == Moved(before, p, q)
      modifies this
      ensures Valid() && rows == Moved(before, p, q + 1)
    {
      MovedOn(before, p, q);
      SwapRows(index, index + 1);
    }
  }

  /** Where a row stands. */
  ghost function PlaceOf(rows: seq<Id>, x: Id): (p: nat)
    requires x in rows
    ensures p < |rows| && rows[p] == x
  {
    var p :| 0 <= p < |rows| && rows[p] == x;
    p
  }

  /** A row that is yet to be placed stands behind those that are. */
  lemma NotEarlier(rows: seq<Id>, sorted: seq<Id>, i: nat, p: int)
    requires i < |sorted| == |rows| && Distinct(sorted) && forall k :: 0 <= k < i ==> rows[k] == sorted[k]
    requires 0 <= p < |rows| && rows[p] == sorted[i]
    ensures p >= i
  {
  }
}

/** What a grid knows of its rows besides their places. */
module GridData {
  import opened Lists
  import opened GridOrder
  import opened GridPlaces

  type Record = map<Column, Value>

  function KeyOf(values: map<Id, Record>, c: Column): map<Id, Value> {
    map x | x in values && c in values[x] :: values[x][c]
  }

  /** Every row in insertion order, with a value in each column and its index in the index column. */
  ghost predicate Complete(columns: seq<Column>, index: Column, order: seq<Id>, values: map<Id, Record>, stamp: map<Id, nat>) {
    && (forall x :: x in values <==> x in order)
    && Stamped(stamp, order)
    && (forall x, c :: x in values && c in columns ==> c in values[x])
    && (forall x :: x in values ==> index in values[x] && values[x][index] == Num(x))
  }

  ghost predicate SortedBy(s: Sorting, key: map<Id, Value>, stamp: map<Id, nat>, rows: seq<Id>) {
    Covers(key, stamp, rows) && Arranged(s, key, stamp, rows)
  }

  /** The rows are arranged by every column that sorting is on for. */
  ghost predicate Sorted(sorting: map<Column, Sorting>, values: map<Id, Record>, stamp: map<Id, nat>, rows: seq<Id>) {
    forall c :: c in sorting && sorting[c] != NoSorting ==> SortedBy(sorting[c], KeyOf(values, c), stamp, rows)
  }

  ghost predicate OneActive(sorting: map<Column, Sorting>) {
    forall c, d :: c in sorting && d in sorting && sorting[c] != NoSorting && sorting[d] != NoSorting ==> c == d
  }

  /** Sorting is on for one column alone. */
  function Only(sorting: map<Column, Sorting>, c: Column): map<Column, Sorting> {
    map d | d in sorting :: if d == c then sorting[d] else NoSorting
  }

  lemma StampedCons(stamp: map<Id, nat>, head: Id, rest: seq<Id>)
    requires Stamped(stamp, rest) && head in stamp
    requires forall y :: y in rest ==> y in stamp && stamp[head] < stamp[y]
    ensures Stamped(stamp, [head] + rest)
  {
    forall i | 0 <= i < |rest|
      ensures stamp[head] < stamp[rest[i]]
    {
      var y := rest[i];
      assert y in rest;
    }
  }

  lemma {:induction false} ErasedStamped(stamp: map<Id, nat>, order: seq<Id>, x: Id)
    requires Stamped(stamp, order)
    ensures Stamped(stamp, Erased(order, x))
    decreases |order|
  {
    if order != [] {
      var head, rest := order[0], order[1..];
      assert order == [head] + rest;
      ErasedStamped(stamp, rest, x);
      ErasedElements(rest, x);
      assert forall y :: y in rest ==> stamp[head] < stamp[y];
      if head != x {
        StampedCons(stamp, head, Erased(rest, x));
      }
    }
  }

  lemma WithoutSorted(s: Sorting, key: map<Id, Value>, key': map<Id, Value>, stamp: map<Id, nat>, rows: seq<Id>, p: nat)
    requires SortedBy(s, key, stamp, rows) && Distinct(rows) && p < |rows|
    requires forall y :: y in key && y != rows[p] ==> y in key' && key'[y] == key[y]
    ensures SortedBy(s, key', stamp, Without(rows, p))
    ensures forall y :: y in Without(rows, p) <==> y in rows && y != rows[p]
  {
    var r := Without(rows, p);
    assert forall i :: 0 <= i < |r| ==> r[i] == rows[if i < p then i else i + 1];
    assert rows == rows[..p] + [rows[p]] + rows[p + 1..];
  }

  lemma StampedDistinct(stamp: map<Id, nat>, order: seq<Id>)
    requires Stamped(stamp, order)
    ensures Distinct(order)
  {
  }

  /** What sorting the rows by a column gives. */
  function SortedRows(s: Sorting, values: map<Id, Record>, c: Column, order: seq<Id>): seq<Id>
    requires forall x :: x in order ==> x in values && c in values[x]
  {
    StableSort(s, KeyOf(values, c), order)
  }

  /** Each row has a value in the column. */
  ghost predicate Known(values: map<Id, Record>, c: Column, stamp: map<Id, nat>, rows: seq<Id>) {
    forall i :: 0 <= i < |rows| ==> rows[i] in values && c in values[rows[i]] && rows[i] in stamp
  }

  /** The rows stand in the order of a column: missing values first, then ascending numbers; equal
      values in the order of their insertion. */
  ghost predicate Ascend(values: map<Id, Record>, c: Column, stamp: map<Id, nat>, rows: seq<Id>)
    requires Known(values, c, stamp, rows)
  {
    forall i, j :: 0 <= i < j < |rows| ==>
      var a, b := values[rows[i]][c], values[rows[j]][c];
      && (b.Null? ==> a.Null?)
      && (a.Num? && b.Num? ==> a.n <= b.n)
      && (a == b ==> stamp[rows[i]] < stamp[rows[j]])
  }

  /** Numbers descending, then missing values; equal values in the order of their insertion. */
  ghost predicate Descend(values: map<Id, Record>, c: Column, stamp: map<Id, nat>, rows: seq<Id>)
    requires Known(values, c, stamp, rows)
  {
    forall i, j :: 0 <= i < j < |rows| ==>
      var a, b := values[rows[i]][c], values[rows[j]][c];
      && (a.Null? ==> b.Null?)
      && (a.Num? && b.Num? ==> a.n >= b.n)
      && (a == b ==> stamp[rows[i]] < stamp[rows[j]])
  }

  lemma SortedKnown(s: Sorting, values: map<Id, Record>, c: Column, stamp: map<Id, nat>, rows: seq<Id>)
    requires SortedBy(s, KeyOf(values, c), stamp, rows)
    ensures Known(values, c, stamp, rows)
  {
    assert forall i :: 0 <= i < |rows| ==> rows[i] in KeyOf(values, c);
  }

  /** What an arrangement by a column is, by its values. */
  lemma SortedReads(s: Sorting, values: map<Id, Record>, c: Column, stamp: map<Id, nat>, rows: seq<Id>)
    requires SortedBy(s, KeyOf(values, c), stamp, rows) && s != NoSorting
    requires Known(values, c, stamp, rows)
    ensures s == Ascending ==> Ascend(values, c, stamp, rows)
    ensures s == Descending ==> Descend(values, c, stamp, rows)
  {
    var key := KeyOf(values, c);
    forall i, j | 0 <= i < j < |rows|
      ensures var a, b := values[rows[i]][c], values[rows[j]][c];
              && (s == Ascending ==> (b.Null? ==> a.Null?) && (a.Num? && b.Num? ==> a.n <= b.n))
              && (s == Descending ==> (a.Null? ==> b.Null?) && (a.Num? && b.Num? ==> a.n >= b.n))
              && (a == b ==> stamp[rows[i]] < stamp[rows[j]])
    {
      NullsAtTheEnd(s, key, stamp, rows, i, j);
      NumbersInOrder(s, key, stamp, rows, i, j);
    }
  }

  /** Sorted by their index, the rows' ids ascend. */
  lemma IndexAscends(values: map<Id, Record>, index: Column, stamp: map<Id, nat>, rows: seq<Id>)
    requires SortedBy(Ascending, KeyOf(values, index), stamp, rows) && Distinct(rows)
    requires forall x :: x in values ==> index in values[x] && values[x][index] == Num(x)
    ensures forall i, j :: 0 <= i < j < |rows| ==> rows[i] < rows[j]
  {
    SortedKnown(Ascending, values, index, stamp, rows);
    forall i, j | 0 <= i < j < |rows|
      ensures rows[i] < rows[j]
    {
      NumbersInOrder(Ascending, KeyOf(values, index), stamp, rows, i, j);
    }
  }

  /** Sorting by a column arranges all rows by it. */
  lemma SortArranges(s: Sorting, values: map<Id, Record>, c: Column, order: seq<Id>, stamp: map<Id, nat>)
    requires Stamped(stamp, order) && forall x :: x in order ==> x in values && c in values[x]
    ensures var r := SortedRows(s, values, c, order);
            && SortedBy(s, KeyOf(values, c), stamp, r) && Distinct(r) && |r| == |order|
            && forall x :: x in r <==> x in order
  {
    var key := KeyOf(values, c);
    forall i | 0 <= i < |order|
      ensures order[i] in key
    {
      var x := order[i];
      assert x in order;
    }
    StableSortArranges(s, key, stamp, order);
  }

  /** Rows that are in the order of a column are what sorting by it gives. */
  lemma AlreadySorted(s: Sorting, values: map<Id, Record>, c: Column, order: seq<Id>, stamp: map<Id, nat>, rows: seq<Id>)
    requires Stamped(stamp, order) && forall x :: x in order ==> x in values && c in values[x]
    requires SortedBy(s, KeyOf(values, c), stamp, rows) && Distinct(rows)
    requires forall x :: x in rows <==> x in order
    ensures rows == SortedRows(s, values, c, order)
  {
    var r := SortedRows(s, values, c, order);
    SortArranges(s, values, c, order, stamp);
    assert forall x :: x in Elements(rows) <==> x in Elements(r);
    ArrangedUnique(s, KeyOf(values, c), stamp, rows, r);
  }
}

/** The grid: sorting, adding, updating and removing rows. */
module GridTable {
  import opened Lists
  import opened GridOrder
  import opened GridPlaces
  import opened GridData
  import opened GridModel

  class Grid {
    const indexColumn: Column
    const columns: seq<Column>
    const places: Rows
    var order: seq<Id>
    var values: map<Id, Record>
    var sorting: map<Column, Sorting>
    ghost var stamp: map<Id, nat>
    ghost var clock: nat

    /** The places hold the known rows. */
    ghost predicate Consistent()
      reads this, places
    {
      && places.Valid()
      && Complete(columns, indexColumn, order, values, stamp)
      && |order| == |places.rows|
      && (forall x :: x in places.rows <==> x in order)
      && (forall x :: x in stamp ==> stamp[x] < clock)
      && (forall c :: c in sorting <==> c in columns)
    }

    /** Besides, sorting is on for one column at most, and the rows are in its order. */
    ghost predicate Valid()
      reads this, places
    {
      Consistent() && OneActive(sorting) && Sorted(sorting, values, stamp, places.rows)
    }

    constructor (columns: seq<Column>, indexColumn: Column)
      ensures Valid() && places.rows == [] && fresh(places)
    {
      this.columns, this.indexColumn := columns, indexColumn;
      places := new Rows();
      order, values, stamp, clock := [], map[], map[], 0;
      sorting := map c | c in columns :: NoSorting;
    }

    /** Sorts by a column that sorting is on for. With `clear`, goes back to the order of the index
        and turns sorting off. */
    method ApplySorting(c: Column, clear: bool)
      requires Consistent() && c in sorting
      modifies this`sorting, places
      ensures Consistent()
      ensures old(sorting[c]) == NoSorting ==> sorting == old(sorting) && places.rows == old(places.rows)
      ensures old(sorting[c]) != NoSorting && clear ==>
                sorting == old(sorting)[c := NoSorting] && places.rows == SortedRows(Ascending, values, indexColumn, order)
      ensures old(sorting[c]) != NoSorting && !clear ==>
                && sorting == Only(old(sorting), c)
                && places.rows == SortedRows(old(sorting[c]), values, c, order)
                && SortedBy(old(sorting[c]), KeyOf(values, c), stamp, places.rows)
      ensures Known(values, c, stamp, places.rows)
      ensures old(sorting[c]) == Ascending && !clear ==> Ascend(values, c, stamp, places.rows)
      ensures old(sorting[c]) == Descending && !clear ==> Descend(values, c, stamp, places.rows)
      ensures old(sorting[c]) != NoSorting && clear ==>
                forall i, j :: 0 <= i < j < |places.rows| ==> places.rows[i] < places.rows[j]
    {
      if sorting[c] == NoSorting {
        return;
      }
      var sorted;
      if clear {
        SortArranges(Ascending, values, indexColumn, order, stamp);
        sorted := SortedRows(Ascending, values, indexColumn, order);
        sorting := sorting[c := NoSorting];
      } else {
        SortArranges(sorting[c], values, c, order, stamp);
        sorted := SortedRows(sorting[c], values, c, order);
        sorting := Only(sorting, c);
      }
      places.Rearrange(sorted);
      if clear {
        IndexAscends(values, indexColumn, stamp, sorted);
      } else {
        SortedKnown(old(sorting[c]), values, c, stamp, sorted);
        SortedReads(old(sorting[c]), values, c, stamp, sorted);
      }
    }

    /** Choosing an order for a column in its settings; to choose the one it has does nothing. */
    method SortBy(c: Column, s: Sorting)
      requires Valid() && c in sorting && s != NoSorting
      modifies this`sorting, places
      ensures Valid() && places.rows == SortedRows(s, values, c, order)
      ensures sorting == Only(old(sorting)[c := s], c)
      ensures Known(values, c, stamp, places.rows)
      ensures s == Ascending ==> Ascend(values, c, stamp, places.rows)
      ensures s == Descending ==> Descend(values, c, stamp, places.rows)
    {
      if sorting[c] == s {
        AlreadySorted(s, values, c, order, stamp, places.rows);
        SortedReads(s, values, c, stamp, places.rows);
        return;
      }
      sorting := sorting[c := s];
      ApplySorting(c, false);
    }

    /** A click on the sorting mark of a column: a sorted column is turned round, any other left
        alone. */
    method Click(c: Column)
      requires Valid() && c in sorting
      modifies this`sorting, places
      ensures Valid()
      ensures old(sorting[c]) == NoSorting ==> sorting == old(sorting) && places.rows == old(places.rows)
      ensures old(sorting[c]) != NoSorting ==>
                var s := if old(sorting[c]) == Ascending then Descending else Ascending;
                sorting == old(sorting)[c := s] && places.rows == SortedRows(s, values, c, order)
      ensures Known(values, c, stamp, places.rows)
      ensures old(sorting[c]) == Descending ==> Ascend(values, c, stamp, places.rows)
      ensures old(sorting[c]) == Ascending ==> Descend(values, c, stamp, places.rows)
    {
      if sorting[c] == Ascending {
        sorting := sorting[c := Descending];
        ApplySorting(c, false);
      } else if sorting[c] == Descending {
        sorting := sorting[c := Ascending];
        ApplySorting(c, false);
      }
    }

    /** Turns sorting off: the rows go back to the order of their index. */
    method ClearSorting(c: Column)
      requires Valid() && c in sorting && sorting[c] != NoSorting
      modifies this`sorting, places
      ensures Valid() && places.rows == SortedRows(Ascending, values, indexColumn, order)
      ensures forall i, j :: 0 <= i < j < |places.rows| ==> places.rows[i] < places.rows[j]
      ensures forall d :: d in sorting ==> sorting[d] == NoSorting
    {
      ApplySorting(c, true);
    }

    /** Sorts by those columns of `changed` that sorting is on for, one after another. */
    method ResortBy(changed: seq<Column>)
      requires Consistent() && OneActive(sorting) && forall c :: c in changed ==> c in columns
      requires forall c :: c in sorting && sorting[c] != NoSorting && c !in changed ==>
                 SortedBy(sorting[c], KeyOf(values, c), stamp, places.rows)
      modifies this`sorting, places
      ensures Valid() && sorting == old(sorting)
      ensures (forall c :: c in changed ==> sorting[c] == NoSorting) ==> places.rows == old(places.rows)
    {
      for i := 0 to |changed|
        invariant Consistent() && sorting == old(sorting)
        invariant forall c :: c in sorting && sorting[c] != NoSorting && c !in changed[i..] ==>
                    SortedBy(sorting[c], KeyOf(values, c), stamp, places.rows)
        invariant (forall c :: c in changed ==> sorting[c] == NoSorting) ==> places.rows == old(places.rows)
      {
        var c := changed[i];
        assert c in changed;
        assert changed[i..] == [c] + changed[i + 1..];
        ApplySorting(c, false);
      }
    }

    /** A row with a new index goes behind the others, and is sorted in if sorting is on. */
    method AddRow(id: Id, record: Record)
      requires Valid() && id !in values
      requires (forall c :: c in columns ==> c in record) && indexColumn in record && record[indexColumn] == Num(id)
      modifies this, places
      ensures Valid() && order == old(order) + [id] && values == old(values)[id := record] && sorting == old(sorting)
      ensures (forall c :: c in sorting ==> sorting[c] == NoSorting) ==> places.rows == old(places.rows) + [id]
    {
      places.Add(id);
      StampedSnoc(stamp, order, id, clock);
      order := order + [id];
      values := values[id := record];
      stamp := stamp[id := clock];
      clock := clock + 1;
      ResortBy(columns);
    }

    /** New values for the row with this index; sorted anew if the sorted column changed. */
    method UpdateRow(id: Id, update: Record)
      requires Valid() && id in values
      requires indexColumn in update ==> update[indexColumn] == Num(id)
      modifies this, places
      ensures Valid() && order == old(order) && sorting == old(sorting)
      ensures values == old(values)[id := old(values)[id] + update]
    {
      var changed: seq<Column> := Changed(columns, values[id], update);
      ghost var before := values;
      values := values[id := values[id] + update];
      forall c | c in sorting && sorting[c] != NoSorting && c !in changed
        ensures SortedBy(sorting[c], KeyOf(values, c), stamp, places.rows)
      {
        assert KeyOf(values, c) == KeyOf(before, c);
      }
      ResortBy(changed);
    }

    method AddOrUpdateRow(record: Record)
      requires Valid()
      requires indexColumn in record ==> record[indexColumn].Num?
      requires indexColumn in record && record[indexColumn].n !in values ==> forall c :: c in columns ==> c in record
      modifies this, places
      ensures Valid() && sorting == old(sorting)
      ensures indexColumn !in record ==> values == old(values) && order == old(order) && places.rows == old(places.rows)
      ensures indexColumn in record ==>
                var id := record[indexColumn].n;
                values == old(values)[id := if id in old(values) then old(values)[id] + record else record]
                && order == if id in old(values) then old(order) else old(order) + [id]
    {
      if indexColumn !in record {
        return;
      }
      if record[indexColumn].n in values {
        UpdateRow(record[indexColumn].n, record);
      } else {
        AddRow(record[indexColumn].n, record);
      }
    }

    /** The row with this index leaves; the others keep their order. */
    method RemoveRow(id: Id)
      requires Valid()
      modifies this, places
      ensures Valid() && sorting == old(sorting)
      ensures id !in old(values) ==> values == old(values) && places.rows == old(places.rows)
      ensures id in old(values) ==>
                values == old(values) - {id} && id in old(places.rows)
                && places.rows == Without(old(places.rows), PlaceOf(old(places.rows), id))
    {
      if id !in values {
        return;
      }
      ghost var rows, p, before := places.rows, PlaceOf(places.rows, id), values;
      places.Remove(id);
      ErasedStamped(stamp, order, id);
      StampedDistinct(stamp, order);
      ErasedElements(order, id);
      order := Erased(order, id);
      values := values - {id};
      WithoutElements(rows, p);
      forall c | c in sorting && sorting[c] != NoSorting
        ensures SortedBy(sorting[c], KeyOf(values, c), stamp, places.rows)
      {
        WithoutSorted(sorting[c], KeyOf(before, c), KeyOf(values, c), stamp, rows, p);
      }
    }
  }

  function Changed(columns: seq<Column>, record: Record, update: Record): (changed: seq<Column>)
    ensures forall c :: c in changed ==> c in columns
    ensures forall c :: c in columns && c !in changed && c in record ==> c in record + update && (record + update)[c] == record[c]
  {
    if columns == [] then []
    else
      var c := columns[0];
      var rest := Changed(columns[1..], record, update);
      if c in update && (c !in record || record[c] != update[c]) then [c] + rest else rest
  }

  lemma StampedSnoc(stamp: map<Id, nat>, order: seq<Id>, id: Id, clock: nat)
    requires Stamped(stamp, order) && id !in order && forall x :: x in stamp ==> stamp[x] < clock
    ensures Stamped(stamp[id := clock], order + [id])
  {
    forall i | 0 <= i < |order|
      ensures order[i] != id
    {
      var x := order[i];
      assert x in order;
    }
  }

  lemma WithoutElements(rows: seq<Id>, p: nat)
    requires Distinct(rows) && p < |rows|
    ensures forall y :: y in Without(rows, p) <==> y in rows && y != rows[p]
  {
    var r := Without(rows, p);
    assert forall i :: 0 <= i < |r| ==> r[i] == rows[if i < p then i else i + 1];
    assert rows == rows[..p] + [rows[p]] + rows[p + 1..];
  }
}
