/** Entries of a standard message: a type tag, a key and a value. */
module StandardEntries {
  import opened Options
  import opened Cells

  type Key = int

  datatype Datum =
    | Scalar(p: Primitive, v: int)
    | Optionally(p: Primitive, o: Option<int>)
    | Words(s: string)
    | Nested(table: seq<char>)

  /** The number types, the only ones that come as optionals. */
  predicate Numeric(p: Primitive) {
    p != Boolean && p != Timer && p != Duration
  }

  /** A value of its type. A nested table knows its own length: it is its first word. */
  predicate Good(d: Datum) {
    match d
    case Scalar(p, v) => InRange(p, v)
    case Optionally(p, o) => Numeric(p) && (o.Some? ==> InRange(p, o.value))
    case Words(s) => |s| < Pow256(8)
    case Nested(table) => 8 <= |table| < Pow256(8) && Number(table[..8]) == |table|
  }

  function IntegerRank(p: Primitive): nat {
    match p
    case Int8 => 1
    case Int16 => 2
    case Int32 => 3
    case Int64 => 4
    case Uint8 => 5
    case Uint16 => 6
    case Uint32 => 7
    case _ => 8
  }

  function ScalarTag(p: Primitive): nat {
    match p
    case Float32 => 9
    case Float64 => 10
    case Boolean => 11
    case Timer => 34
    case Duration => 35
    case _ => IntegerRank(p)
  }

  function OptionalTag(p: Primitive, empty: bool): nat {
    match p
    case Float32 => if empty then 30 else 28
    case Float64 => if empty then 31 else 29
    case _ => IntegerRank(p) + if empty then 19 else 11
  }

  function Tag(d: Datum): nat {
    match d
    case Scalar(p, _) => ScalarTag(p)
    case Optionally(p, o) => OptionalTag(p, o.None?)
    case Words(s) => if s == "" then 33 else 32
    case Nested(_) => 36
  }

  function Payload(d: Datum): seq<char> {
    match d
    case Scalar(p, v) => EncodePrimitive(p, v)
    case Optionally(p, Some(v)) => EncodePrimitive(p, v)
    case Optionally(p, None) => []
    case Words(s) => if s == "" then [] else LittleEndian(|s|, 8) + s
    case Nested(table) => table
  }

  function Entry(key: Key, d: Datum): seq<char>
    requires 0 <= key
  {
    [Tag(d) as char] + LittleEndian(key, 8) + Payload(d)
  }

  /** The bytes of an entry as the kept size counts them. */
  function EntrySize(d: Datum): nat {
    9 + match d
        case Scalar(p, _) => Size(p)
        case Optionally(p, o) => if o.Some? then Size(p) else 0
        case Words(s) => if s == "" then 0 else 8 + |s|
        case Nested(table) => |table|
  }

  lemma EntrySizeIsLength(key: Key, d: Datum)
    requires 0 <= key
    ensures |Entry(key, d)| == EntrySize(d)
  {
  }

  function IntegerOf(rank: int): Primitive {
    match rank
    case 1 => Int8
    case 2 => Int16
    case 3 => Int32
    case 4 => Int64
    case 5 => Uint8
    case 6 => Uint16
    case 7 => Uint32
    case _ => Uint64
  }

  datatype Kind = ScalarKind(p: Primitive) | FullKind(p: Primitive) | EmptyKind(p: Primitive)
                | WordsKind | NoWordsKind | NestedKind | UnknownKind

  /** The cases of the decoder. */
  function KindOf(tag: int): Kind {
    if 1 <= tag <= 8 then ScalarKind(IntegerOf(tag))
    else if 12 <= tag <= 19 then FullKind(IntegerOf(tag - 11))
    else if 20 <= tag <= 27 then EmptyKind(IntegerOf(tag - 19))
    else
      match tag
      case 9 => ScalarKind(Float32)
      case 10 => ScalarKind(Float64)
      case 11 => ScalarKind(Boolean)
      case 28 => FullKind(Float32)
      case 29 => FullKind(Float64)
      case 30 => EmptyKind(Float32)
      case 31 => EmptyKind(Float64)
      case 32 => WordsKind
      case 33 => NoWordsKind
      case 34 => ScalarKind(Timer)
      case 35 => ScalarKind(Duration)
      case 36 => NestedKind
      case _ => UnknownKind
  }

  function KindOfDatum(d: Datum): Kind {
    match d
    case Scalar(p, _) => ScalarKind(p)
    case Optionally(p, o) => if o.Some? then FullKind(p) else EmptyKind(p)
    case Words(s) => if s == "" then NoWordsKind else WordsKind
    case Nested(_) => NestedKind
  }

  /** No two kinds of values share a tag. */
  lemma TagsDecide(d: Datum)
    requires Good(d)
    ensures 1 <= Tag(d) <= 36 && KindOf(Tag(d)) == KindOfDatum(d)
  {
  }

  /** The tags by name. */
  lemma TagsAre(v: int, s: string, table: seq<char>)
    ensures Tag(Scalar(Int8, v)) == 1 && Tag(Scalar(Int16, v)) == 2 && Tag(Scalar(Int32, v)) == 3
    ensures Tag(Scalar(Int64, v)) == 4 && Tag(Scalar(Uint8, v)) == 5 && Tag(Scalar(Uint16, v)) == 6
    ensures Tag(Scalar(Uint32, v)) == 7 && Tag(Scalar(Uint64, v)) == 8
    ensures Tag(Scalar(Float32, v)) == 9 && Tag(Scalar(Float64, v)) == 10 && Tag(Scalar(Boolean, v)) == 11
    ensures Tag(Optionally(Int8, Some(v))) == 12 && Tag(Optionally(Int16, Some(v))) == 13
    ensures Tag(Optionally(Int32, Some(v))) == 14 && Tag(Optionally(Int64, Some(v))) == 15
    ensures Tag(Optionally(Uint8, Some(v))) == 16 && Tag(Optionally(Uint16, Some(v))) == 17
    ensures Tag(Optionally(Uint32, Some(v))) == 18 && Tag(Optionally(Uint64, Some(v))) == 19
    ensures Tag(Optionally(Int8, None)) == 20 && Tag(Optionally(Int16, None)) == 21
    ensures Tag(Optionally(Int32, None)) == 22 && Tag(Optionally(Int64, None)) == 23
    ensures Tag(Optionally(Uint8, None)) == 24 && Tag(Optionally(Uint16, None)) == 25
    ensures Tag(Optionally(Uint32, None)) == 26 && Tag(Optionally(Uint64, None)) == 27
    ensures Tag(Optionally(Float32, Some(v))) == 28 && Tag(Optionally(Float64, Some(v))) == 29
    ensures Tag(Optionally(Float32, None)) == 30 && Tag(Optionally(Float64, None)) == 31
    ensures s != "" ==> Tag(Words(s)) == 32
    ensures Tag(Words("")) == 33 && Tag(Scalar(Timer, v)) == 34 && Tag(Scalar(Duration, v)) == 35
    ensures Tag(Nested(table)) == 36
  {
  }

  /** An entry in bytes: one for the tag, eight for the key, and the value; an empty optional and an
      empty string have none for it, a string has eight more for its length, a table its own. */
  lemma EntryBytes(key: Key, p: Primitive, v: int, s: string, table: seq<char>)
    requires 0 <= key
    ensures p == Int8 || p == Uint8 || p == Boolean ==>
              |Entry(key, Scalar(p, v))| == 10 && |Entry(key, Optionally(p, Some(v)))| == 10
    ensures p == Int16 || p == Uint16 ==>
              |Entry(key, Scalar(p, v))| == 11 && |Entry(key, Optionally(p, Some(v)))| == 11
    ensures p == Int32 || p == Uint32 || p == Float32 ==>
              |Entry(key, Scalar(p, v))| == 13 && |Entry(key, Optionally(p, Some(v)))| == 13
    ensures p == Int64 || p == Uint64 || p == Float64 || p == Timer || p == Duration ==>
              |Entry(key, Scalar(p, v))| == 17 && |Entry(key, Optionally(p, Some(v)))| == 17
    ensures |Entry(key, Optionally(p, None))| == 9 && |Entry(key, Words(""))| == 9
    ensures s != "" ==> |Entry(key, Words(s))| == 17 + |s|
    ensures |Entry(key, Nested(table))| == 9 + |table|
  {
  }

  /** Where the parts of an entry lie. */
  lemma EntryLayout(key: Key, d: Datum)
    requires 0 <= key < Pow256(8) && Good(d)
    ensures var e := Entry(key, d); |e| >= 9 && e[0] as int == Tag(d) && Number(e[1..9]) == key && e[9..] == Payload(d)
  {
    TagsDecide(d);
    NumberOfBytes(key, 8);
    var e := Entry(key, d);
    assert e[1..9] == LittleEndian(key, 8);
  }

  /** A value and the number of bytes it takes; none if the tag is unknown or the bytes end first. */
  function ReadPayload(tag: int, s: seq<char>): (r: Option<(Datum, nat)>)
    ensures r.Some? ==> r.value.1 <= |s|
  {
    match KindOf(tag)
    case ScalarKind(p) =>
      if |s| < Size(p) then None else Some((Scalar(p, DecodePrimitive(p, s[..Size(p)])), Size(p)))
    case FullKind(p) =>
      if |s| < Size(p) then None else Some((Optionally(p, Some(DecodePrimitive(p, s[..Size(p)]))), Size(p)))
    case EmptyKind(p) => Some((Optionally(p, None), 0))
    case NoWordsKind => Some((Words(""), 0))
    case WordsKind =>
      if |s| < 8 || |s| < 8 + Number(s[..8]) then None
      else Some((Words(s[8..8 + Number(s[..8])]), 8 + Number(s[..8])))
    case NestedKind =>
      if |s| < 8 || |s| < Number(s[..8]) then None
      else Some((Nested(s[..Number(s[..8])]), Number(s[..8])))
    case UnknownKind => None
  }

  lemma ReadsWords(head: seq<char>, s: string, rest: seq<char>)
    requires |head| == 8 && Number(head) == |s|
    ensures ReadPayload(32, head + s + rest) == Some((Words(s), 8 + |s|))
  {
    var t := head + s + rest;
    assert t[..8] == head && t[8..8 + |s|] == s;
  }

  /** A table is skipped by its own length word. */
  lemma ReadsNested(table: seq<char>, rest: seq<char>)
    requires Good(Nested(table))
    ensures ReadPayload(36, table + rest) == Some((Nested(table), |table|))
  {
    assert (table + rest)[..8] == table[..8] && (table + rest)[..|table|] == table;
  }

  lemma ReadsBack(d: Datum, rest: seq<char>)
    requires Good(d)
    ensures ReadPayload(Tag(d), Payload(d) + rest) == Some((d, |Payload(d)|))
  {
    TagsDecide(d);
    match d {
      case Scalar(p, v) =>
        assert (Payload(d) + rest)[..Size(p)] == EncodePrimitive(p, v);
        PrimitiveRoundTrip(p, v);
      case Optionally(p, Some(v)) =>
        assert (Payload(d) + rest)[..Size(p)] == EncodePrimitive(p, v);
        PrimitiveRoundTrip(p, v);
      case Optionally(p, None) =>
      case Words(s) =>
        if s != "" {
          NumberOfBytes(|s|, 8);
          ReadsWords(LittleEndian(|s|, 8), s, rest);
        }
      case Nested(table) =>
        ReadsNested(table, rest);
    }
  }
}

/** The message as a map, laid out by ascending keys. */
module StandardMessage {
  import opened Options
  import opened Cells
  import opened StandardEntries

  type Data = map<Key, Datum>

  ghost predicate Sound(data: Data) {
    forall k :: k in data ==> 0 <= k < Pow256(8) && Good(data[k])
  }

  ghost predicate IsLeast(k: Key, data: Data) {
    k in data && forall j :: j in data ==> k <= j
  }

  lemma AnyKey(data: Data) returns (k: Key)
    requires data != map[]
    ensures k in data
  {
    var entry :| entry in data.Items;
    k := entry.0;
  }

  lemma {:induction false} HasLeast(data: Data)
    requires data != map[]
    ensures exists k :: IsLeast(k, data)
    decreases |data|
  {
    var k := AnyKey(data);
    var rest := data - {k};
    if rest == map[] {
      assert forall j :: j in data && j != k ==> j in rest;
      assert IsLeast(k, data);
    } else {
      HasLeast(rest);
      var m :| IsLeast(m, rest);
      var least := if k < m then k else m;
      assert forall j :: j in data ==> j == k || j in rest;
      assert IsLeast(least, data);
    }
  }

  ghost function Least(data: Data): (k: Key)
    requires data != map[]
    ensures IsLeast(k, data)
  {
    HasLeast(data);
    var k :| IsLeast(k, data);
    k
  }

  lemma LeastUnique(k: Key, data: Data)
    requires IsLeast(k, data)
    ensures data != map[] && Least(data) == k
  {
  }

  ghost function Entries(data: Data): seq<char>
    requires Sound(data)
    decreases |data|
  {
    if data == map[] then []
    else
      var k := Least(data);
      Entry(k, data[k]) + Entries(data - {k})
  }

  ghost function EntriesSize(data: Data): nat
    decreases |data|
  {
    if data == map[] then 0
    else
      var k := Least(data);
      EntrySize(data[k]) + EntriesSize(data - {k})
  }

  /** The buffer of a message. */
  ghost function Message(cipher: nat, data: Data): seq<char>
    requires Sound(data)
  {
    LittleEndian(cipher, 8) + LittleEndian(16 + EntriesSize(data), 8) + Entries(data)
  }

  lemma {:induction false} EntriesSizeIsLength(data: Data)
    requires Sound(data)
    ensures |Entries(data)| == EntriesSize(data)
    decreases |data|
  {
    if data != map[] {
      var k := Least(data);
      EntrySizeIsLength(k, data[k]);
      EntriesSizeIsLength(data - {k});
    }
  }

  /** A new key adds the size of its entry, wherever it falls in the order. */
  lemma {:induction false} EntriesSizeAdd(data: Data, key: Key, d: Datum)
    requires key !in data
    ensures EntriesSize(data[key := d]) == EntriesSize(data) + EntrySize(d)
    decreases |data|
  {
    var data' := data[key := d];
    assert key in data';
    var k := Least(data');
    if k == key {
      assert data' - {k} == data;
    } else {
      assert forall j :: j in data ==> j in data';
      LeastUnique(k, data);
      EntriesSizeAdd(data - {k}, key, d);
      assert data' - {k} == (data - {k})[key := d];
    }
  }

  // ---------------------------------------------------------------- reading

  /** First come, first served, as `std::map::emplace` has it. */
  function Emplace<V>(m: map<Key, V>, key: Key, v: V): map<Key, V> {
    if key in m then m else m[key := v]
  }

  /** What a decoder holds: values and the tags they came with. */
  datatype Contents = Contents(data: Data, types: map<Key, nat>)

  datatype Item = Item(key: Key, d: Datum, tag: nat, used: nat)

  /** The entry that `s` starts with; none at an unknown tag, or if the bytes end first. */
  function ReadEntry(s: seq<char>): (r: Option<Item>)
    ensures r.Some? ==> 9 <= r.value.used <= |s|
  {
    if |s| < 9 then None
    else
      match ReadPayload(s[0] as int, s[9..])
      case None => None
      case Some((d, used)) => Some(Item(Number(s[1..9]), d, s[0] as int, 9 + used))
  }

  /** What the decoder holds after reading `s`, having held `c` before, with `left` bytes of the
      message still to come. It stops where no entry can be read, and keeps the first of two
      entries with one key. */
  function Read(s: seq<char>, left: int, c: Contents): Contents
    decreases |s|
  {
    var item := ReadEntry(s);
    if left <= 0 || item.None? then c
    else Read(s[item.value.used..], left - item.value.used, Both(c, item.value.key, item.value.d, item.value.tag))
  }

  function Both(c: Contents, key: Key, d: Datum, tag: nat): Contents {
    Contents(Emplace(c.data, key, d), Emplace(c.types, key, tag))
  }

  function Tags(data: Data): map<Key, nat> {
    map k | k in data :: Tag(data[k])
  }

  /** Values with the tags they are encoded with. */
  function Typed(data: Data): Contents {
    Contents(data, Tags(data))
  }

  lemma TypedEmplace(data: Data, key: Key, d: Datum)
    ensures Both(Typed(data), key, d, Tag(d)) == Typed(Emplace(data, key, d))
  {
    assert Emplace(Tags(data), key, Tag(d)) == Tags(Emplace(data, key, d));
  }

  /** Entries one after another, in any order and with any repetitions. */
  function Listed(calls: seq<(Key, Datum)>): seq<char>
    requires forall i :: 0 <= i < |calls| ==> 0 <= calls[i].0
  {
    if calls == [] then [] else Entry(calls[0].0, calls[0].1) + Listed(calls[1..])
  }

  /** What a sequence of settings leaves: the first one for every key. */
  function FirstOfEach(calls: seq<(Key, Datum)>, data: Data): Data {
    if calls == [] then data else FirstOfEach(calls[1..], Emplace(data, calls[0].0, calls[0].1))
  }

  lemma EntryParts(head: seq<char>, key: seq<char>, payload: seq<char>, rest: seq<char>)
    requires |head| == 1 && |key| == 8
    ensures var s := head + key + payload + rest;
            && |s| >= 9 && s[0] == head[0] && s[1..9] == key
            && s[9..] == payload + rest && s[9 + |payload|..] == rest
  {
  }

  lemma EntryComesBack(key: Key, d: Datum, rest: seq<char>)
    requires 0 <= key < Pow256(8) && Good(d)
    ensures ReadEntry(Entry(key, d) + rest) == Some(Item(key, d, Tag(d), |Entry(key, d)|))
    ensures (Entry(key, d) + rest)[|Entry(key, d)|..] == rest
  {
    TagsDecide(d);
    EntryParts([Tag(d) as char], LittleEndian(key, 8), Payload(d), rest);
    ReadsBack(d, rest);
    NumberOfBytes(key, 8);
  }

  lemma ReadsItem(s: seq<char>, left: nat, c: Contents, item: Item, rest: seq<char>, goal: Contents)
    requires ReadEntry(s) == Some(item) && rest == s[item.used..]
    requires Read(rest, left, Both(c, item.key, item.d, item.tag)) == goal
    ensures Read(s, item.used + left, c) == goal
  {
  }

  /** One entry is read ahead of whatever `goal` the bytes behind it give. */
  lemma ReadsEntry(key: Key, d: Datum, rest: seq<char>, left: nat, c: Contents, goal: Contents)
    requires 0 <= key < Pow256(8) && Good(d) && Read(rest, left, Both(c, key, d, Tag(d))) == goal
    ensures Read(Entry(key, d) + rest, |Entry(key, d)| + left, c) == goal
  {
    EntryComesBack(key, d, rest);
    ReadsItem(Entry(key, d) + rest, left, c, Item(key, d, Tag(d), |Entry(key, d)|), rest, goal);
  }

  lemma ReadsAhead(all: seq<char>, key: Key, d: Datum, rest: seq<char>, c: Contents, c': Contents, goal: Contents)
    requires 0 <= key < Pow256(8) && Good(d) && all == Entry(key, d) + rest && c' == Both(c, key, d, Tag(d))
    requires Read(rest, |rest|, c') == goal
    ensures Read(all, |all|, c) == goal
  {
    ReadsEntry(key, d, rest, |rest|, c, goal);
  }

  /** Whatever is set, decoding gives the first value of every key. */
  lemma {:induction false} ReadsListed(calls: seq<(Key, Datum)>, data: Data)
    requires forall i :: 0 <= i < |calls| ==> 0 <= calls[i].0 < Pow256(8) && Good(calls[i].1)
    ensures Read(Listed(calls), |Listed(calls)|, Typed(data)) == Typed(FirstOfEach(calls, data))
    decreases |calls|
  {
    if calls != [] {
      var data' := Emplace(data, calls[0].0, calls[0].1);
      ReadsListed(calls[1..], data');
      TypedEmplace(data, calls[0].0, calls[0].1);
      ReadsAhead(Listed(calls), calls[0].0, calls[0].1, Listed(calls[1..]), Typed(data), Typed(data'),
                 Typed(FirstOfEach(calls, data)));
    }
  }

  lemma MoveOne(before: Data, data: Data, k: Key)
    requires k in data && before.Keys !! data.Keys
    ensures before[k := data[k]] + (data - {k}) == before + data
    ensures before[k := data[k]].Keys !! (data - {k}).Keys
  {
  }

  /** The encoded map is read back into any map that shares no key with it. */
  lemma {:induction false} ReadsEntries(data: Data, before: Data)
    requires Sound(data) && before.Keys !! data.Keys
    ensures Read(Entries(data), |Entries(data)|, Typed(before)) == Typed(before + data)
    decreases |data|
  {
    if data == map[] {
      assert before + data == before;
    } else {
      var k := Least(data);
      var rest := data - {k};
      MoveOne(before, data, k);
      ReadsEntries(rest, before[k := data[k]]);
      TypedEmplace(before, k, data[k]);
      ReadsAhead(Entries(data), k, data[k], Entries(rest), Typed(before), Typed(before[k := data[k]]), Typed(before + data));
    }
  }

  lemma MessageParts(cipher: nat, data: Data)
    requires Sound(data) && cipher < Pow256(8) && 16 + EntriesSize(data) < Pow256(8)
    ensures var m := Message(cipher, data);
            && |m| == 16 + EntriesSize(data) == 16 + |Entries(data)|
            && Number(m[..8]) == cipher && Number(m[8..16]) == |m| && m[16..] == Entries(data)
  {
    var m := Message(cipher, data);
    EntriesSizeIsLength(data);
    NumberOfBytes(cipher, 8);
    NumberOfBytes(16 + EntriesSize(data), 8);
    Halves(LittleEndian(cipher, 8), LittleEndian(16 + EntriesSize(data), 8), Entries(data));
  }

  lemma Halves(a: seq<char>, b: seq<char>, c: seq<char>)
    requires |a| == 8 && |b| == 8
    ensures var m := a + b + c; m[..8] == a && m[8..16] == b && m[16..] == c
  {
  }

  lemma ReadsAll(data: Data)
    requires Sound(data)
    ensures Read(Entries(data), |Entries(data)|, Typed(map[])) == Typed(data)
  {
    var nothing: Data := map[];
    ReadsEntries(data, nothing);
    assert nothing + data == data;
  }

  /** A message is read back whole: its cipher, its size and every value and tag under its key. */
  lemma MessageRoundTrip(cipher: nat, data: Data)
    requires Sound(data) && cipher < Pow256(8) && 16 + EntriesSize(data) < Pow256(8)
    ensures var m := Message(cipher, data);
            && Number(m[..8]) == cipher && Number(m[8..16]) == |m|
            && Read(m[16..], |m| - 16, Typed(map[])) == Typed(data)
  {
    MessageParts(cipher, data);
    ReadsAll(data);
  }
}

/** The data object of a standard message. */
module StandardData {
  import opened Options
  import opened Cells
  import TableLayout
  import TableModel
  import opened BufferWriter
  import opened StandardEntries
  import opened StandardMessage

  class DataObject {
    const cipher: nat
    var bufferSize: int
    var data: Data
    var dataTypes: map<Key, nat>

    /** Every value has the tag it is encoded with, and the kept size is the size of the message. */
    ghost predicate Valid()
      reads this
    {
      && Sound(data)
      && dataTypes == Tags(data)
      && bufferSize == 16 + EntriesSize(data)
    }

    constructor (cipher: nat)
      ensures Valid() && data == map[] && this.cipher == cipher
    {
      this.cipher := cipher;
      bufferSize, data, dataTypes := 16, map[], map[];
    }

    /** Sets a value under a key that has none; otherwise nothing changes. */
    method SetData(key: Key, d: Datum)
      requires Valid() && 0 <= key < Pow256(8) && Good(d)
      modifies this`bufferSize, this`data, this`dataTypes
      ensures Valid() && data == Emplace(old(data), key, d)
    {
      if key in data {
        return;
      }
      EntriesSizeAdd(data, key, d);
      assert Tags(data[key := d]) == Tags(data)[key := Tag(d)];
      data := data[key := d];
      dataTypes := dataTypes[key := Tag(d)];
      bufferSize := bufferSize + EntrySize(d);
    }

    method Clear()
      modifies this`bufferSize, this`data, this`dataTypes
      ensures Valid() && data == map[]
    {
      data, dataTypes, bufferSize := map[], map[], 16;
    }

    /** Lays the message out: cipher, size, and the entries by ascending key. They fill the buffer. */
    method Encode() returns (buffer: array<char>)
      requires Valid()
      ensures fresh(buffer) && buffer[..] == Message(cipher, data)
    {
      EntriesSizeIsLength(data);
      buffer := EncodeData(cipher, bufferSize, data, dataTypes);
    }

    /** Reads a message; the two words of the header, `cipher` and `size`, were received ahead of
        it. Reading goes on while the offset is below `size`, and stops at an unknown tag. A read
        beyond the buffer, which no encoded message leads to, is taken to stop as well. */
    constructor Decode(cipher: nat, size: nat, buffer: seq<char>)
      ensures this.cipher == cipher && bufferSize == size
      ensures Contents(data, dataTypes) == Read(Body(buffer), size - 16, Typed(map[]))
    {
      this.cipher := cipher;
      bufferSize := size;
      data, dataTypes := map[], map[];
      new;
      data, dataTypes := DecodeData(buffer, size);
    }
  }

  /** What follows the cipher and the size. */
  function Body(buffer: seq<char>): seq<char> {
    if |buffer| < 16 then [] else buffer[16..]
  }

  method EncodeData(cipher: nat, size: nat, data: Data, dataTypes: map<Key, nat>) returns (buffer: array<char>)
    requires Sound(data) && dataTypes == Tags(data) && size == 16 + EntriesSize(data) == 16 + |Entries(data)|
    ensures fresh(buffer) && buffer[..] == Message(cipher, data)
  {
    buffer := new char[size];
    ghost var head := LittleEndian(cipher, 8) + LittleEndian(size, 8);
    Put(buffer, 0, LittleEndian(cipher, 8), []);
    assert [] + LittleEndian(cipher, 8) == LittleEndian(cipher, 8);
    Put(buffer, 8, LittleEndian(size, 8), LittleEndian(cipher, 8));
    var offset := 16;
    var rest := data;
    ghost var done: seq<char> := [];
    assert done + Entries(data) == Entries(data);
    while rest != map[]
      invariant Sound(rest) && forall k :: k in rest ==> k in data && data[k] == rest[k]
      invariant done + Entries(rest) == Entries(data)
      invariant offset == 16 + |done| <= size && buffer[..offset] == head + done
      decreases |rest|
    {
      HasLeast(rest);
      var key :| key in rest && forall j :: j in rest ==> key <= j;
      LeastUnique(key, rest);
      offset := EncodeEntry(buffer, offset, dataTypes[key], key, data[key], head + done, Entries(rest - {key}), size);
      TableLayout.Regroup(head, done, Entry(key, data[key]));
      TableLayout.Regroup(done, Entry(key, data[key]), Entries(rest - {key}));
      done := done + Entry(key, data[key]);
      rest := rest - {key};
    }
    assert done + [] == done;
    assert buffer[..offset] == buffer[..];
  }

  method EncodeEntry(buffer: array<char>, start: nat, tag: nat, key: Key, d: Datum, ghost before: seq<char>,
                     ghost rest: seq<char>, ghost size: nat) returns (offset: nat)
    requires 0 <= key && Good(d) && tag == Tag(d)
    requires start + |Entry(key, d)| <= buffer.Length && buffer[..start] == before
    modifies buffer
    ensures offset == start + |Entry(key, d)| && buffer[..offset] == before + Entry(key, d)
  {
    TagsDecide(d);
    offset := start;
    Put(buffer, offset, [tag as char], before);
    offset := offset + 1;
    Put(buffer, offset, LittleEndian(key, 8), before + [tag as char]);
    offset := offset + 8;
    Put(buffer, offset, Payload(d), before + [tag as char] + LittleEndian(key, 8));
    offset := offset + |Payload(d)|;
    TableLayout.Regroup(before + [tag as char], LittleEndian(key, 8), Payload(d));
    TableLayout.Regroup(before, [tag as char], LittleEndian(key, 8) + Payload(d));
    TableLayout.Regroup([tag as char], LittleEndian(key, 8), Payload(d));
  }

  lemma Slices(buffer: seq<char>, offset: nat)
    requires offset + 9 <= |buffer|
    ensures var s := buffer[offset..];
            s[0] == buffer[offset] && s[1..9] == buffer[offset + 1..offset + 9] && s[9..] == buffer[offset + 9..]
  {
  }

  method DecodeEntry(buffer: seq<char>, start: nat) returns (item: Option<Item>)
    requires start <= |buffer|
    ensures item == ReadEntry(buffer[start..])
  {
    var offset := start;
    if |buffer| < offset + 9 {
      return None;
    }
    Slices(buffer, offset);
    var tag := buffer[offset] as int;
    offset := offset + 1;
    var key := Number(buffer[offset..offset + 8]);
    offset := offset + 8;
    match ReadPayload(tag, buffer[offset..]) {
      case None => return None;
      case Some((d, used)) => return Some(Item(key, d, tag, 9 + used));
    }
  }

  method DecodeData(buffer: seq<char>, size: nat) returns (data: Data, dataTypes: map<Key, nat>)
    ensures Contents(data, dataTypes) == Read(Body(buffer), size - 16, Typed(map[]))
  {
    data, dataTypes := map[], map[];
    assert Typed(map[]) == Contents(data, dataTypes);
    if |buffer| >= 16 {
      data, dataTypes := DecodeEntries(buffer, 16, size, Read(Body(buffer), size - 16, Typed(map[])));
    }
  }

  /** What reading on from `offset` gives. */
  ghost predicate Gives(buffer: seq<char>, offset: nat, size: nat, c: Contents, goal: Contents) {
    offset <= |buffer| && Read(buffer[offset..], size - offset, c) == goal
  }

  lemma GivesWhatItHas(buffer: seq<char>, offset: nat, size: nat, c: Contents, goal: Contents)
    requires Gives(buffer, offset, size, c, goal)
    requires size <= offset || ReadEntry(buffer[offset..]).None?
    ensures c == goal
  {
  }

  lemma GivesNext(buffer: seq<char>, offset: nat, size: nat, c: Contents, goal: Contents, item: Item)
    requires Gives(buffer, offset, size, c, goal) && offset < size && ReadEntry(buffer[offset..]) == Some(item)
    ensures Gives(buffer, offset + item.used, size, Both(c, item.key, item.d, item.tag), goal)
  {
    assert buffer[offset..][item.used..] == buffer[offset + item.used..];
  }

  /** Takes in the entry at `offset`, if there is one. */
  method TakeEntry(buffer: seq<char>, offset: nat, size: nat, before: Data, typesBefore: map<Key, nat>, ghost goal: Contents)
    returns (next: nat, data: Data, dataTypes: map<Key, nat>)
    requires offset < size && Gives(buffer, offset, size, Contents(before, typesBefore), goal)
    ensures if next == offset then Contents(data, dataTypes) == goal
            else offset < next <= |buffer| && Gives(buffer, next, size, Contents(data, dataTypes), goal)
  {
    next, data, dataTypes := offset, before, typesBefore;
    var item := DecodeEntry(buffer, offset);
    if item.None? {
      GivesWhatItHas(buffer, offset, size, Contents(before, typesBefore), goal);
    } else {
      GivesNext(buffer, offset, size, Contents(before, typesBefore), goal, item.value);
      data := Emplace(data, item.value.key, item.value.d);
      dataTypes := Emplace(dataTypes, item.value.key, item.value.tag);
      next := offset + item.value.used;
    }
  }

  method DecodeEntries(buffer: seq<char>, start: nat, size: nat, ghost goal: Contents)
    returns (data: Data, dataTypes: map<Key, nat>)
    requires start <= |buffer| && Gives(buffer, start, size, Contents(map[], map[]), goal)
    ensures Contents(data, dataTypes) == goal
  {
    var offset := start;
    data, dataTypes := map[], map[];
    while size > offset
      invariant offset <= |buffer| && Gives(buffer, offset, size, Contents(data, dataTypes), goal)
      decreases |buffer| - offset
    {
      var next;
      next, data, dataTypes := TakeEntry(buffer, offset, size, data, dataTypes, goal);
      if next == offset {
        return;
      }
      offset := next;
    }
    GivesWhatItHas(buffer, offset, size, Contents(data, dataTypes), goal);
  }

  /** A message that goes through its buffer comes back with the same values, tags and size. */
  method Transmit(original: DataObject) returns (received: DataObject)
    requires original.Valid() && original.cipher < Pow256(8) && original.bufferSize < Pow256(8)
    ensures fresh(received)
    ensures received.Valid() && received.cipher == original.cipher && received.data == original.data
    ensures received.dataTypes == original.dataTypes && received.bufferSize == original.bufferSize
  {
    MessageRoundTrip(original.cipher, original.data);
    EntriesSizeIsLength(original.data);
    var buffer := original.Encode();
    received := new DataObject.Decode(Number(buffer[..8]), Number(buffer[8..16]), buffer[..]);
  }

  /** Every encoded table can be nested: its first word is the length it is skipped by. */
  lemma TableNests(types: seq<ColumnType>, rows: seq<TableLayout.Row>)
    requires TableLayout.RowsFit(types, rows) && |TableLayout.EncodeTable(types, rows)| < Pow256(8)
    ensures Good(Nested(TableLayout.EncodeTable(types, rows)))
  {
    TableModel.Header(types, rows);
  }

  /** A table that is sent inside a message under a key of its own arrives whole in a table with the
      same columns, whatever that held before, and so does the rest of the message. */
  method SendTable(message: DataObject, key: Key, original: TableModel.Table, target: TableModel.Table)
    requires message.Valid() && message.cipher < Pow256(8) && 0 <= key < Pow256(8) && key !in message.data
    requires original != target && original.Valid() && target.Valid() && original.types == target.types
    requires message.bufferSize + 9 + original.bufferSize < Pow256(8)
    modifies message, target
    ensures target.Valid() && target.Rows() == old(original.Rows())
    ensures target.rows == original.rows && target.bufferSize == original.bufferSize
    ensures message.Valid()
            && message.data == old(message.data)[key := Nested(TableLayout.EncodeTable(original.types, target.Rows()))]
  {
    ghost var rows := original.Rows();
    TableModel.EncodedSize(original.types, rows);
    TableNests(original.types, rows);
    var bytes := original.Encode();
    ghost var before := message.data;
    EntriesSizeAdd(before, key, Nested(bytes[..]));
    message.SetData(key, Nested(bytes[..]));
    var received := Transmit(message);
    target.Copy(received.data[key].table, rows);
  }
}
