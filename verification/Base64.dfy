/** The alphabet and the groups of Base64 (section 4 of RFC 4648). Characters are ASCII bytes. */
module Base64Groups {
  type Byte = bv8
  type Word = bv32

  const PAD: Byte := 0x3D          // '='
  const NOT_FOUND: Word := 0xFFFF_FFFF  // -1 in 32 bits

  function Low(x: Word): Byte {
    (x & 0xFF) as Byte
  }

  /** The character of six bits: A-Z, a-z, 0-9, + and /. */
  function Symbol(v: Word): Byte {
    if v < 26 then Low(v + 0x41)
    else if v < 52 then Low(v - 26 + 0x61)
    else if v < 62 then Low(v - 52 + 0x30)
    else if v == 62 then 0x2B
    else 0x2F
  }

  /** The six bits of a character. */
  function Lookup(c: Byte): Word {
    if 0x41 <= c <= 0x5A then (c - 0x41) as Word
    else if 0x61 <= c <= 0x7A then (c - 0x61) as Word + 26
    else if 0x30 <= c <= 0x39 then (c - 0x30) as Word + 52
    else if c == 0x2B then 62
    else if c == 0x2F then 63
    else NOT_FOUND
  }

  /** The alphabet: A to Z, a to z and 0 to 9, each in the order of ASCII, then + and /. */
  lemma Alphabet(v: Word)
    ensures Symbol(0) == 65 && Symbol(25) == 90 && Symbol(26) == 97 && Symbol(51) == 122
    ensures Symbol(52) == 48 && Symbol(61) == 57 && Symbol(62) == 43 && Symbol(63) == 47
    ensures v < 61 && v != 25 && v != 51 ==> Symbol(v + 1) == Symbol(v) + 1
  {
  }

  predicate InAlphabet(c: Byte) {
    Lookup(c) != NOT_FOUND
  }

  lemma SymbolLookup(v: Word)
    requires v < 64
    ensures Lookup(Symbol(v)) == v && Symbol(v) != PAD
  {
  }

  lemma LookupSymbol(c: Byte)
    requires InAlphabet(c)
    ensures Lookup(c) < 64 && Symbol(Lookup(c)) == c && c != PAD
  {
  }

  function Triple(a: Byte, b: Byte, c: Byte): Word {
    ((a as Word) << 16) | ((b as Word) << 8) | (c as Word)
  }

  function Sextet(triple: Word, k: nat): Word
    requires k < 4
  {
    match k
    case 0 => (triple >> 18) & 0x3F
    case 1 => (triple >> 12) & 0x3F
    case 2 => (triple >> 6) & 0x3F
    case 3 => triple & 0x3F
  }

  /** The four characters of one, two or three bytes; missing bytes are zero. */
  function Group(a: Byte, b: Byte, c: Byte, rem: nat): (g: seq<Byte>)
    ensures |g| == 4
  {
    var t := Triple(a, b, c);
    [Symbol(Sextet(t, 0)), Symbol(Sextet(t, 1)),
     if rem > 1 then Symbol(Sextet(t, 2)) else PAD,
     if rem > 2 then Symbol(Sextet(t, 3)) else PAD]
  }

  function Join(v1: Word, v2: Word, v3: Word, v4: Word): Word {
    (v1 << 18) | (v2 << 12) | (v3 << 6) | v4
  }

  function Bytes(triple: Word): (r: seq<Byte>)
    ensures |r| == 3
  {
    [Low((triple >> 16) & 0xFF), Low((triple >> 8) & 0xFF), Low(triple & 0xFF)]
  }

  lemma JoinOfTriple(a: Byte, b: Byte, c: Byte)
    ensures var t := Triple(a, b, c);
            && Sextet(t, 0) < 64 && Sextet(t, 1) < 64 && Sextet(t, 2) < 64 && Sextet(t, 3) < 64
            && Join(Sextet(t, 0), Sextet(t, 1), Sextet(t, 2), Sextet(t, 3)) == t
            && Bytes(t)[0] == a && Bytes(t)[1] == b && Bytes(t)[2] == c
            && (c == 0 ==> Sextet(t, 3) == 0)
            && (b == 0 && c == 0 ==> Sextet(t, 2) == 0)
  {
  }

  lemma TripleOfJoin(v1: Word, v2: Word, v3: Word, v4: Word)
    requires v1 < 64 && v2 < 64 && v3 < 64 && v4 < 64
    ensures var t := Join(v1, v2, v3, v4);
            && Triple(Bytes(t)[0], Bytes(t)[1], Bytes(t)[2]) == t
            && Sextet(t, 0) == v1 && Sextet(t, 1) == v2 && Sextet(t, 2) == v3 && Sextet(t, 3) == v4
  {
  }

  /** A padded group: the bytes written for it come back as the same group only if the bits that
      were dropped are zero. */
  lemma TwoBytesOfJoin(v1: Word, v2: Word, v3: Word)
    requires v1 < 64 && v2 < 64 && v3 < 64
    ensures var t := Join(v1, v2, v3, 0);
            var u := Triple(Bytes(t)[0], Bytes(t)[1], 0);
            Sextet(u, 0) == v1 && Sextet(u, 1) == v2 && (Sextet(u, 2) == v3 <==> v3 & 3 == 0)
  {
  }

  lemma OneByteOfJoin(v1: Word, v2: Word)
    requires v1 < 64 && v2 < 64
    ensures var t := Join(v1, v2, 0, 0);
            var u := Triple(Bytes(t)[0], 0, 0);
            Sextet(u, 0) == v1 && (Sextet(u, 1) == v2 <==> v2 & 0x0F == 0)
  {
  }
}

/** Encoding and decoding of whole byte sequences. */
module Base64 {
  import opened Options
  import opened Base64Groups

  function ByteAt(data: seq<Byte>, i: nat): Byte {
    if i < |data| then data[i] else 0
  }

  function FirstGroup(data: seq<Byte>): (g: seq<Byte>)
    requires data != []
    ensures |g| == 4
  {
    Group(data[0], ByteAt(data, 1), ByteAt(data, 2), |data|)
  }

  function Encoded(data: seq<Byte>): seq<Byte> {
    if |data| == 0 then []
    else if |data| <= 3 then FirstGroup(data)
    else FirstGroup(data) + Encoded(data[3..])
  }

  /** The size of the encoding: four characters for every three bytes begun. */
  function EncodedSize(n: nat): nat {
    (n + 2) / 3 * 4
  }

  lemma {:induction false} EncodedLength(data: seq<Byte>)
    ensures |Encoded(data)| == EncodedSize(|data|)
    decreases |data|
  {
    if |data| > 3 {
      EncodedLength(data[3..]);
    }
  }

  function InnerGroup(g: seq<Byte>): Option<seq<Byte>>
    requires |g| == 4
  {
    if InAlphabet(g[0]) && InAlphabet(g[1]) && InAlphabet(g[2]) && InAlphabet(g[3])
    then Some(Bytes(Join(Lookup(g[0]), Lookup(g[1]), Lookup(g[2]), Lookup(g[3]))))
    else None
  }

  /** The last group: of its third and fourth character nothing is asked but whether they pad. */
  function LastGroup(g: seq<Byte>): Option<seq<Byte>>
    requires |g| == 4
  {
    if !InAlphabet(g[0]) || !InAlphabet(g[1]) then None
    else
      var v3 := if g[2] == PAD then 0 else Lookup(g[2]);
      var v4 := if g[3] == PAD then 0 else Lookup(g[3]);
      Some(Bytes(Join(Lookup(g[0]), Lookup(g[1]), v3, v4))[..if g[2] == PAD then 1 else if g[3] == PAD then 2 else 3])
  }

  function Body(s: seq<Byte>): Option<seq<Byte>>
    requires |s| % 4 == 0 && s != []
    decreases |s|
  {
    if |s| == 4 then LastGroup(s)
    else
      match InnerGroup(s[..4])
      case None => None
      case Some(bytes) => Onto(bytes, Body(s[4..]))
  }

  predicate BadPadding(s: seq<Byte>)
    requires |s| >= 2
  {
    s[|s| - 2] == PAD && s[|s| - 1] != PAD
  }

  /** The bytes of a text; none if its size, its padding or one of its characters is refused. */
  function Decoded(s: seq<Byte>): Option<seq<Byte>> {
    if s == [] then Some([])
    else if |s| % 4 != 0 || BadPadding(s) then None
    else Body(s)
  }

  /** The size of the decoding. */
  function DecodedSize(s: seq<Byte>): nat
    requires |s| % 4 == 0
  {
    if s == [] then 0
    else |s| / 4 * 3 - (if s[|s| - 2] == PAD then 1 else 0) - (if s[|s| - 1] == PAD then 1 else 0)
  }

  // ---------------------------------------------------------------- the loops

  lemma EncodedOnward(data: seq<Byte>, index: nat)
    requires index < |data|
    ensures |data| - index <= 3 ==> Encoded(data[index..]) == FirstGroup(data[index..])
    ensures |data| - index > 3 ==> Encoded(data[index..]) == FirstGroup(data[index..]) + Encoded(data[index + 3..])
  {
    if |data| - index > 3 {
      assert data[index..][3..] == data[index + 3..];
    }
  }

  /** Writes a group; what lies from `keep` on stays. */
  method PutGroup(buffer: array<Byte>, at: nat, g: seq<Byte>, ghost before: seq<Byte>, ghost keep: nat)
    requires at + |g| <= keep <= buffer.Length && buffer[..at] == before
    modifies buffer
    ensures buffer[..at + |g|] == before + g && buffer[keep..] == old(buffer[keep..])
  {
    forall i | 0 <= i < |g| {
      buffer[at + i] := g[i];
    }
  }

  /** Writes the encoding to the front of the buffer, if it is large enough, and nothing beyond. */
  method Encode(data: seq<Byte>, buffer: array<Byte>) returns (length: nat)
    modifies buffer
    ensures buffer.Length < EncodedSize(|data|) ==> length == 0 && buffer[..] == old(buffer[..])
    ensures buffer.Length >= EncodedSize(|data|) ==>
              length == EncodedSize(|data|) && buffer[..length] == Encoded(data)
              && buffer[length..] == old(buffer[length..])
  {
    var required := (|data| + 2) / 3 * 4;
    if buffer.Length < required {
      return 0;
    }
    EncodedLength(data);
    length := EncodeGroups(data, buffer, (|data| + 2) / 3);
  }

  /** The characters of the bytes at `index`. */
  method GroupAt(data: seq<Byte>, index: nat) returns (group: seq<Byte>)
    requires index < |data|
    ensures group == FirstGroup(data[index..])
  {
    var rem := |data| - index;
    group := Group(data[index], if rem > 1 then data[index + 1] else 0, if rem > 2 then data[index + 2] else 0, rem);
  }

  /** What is left to encode at `index`. */
  function Rest(data: seq<Byte>, index: nat): seq<Byte> {
    if index < |data| then Encoded(data[index..]) else []
  }

  lemma RestOnward(data: seq<Byte>, index: nat, done: seq<Byte>)
    requires index < |data|
    ensures done + Rest(data, index) == done + FirstGroup(data[index..]) + Rest(data, index + 3)
  {
    EncodedOnward(data, index);
    Associate(done, FirstGroup(data[index..]), Rest(data, index + 3));
  }

  method EncodeGroups(data: seq<Byte>, buffer: array<Byte>, ghost groups: nat) returns (length: nat)
    requires 4 * groups <= buffer.Length && 3 * groups - 3 < |data| <= 3 * groups
    modifies buffer
    ensures length == 4 * groups && buffer[..length] == Encoded(data) && buffer[length..] == old(buffer[length..])
  {
    ghost var start, done := buffer[4 * groups..], [];
    length := 0;
    var index := 0;
    ghost var k := 0;
    assert data[0..] == data && [] + Encoded(data) == Encoded(data);
    while index < |data|
      invariant k <= groups && index == 3 * k && length == 4 * k
      invariant buffer[..length] == done && buffer[4 * groups..] == start
      invariant done + Rest(data, index) == Encoded(data)
      decreases |data| - index
    {
      var group := GroupAt(data, index);
      RestOnward(data, index, done);
      PutGroup(buffer, length, group, done, 4 * groups);
      done := done + group;
      length := length + 4;
      index := index + 3;
      k := k + 1;
    }
    assert done + [] == done;
  }

  lemma Associate(a: seq<Byte>, b: seq<Byte>, c: seq<Byte>)
    ensures a + b + c == a + (b + c)
    ensures b + [] == b
  {
  }

  lemma LastGroupLength(s: seq<Byte>)
    requires |s| >= 4 && |s| % 4 == 0 && !BadPadding(s)
    ensures var last := s[|s| - 4..];
            LastGroup(last).Some? ==> |LastGroup(last).value| == DecodedSize(s) - (|s| / 4 - 1) * 3
    ensures (|s| / 4 - 1) * 3 < DecodedSize(s)
  {
    var last := s[|s| - 4..];
    assert last[2] == s[|s| - 2] && last[3] == s[|s| - 1];
  }

  lemma BodyOnward(s: seq<Byte>, index: nat)
    requires |s| % 4 == 0 && index % 4 == 0 && index < |s|
    ensures index + 4 == |s| ==> Body(s[index..]) == LastGroup(s[index..])
    ensures index + 4 < |s| ==>
              InnerGroup(s[index..index + 4]).None? ==> Body(s[index..]).None?
    ensures index + 4 < |s| ==>
              InnerGroup(s[index..index + 4]).Some? ==>
                Body(s[index..]) == Onto(InnerGroup(s[index..index + 4]).value, Body(s[index + 4..]))
  {
    if index + 4 < |s| {
      assert s[index..][..4] == s[index..index + 4] && s[index..][4..] == s[index + 4..];
    }
  }

  lemma OntoOnto(a: seq<Byte>, b: seq<Byte>, rest: Option<seq<Byte>>)
    ensures Onto(a, Onto(b, rest)) == Onto(a + b, rest)
  {
    if rest.Some? {
      assert a + b + rest.value == a + (b + rest.value);
    }
  }

  predicate Accepted(s: seq<Byte>, room: nat) {
    s != [] && |s| % 4 == 0 && !BadPadding(s) && DecodedSize(s) <= room
  }

  /** Writes the decoding to the front of the buffer and nothing beyond its size. */
  method Decode(data: seq<Byte>, buffer: array<Byte>) returns (length: nat)
    modifies buffer
    ensures !Accepted(data, buffer.Length) ==> length == 0 && buffer[..] == old(buffer[..])
    ensures Accepted(data, buffer.Length) ==>
              && buffer[DecodedSize(data)..] == old(buffer[DecodedSize(data)..])
              && (Decoded(data).None? ==> length == 0)
              && (Decoded(data).Some? ==> length == DecodedSize(data) && buffer[..length] == Decoded(data).value)
  {
    if data == [] || |data| % 4 != 0 || BadPadding(data) || buffer.Length < DecodedSize(data) {
      return 0;
    }
    ghost var required := DecodedSize(data);
    LastGroupLength(data);
    var lastIndex := |data| - 4;
    ghost var groups := lastIndex / 4;
    assert data[0..] == data;
    var ok, written := DecodeInner(data, buffer, groups, Bodies(data), required);
    if !ok {
      return 0;
    }
    BodyOnward(data, lastIndex);
    var last := LastGroup(data[lastIndex..]);
    if last.None? {
      return 0;
    }
    PutGroup(buffer, written, last.value, buffer[..written], required);
    length := written + |last.value|;
  }

  lemma BodyStep(data: seq<Byte>, index: nat, done: seq<Byte>, group: Option<seq<Byte>>)
    requires |data| % 4 == 0 && index % 4 == 0 && index + 4 < |data| && group == InnerGroup(data[index..index + 4])
    ensures group.None? ==> Onto(done, Body(data[index..])).None?
    ensures group.Some? ==> Onto(done, Body(data[index..])) == Onto(done + group.value, Body(data[index + 4..]))
    ensures group.Some? ==> |group.value| == 3
  {
    BodyOnward(data, index);
    if group.Some? {
      OntoOnto(done, group.value, Body(data[index + 4..]));
    }
  }

  /** The bytes of the group at `index`, and what they are to the whole. */
  method ReadGroup(data: seq<Byte>, index: nat, ghost done: seq<Byte>) returns (group: Option<seq<Byte>>)
    requires |data| % 4 == 0 && index % 4 == 0 && index + 4 < |data|
    ensures group.None? ==> Onto(done, Body(data[index..])).None?
    ensures group.Some? ==> |group.value| == 3
    ensures group.Some? ==> Onto(done, Body(data[index..])) == Onto(done + group.value, Body(data[index + 4..]))
  {
    group := InnerGroup(data[index..index + 4]);
    BodyStep(data, index, done, group);
  }

  /** What the text from each group on decodes to. */
  ghost function Bodies(data: seq<Byte>): (r: seq<Option<seq<Byte>>>)
    requires |data| % 4 == 0
    ensures |r| == |data| / 4
  {
    seq(|data| / 4, k requires 0 <= k < |data| / 4 => Body(data[4 * k..]))
  }

  /** The bytes of group `k`, and what they are to the whole. */
  method NextGroup(data: seq<Byte>, index: nat, ghost k: nat, ghost bodies: seq<Option<seq<Byte>>>, ghost done: seq<Byte>)
    returns (group: Option<seq<Byte>>)
    requires |data| % 4 == 0 && index == 4 * k && index + 4 < |data| && bodies == Bodies(data)
    ensures k + 1 < |bodies|
    ensures group.None? ==> Onto(done, bodies[k]).None?
    ensures group.Some? ==> |group.value| == 3 && Onto(done, bodies[k]) == Onto(done + group.value, bodies[k + 1])
  {
    group := ReadGroup(data, index, done);
  }

  /** The groups before the last one. */
  method DecodeInner(data: seq<Byte>, buffer: array<Byte>, ghost groups: nat, ghost bodies: seq<Option<seq<Byte>>>, ghost required: nat)
    returns (ok: bool, length: nat)
    requires |data| == 4 * groups + 4 && 3 * groups <= required <= buffer.Length && bodies == Bodies(data)
    modifies buffer
    ensures buffer[required..] == old(buffer[required..])
    ensures !ok ==> bodies[0].None?
    ensures ok ==> length == 3 * groups && bodies[0] == Onto(buffer[..length], bodies[groups])
  {
    var lastIndex := |data| - 4;
    ghost var start, done, k := buffer[required..], [], 0;
    length := 0;
    var index := 0;
    OntoNothing(bodies[0]);
    while index < lastIndex
      invariant k <= groups && index == 4 * k && length == 3 * k
      invariant buffer[..length] == done && buffer[required..] == start
      invariant Onto(done, bodies[k]) == bodies[0]
    {
      var group := NextGroup(data, index, k, bodies, done);
      if group.None? {
        return false, length;
      }
      PutGroup(buffer, length, group.value, done, required);
      done := done + group.value;
      length := length + 3;
      index := index + 4;
      k := k + 1;
    }
    ok := true;
  }

  // ---------------------------------------------------------------- there and back

  /** A group of three bytes is read back. */
  lemma GroupReads(a: Byte, b: Byte, c: Byte)
    ensures InnerGroup(Group(a, b, c, 3)) == Some([a, b, c])
    ensures LastGroup(Group(a, b, c, 3)) == Some([a, b, c])
  {
    var t := Triple(a, b, c);
    JoinOfTriple(a, b, c);
    SymbolLookup(Sextet(t, 0));
    SymbolLookup(Sextet(t, 1));
    SymbolLookup(Sextet(t, 2));
    SymbolLookup(Sextet(t, 3));
    assert Bytes(t) == [a, b, c] && Bytes(t)[..3] == Bytes(t);
  }

  lemma PaddedGroupReads(a: Byte, b: Byte)
    ensures LastGroup(Group(a, b, 0, 2)) == Some([a, b])
    ensures LastGroup(Group(a, 0, 0, 1)) == Some([a])
  {
    JoinOfTriple(a, b, 0);
    JoinOfTriple(a, 0, 0);
    var t, u := Triple(a, b, 0), Triple(a, 0, 0);
    SymbolLookup(Sextet(t, 0));
    SymbolLookup(Sextet(t, 1));
    SymbolLookup(Sextet(t, 2));
    SymbolLookup(Sextet(u, 0));
    SymbolLookup(Sextet(u, 1));
    assert Bytes(t)[..2] == [a, b] && Bytes(u)[..1] == [a];
  }

  lemma LastReads(data: seq<Byte>)
    requires 1 <= |data| <= 3
    ensures LastGroup(FirstGroup(data)) == Some(data)
  {
    if |data| == 3 {
      GroupReads(data[0], data[1], data[2]);
      assert data == [data[0], data[1], data[2]];
    } else if |data| == 2 {
      PaddedGroupReads(data[0], data[1]);
      assert data == [data[0], data[1]];
    } else {
      PaddedGroupReads(data[0], 0);
      assert data == [data[0]];
    }
  }

  lemma GroupPadding(data: seq<Byte>)
    requires data != []
    ensures !BadPadding(FirstGroup(data))
  {
    var t := Triple(data[0], ByteAt(data, 1), ByteAt(data, 2));
    JoinOfTriple(data[0], ByteAt(data, 1), ByteAt(data, 2));
    SymbolLookup(Sextet(t, 2));
    SymbolLookup(Sextet(t, 3));
  }

  lemma BodyCons(g: seq<Byte>, rest: seq<Byte>, bytes: seq<Byte>)
    requires |g| == 4 && |rest| % 4 == 0 && rest != [] && InnerGroup(g) == Some(bytes)
    ensures |g + rest| % 4 == 0 && Body(g + rest) == Onto(bytes, Body(rest))
    ensures BadPadding(g + rest) <==> BadPadding(rest)
  {
    assert (g + rest)[..4] == g && (g + rest)[4..] == rest;
  }

  lemma ThreeFirst(data: seq<Byte>)
    requires |data| > 3
    ensures InnerGroup(FirstGroup(data)) == Some(data[..3]) && Onto(data[..3], Some(data[3..])) == Some(data)
  {
    GroupReads(data[0], data[1], data[2]);
    assert data[..3] == [data[0], data[1], data[2]] && data[..3] + data[3..] == data;
  }

  lemma {:induction false} BodyReads(data: seq<Byte>)
    requires data != []
    ensures |Encoded(data)| % 4 == 0 && |Encoded(data)| >= 4 && !BadPadding(Encoded(data))
    ensures Body(Encoded(data)) == Some(data)
    decreases |data|
  {
    if |data| <= 3 {
      GroupPadding(data);
      LastReads(data);
    } else {
      BodyReads(data[3..]);
      ThreeFirst(data);
      BodyCons(FirstGroup(data), Encoded(data[3..]), data[..3]);
    }
  }

  /** Every byte sequence is decoded from its encoding. */
  lemma DecodesEncoded(data: seq<Byte>)
    ensures Decoded(Encoded(data)) == Some(data)
  {
    if data != [] {
      BodyReads(data);
    }
  }

  /** A text that is an encoding: groups of the alphabet, the last one possibly padded, and then
      without bits that no byte holds. */
  predicate Canonical(s: seq<Byte>)
    decreases |s|
  {
    if s == [] then true
    else if |s| < 4 then false
    else if |s| == 4 then CanonicalLast(s[0], s[1], s[2], s[3])
    else InAlphabet(s[0]) && InAlphabet(s[1]) && InAlphabet(s[2]) && InAlphabet(s[3]) && Canonical(s[4..])
  }

  predicate CanonicalLast(a: Byte, b: Byte, c: Byte, d: Byte) {
    && InAlphabet(a) && InAlphabet(b)
    && if c == PAD then d == PAD && Lookup(b) & 0x0F == 0
       else InAlphabet(c) && if d == PAD then Lookup(c) & 3 == 0 else InAlphabet(d)
  }

  /** Encoding what was decoded. */
  function Reencoded(s: seq<Byte>): Option<seq<Byte>> {
    match Decoded(s)
    case None => None
    case Some(data) => Some(Encoded(data))
  }

  lemma SymbolIs(v: Word, c: Byte)
    requires v < 64
    ensures Symbol(v) == c <==> InAlphabet(c) && Lookup(c) == v
    ensures Symbol(v) != PAD
  {
    SymbolLookup(v);
    if InAlphabet(c) {
      LookupSymbol(c);
    }
  }

  /** Which group the bytes of a group without padding are encoded as. */
  lemma FullGroup(a: Byte, b: Byte, c: Byte, d: Byte)
    requires InAlphabet(a) && InAlphabet(b)
    ensures var t := Bytes(Join(Lookup(a), Lookup(b), Lookup(c), Lookup(d)));
            Group(t[0], t[1], t[2], 3) == [a, b, c, d] <==> InAlphabet(c) && InAlphabet(d)
  {
    var t := Bytes(Join(Lookup(a), Lookup(b), Lookup(c), Lookup(d)));
    var u := Triple(t[0], t[1], t[2]);
    JoinOfTriple(t[0], t[1], t[2]);
    SymbolIs(Sextet(u, 0), a);
    SymbolIs(Sextet(u, 1), b);
    SymbolIs(Sextet(u, 2), c);
    SymbolIs(Sextet(u, 3), d);
    if InAlphabet(c) && InAlphabet(d) {
      LookupSymbol(a);
      LookupSymbol(b);
      LookupSymbol(c);
      LookupSymbol(d);
      TripleOfJoin(Lookup(a), Lookup(b), Lookup(c), Lookup(d));
    }
  }

  lemma TwoByteGroup(a: Byte, b: Byte, c: Byte)
    requires InAlphabet(a) && InAlphabet(b)
    ensures var t := Bytes(Join(Lookup(a), Lookup(b), Lookup(c), 0));
            Group(t[0], t[1], 0, 2) == [a, b, c, PAD] <==> InAlphabet(c) && Lookup(c) & 3 == 0
  {
    var t := Bytes(Join(Lookup(a), Lookup(b), Lookup(c), 0));
    var u := Triple(t[0], t[1], 0);
    JoinOfTriple(t[0], t[1], 0);
    SymbolIs(Sextet(u, 0), a);
    SymbolIs(Sextet(u, 1), b);
    SymbolIs(Sextet(u, 2), c);
    if InAlphabet(c) {
      LookupSymbol(a);
      LookupSymbol(b);
      LookupSymbol(c);
      TwoBytesOfJoin(Lookup(a), Lookup(b), Lookup(c));
    }
  }

  lemma OneByteGroup(a: Byte, b: Byte)
    requires InAlphabet(a) && InAlphabet(b)
    ensures var t := Bytes(Join(Lookup(a), Lookup(b), 0, 0));
            Group(t[0], 0, 0, 1) == [a, b, PAD, PAD] <==> Lookup(b) & 0x0F == 0
  {
    var t := Bytes(Join(Lookup(a), Lookup(b), 0, 0));
    var u := Triple(t[0], 0, 0);
    JoinOfTriple(t[0], 0, 0);
    SymbolIs(Sextet(u, 0), a);
    SymbolIs(Sextet(u, 1), b);
    LookupSymbol(a);
    LookupSymbol(b);
    OneByteOfJoin(Lookup(a), Lookup(b));
  }

  /** The last group is what its bytes are encoded as exactly if it is canonical. */
  lemma LastComesBack(s: seq<Byte>)
    requires |s| == 4 && !BadPadding(s) && LastGroup(s).Some?
    ensures Encoded(LastGroup(s).value) == s <==> CanonicalLast(s[0], s[1], s[2], s[3])
  {
    var data := LastGroup(s).value;
    assert s == [s[0], s[1], s[2], s[3]];
    if s[2] == PAD {
      OneByteGroup(s[0], s[1]);
      assert data == [data[0]];
    } else if s[3] == PAD {
      TwoByteGroup(s[0], s[1], s[2]);
      assert data == [data[0], data[1]];
    } else {
      FullGroup(s[0], s[1], s[2], s[3]);
      assert data == [data[0], data[1], data[2]];
    }
  }

  lemma InnerComesBack(g: seq<Byte>, rest: seq<Byte>)
    requires |g| == 4 && InnerGroup(g).Some? && rest != []
    ensures Encoded(InnerGroup(g).value + rest) == g + Encoded(rest)
  {
    var bytes := InnerGroup(g).value;
    var data := bytes + rest;
    FullGroup(g[0], g[1], g[2], g[3]);
    assert data[3..] == rest && g == [g[0], g[1], g[2], g[3]];
  }

  lemma {:induction false} CanonicalShape(s: seq<Byte>)
    requires Canonical(s) && s != []
    ensures |s| % 4 == 0 && !BadPadding(s)
    decreases |s|
  {
    if |s| > 4 {
      CanonicalNotEmpty(s);
      CanonicalShape(s[4..]);
    }
  }

  lemma CanonicalNotEmpty(s: seq<Byte>)
    requires Canonical(s) && |s| > 4
    ensures s[4..] != [] && Canonical(s[4..])
  {
  }

  lemma {:induction false} BodyComesBack(s: seq<Byte>)
    requires s != [] && |s| % 4 == 0 && !BadPadding(s)
    ensures Body(s).Some? ==> Body(s).value != []
    ensures Body(s).Some? && Encoded(Body(s).value) == s <==> Canonical(s)
    decreases |s|
  {
    if |s| == 4 {
      if LastGroup(s).Some? {
        LastComesBack(s);
      }
    } else {
      var g, rest := s[..4], s[4..];
      assert s == g + rest;
      BodyComesBack(rest);
      if InnerGroup(g).Some? && Body(rest).Some? {
        InnerComesBack(g, Body(rest).value);
        assert g + Encoded(Body(rest).value) == g + rest ==> Encoded(Body(rest).value) == rest by {
          assert (g + Encoded(Body(rest).value))[4..] == Encoded(Body(rest).value) && (g + rest)[4..] == rest;
        }
      }
    }
  }

  /** The texts that come back from what they decode to are the canonical ones, and no others. */
  lemma CanonicalComesBack(s: seq<Byte>)
    ensures Reencoded(s) == Some(s) <==> Canonical(s)
  {
    if s != [] {
      if Canonical(s) {
        CanonicalShape(s);
      }
      if |s| % 4 == 0 && !BadPadding(s) {
        BodyComesBack(s);
      }
    }
  }

  /** Characters outside the alphabet are refused everywhere but in the last two places. */
  lemma {:induction false} BodyAccepts(s: seq<Byte>)
    requires s != [] && |s| % 4 == 0
    ensures Body(s).Some? <==> forall i :: 0 <= i < |s| - 2 ==> InAlphabet(s[i])
    decreases |s|
  {
    if |s| > 4 {
      BodyAccepts(s[4..]);
      assert forall i :: 0 <= i < |s| - 6 ==> s[4..][i] == s[i + 4];
      assert (forall i :: 0 <= i < |s| - 2 ==> InAlphabet(s[i]))
             <==> (forall i :: 0 <= i < 4 ==> InAlphabet(s[i])) && (forall i :: 0 <= i < |s| - 6 ==> InAlphabet(s[4..][i])) by {
        assert forall i :: 4 <= i < |s| - 2 ==> s[i] == s[4..][i - 4];
      }
    }
  }

  /** What is decoded at all: sizes in fours, no pad before a character that is none, and the
      alphabet everywhere but in the last two places, where any character is let through. */
  lemma DecodesExactly(s: seq<Byte>)
    ensures Decoded(s).Some?
            <==> s == [] || (|s| % 4 == 0 && !BadPadding(s) && forall i :: 0 <= i < |s| - 2 ==> InAlphabet(s[i]))
  {
    if s != [] && |s| % 4 == 0 {
      BodyAccepts(s);
    }
  }

  /** Test vectors of section 10 of RFC 4648: f, fo, foo. */
  lemma TestVectors()
    ensures Encoded([0x66]) == [0x5A, 0x67, 0x3D, 0x3D]
    ensures Encoded([0x66, 0x6F]) == [0x5A, 0x6D, 0x38, 0x3D]
    ensures Encoded([0x66, 0x6F, 0x6F]) == [0x5A, 0x6D, 0x39, 0x76]
  {
  }
}
