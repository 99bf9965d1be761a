/** Single tokens: numbers of every form, literals, and what is taken for none. */
module JsonTokens {
  import opened Options
  import opened JsonText
  import opened JsonParser
  import opened JsonRoundTrip

  predicate AllDigits(s: string) {
    forall i :: 0 <= i < |s| ==> '0' <= s[i] <= '9'
  }

  // ---------------------------------------------------------------- numbers

  /** The text of a number behind its sign: digits, and perhaps a dot with digits behind it and an
      exponent. */
  datatype NumberText = NumberText(whole: string, fraction: Option<string>, exponent: Option<string>)

  predicate Proper(n: NumberText) {
    && n.whole != "" && AllDigits(n.whole)
    && (n.fraction.Some? ==> AllDigits(n.fraction.value))
    && (n.exponent.Some? ==>
          forall i :: 0 <= i < |n.exponent.value| ==>
            '0' <= n.exponent.value[i] <= '9' || n.exponent.value[i] == '+' || n.exponent.value[i] == '-')
  }

  function Point(n: NumberText): string {
    if n.fraction.Some? then "." + n.fraction.value else ""
  }

  function Mantissa(n: NumberText): string {
    n.whole + Point(n)
  }

  function Exponent(n: NumberText): string {
    if n.exponent.Some? then "e" + n.exponent.value else ""
  }

  /** What a number is read as: a float is kept as its text, an integer has to fit in 64 bits. */
  function Meaning(n: NumberText, negative: bool): Option<Node> {
    if n.fraction.Some? || n.exponent.Some? then
      Some(Float((if negative then "-" else "") + Mantissa(n), Exponent(n)))
    else if negative then
      if Decimal(n.whole) <= 9223372036854775808 then Some(Int(-Decimal(n.whole))) else None
    else if Decimal(n.whole) <= 18446744073709551615 then Some(UInt(Decimal(n.whole)))
    else None
  }

  lemma {:induction false} PassesDigits(digits: string, r: string, value: string, dot: bool, negative: bool)
    requires AllDigits(digits) && value != ""
    ensures ScanNumber(digits + r, value, dot, negative) == ScanNumber(r, value + digits, dot, negative)
    decreases |digits|
  {
    var s := digits + r;
    if digits == "" {
      assert s == r && value + digits == value;
    } else {
      assert s[1..] == digits[1..] + r;
      PassesDigits(digits[1..], r, value + [digits[0]], dot, negative);
      assert value + [digits[0]] + digits[1..] == value + digits;
    }
  }

  lemma {:induction false} PassesExponent(e: string, r: string, value: string, dot: bool, before: string, negative: bool)
    requires forall i :: 0 <= i < |e| ==> '0' <= e[i] <= '9' || e[i] == '+' || e[i] == '-'
    requires value != "" && EndsNumber(r)
    ensures ScanExponent(e + r, value, dot, before, negative) == FinishNumber(r, value, dot, before + e, negative)
    decreases |e|
  {
    var s := e + r;
    if e == "" {
      assert s == r && before + e == before;
    } else {
      assert s[1..] == e[1..] + r;
      PassesExponent(e[1..], r, value, dot, before + [e[0]], negative);
      assert before + [e[0]] + e[1..] == before + e;
    }
  }

  lemma PassesFraction(f: string, r: string, value: string, negative: bool)
    requires AllDigits(f) && value != ""
    ensures ScanNumber("." + (f + r), value, false, negative) == ScanNumber(r, value + ("." + f), true, negative)
  {
    assert ("." + (f + r))[1..] == f + r;
    PassesDigits(f, r, value + ".", true, negative);
    assert value + "." + f == value + ("." + f);
  }

  lemma EndsScan(n: NumberText, r: string, value: string, dot: bool, negative: bool)
    requires Proper(n) && value != "" && EndsNumber(r)
    ensures ScanNumber(Exponent(n) + r, value, dot, negative) == FinishNumber(r, value, dot, Exponent(n), negative)
  {
    if n.exponent.Some? {
      var e := n.exponent.value;
      assert ("e" + e + r)[1..] == e + r && ("e" + e + r)[0] == 'e';
      PassesExponent(e, r, value, dot, "e", negative);
    } else {
      assert "" + r == r;
    }
  }

  lemma PassesPoint(n: NumberText, r: string, value: string, negative: bool)
    requires Proper(n) && value != ""
    ensures ScanNumber(Point(n) + r, value, false, negative) == ScanNumber(r, value + Point(n), n.fraction.Some?, negative)
  {
    if n.fraction.Some? {
      PassesFraction(n.fraction.value, r, value, negative);
      assert Point(n) + r == "." + (n.fraction.value + r);
    } else {
      assert Point(n) + r == r && value + Point(n) == value;
    }
  }

  /** The rest of a number from its second digit on, whatever its form. */
  lemma ScansRest(n: NumberText, digits: string, r: string, value: string, negative: bool)
    requires Proper(n) && AllDigits(digits) && value != "" && EndsNumber(r)
    ensures ScanNumber(digits + (Point(n) + (Exponent(n) + r)), value, false, negative)
            == FinishNumber(r, (value + digits) + Point(n), n.fraction.Some?, Exponent(n), negative)
  {
    PassesDigits(digits, Point(n) + (Exponent(n) + r), value, false, negative);
    PassesPoint(n, Exponent(n) + r, value + digits, negative);
    EndsScan(n, r, (value + digits) + Point(n), n.fraction.Some?, negative);
  }

  /** The scan of a whole number is its meaning; beyond 64 bits it is refused. */
  function Scanned(n: NumberText, r: string, negative: bool): NumberScan
    requires r != ""
  {
    match Meaning(n, negative)
    case None => Malformed
    case Some(node) => Finished(node, r[1..])
  }

  lemma ConvertMeans(n: NumberText, negative: bool)
    requires Proper(n)
    ensures var sign := if negative then "-" else "";
            Convert(sign + Mantissa(n), n.fraction.Some?, Exponent(n), negative) == Meaning(n, negative)
  {
    MantissaWhole(n);
    Prefixed("-", Mantissa(n));
    NotNegative(n.whole);
  }

  lemma MantissaWhole(n: NumberText)
    ensures n.fraction.None? ==> Mantissa(n) == n.whole
  {
    assert n.whole + "" == n.whole;
  }

  lemma Prefixed(sign: string, digits: string)
    requires |sign| == 1
    ensures (sign + digits)[1..] == digits && "" + digits == digits
  {
  }

  lemma {:induction false} NotNegative(s: string)
    requires AllDigits(s)
    ensures Decimal(s) >= 0
  {
    if s != "" {
      NotNegative(s[..|s| - 1]);
    }
  }

  lemma Unsigned(n: NumberText, r: string)
    requires Proper(n) && EndsNumber(r)
    ensures var s := Mantissa(n) + (Exponent(n) + r);
            s != "" && IsDigit(s[0]) && ScanNumber(s[1..], s[..1], false, false) == Scanned(n, r, false)
  {
    var s := Mantissa(n) + (Exponent(n) + r);
    assert s[1..] == n.whole[1..] + (Point(n) + (Exponent(n) + r)) && s[..1] + n.whole[1..] == n.whole;
    ScansRest(n, n.whole[1..], r, s[..1], false);
    ConvertMeans(n, false);
    assert "" + Mantissa(n) == Mantissa(n);
  }

  lemma Signed(n: NumberText, r: string)
    requires Proper(n) && EndsNumber(r)
    ensures var s := "-" + (Mantissa(n) + (Exponent(n) + r));
            && |s| >= 3 && s[0] == '-' && IsDigit(s[1])
            && ScanNumber(s[2..], s[..2], false, true) == Scanned(n, r, true)
  {
    var s := "-" + (Mantissa(n) + (Exponent(n) + r));
    SignedParts(n.whole, Point(n), Exponent(n) + r);
    ScansRest(n, n.whole[1..], r, s[..2], true);
    ConvertMeans(n, true);
  }

  lemma SignedParts(whole: string, point: string, tail: string)
    requires whole != ""
    ensures var s := "-" + ((whole + point) + tail);
            && |s| >= 2 && s[0] == '-' && s[1] == whole[0]
            && s[2..] == whole[1..] + (point + tail) && (s[..2] + whole[1..]) + point == "-" + (whole + point)
  {
    var s := "-" + ((whole + point) + tail);
    assert s[..2] + whole[1..] == "-" + whole;
  }

  /** A number as the value of a member: stored by its meaning, with the character behind it
      consumed; if it has none, the object is given up. */
  lemma ReadsAnyNumber(n: NumberText, negative: bool, r: string, key: string, members: seq<Member>)
    requires Proper(n) && EndsNumber(r)
    ensures ObjectLoop((if negative then "-" else "") + (Mantissa(n) + (Exponent(n) + r)), ValueState(key, members))
            == var v := Meaning(n, negative);
               if v.None? then Object(false, members)
               else ObjectLoop(r[1..], KeyState(Emplace(members, Member(key, v.value))))
  {
    var st, digits := ValueState(key, members), Mantissa(n) + (Exponent(n) + r);
    if negative {
      Signed(n, r);
      NumberStepped("-" + digits, st, Scanned(n, r, true));
    } else {
      Unsigned(n, r);
      assert "" + digits == digits;
      NumberStepped(digits, st, Scanned(n, r, false));
    }
  }

  lemma NumberStepped(s: string, st: ObjectState, scan: NumberScan)
    requires !st.isKey && !st.quoted && st.value == "" && s != "" && scan != Unfinished
    requires (|s| >= 2 && s[0] == '-' && IsDigit(s[1]) && ScanNumber(s[2..], s[..2], false, true) == scan)
             || (IsDigit(s[0]) && ScanNumber(s[1..], s[..1], false, false) == scan)
    ensures ObjectLoop(s, st)
            == if scan.Finished? then ObjectLoop(scan.rest, Store(st, scan.node)) else Object(false, st.members)
  {
    assert "" + [s[0]] == s[..1];
    assert |s| >= 2 ==> "" + s[..2] == s[..2];
    assert StepObject(s, st) == NumberStep(scan, st);
  }

  /** The same for an item. */
  lemma ReadsAnyItemNumber(n: NumberText, negative: bool, r: string, items: seq<Node>)
    requires Proper(n) && EndsNumber(r)
    ensures ArrayLoop((if negative then "-" else "") + (Mantissa(n) + (Exponent(n) + r)), ArrayState(false, "", items))
            == var v := Meaning(n, negative);
               if v.None? then Invalid else ArrayLoop(r[1..], ArrayState(false, "", items + [v.value]))
  {
    var st, digits := ArrayState(false, "", items), Mantissa(n) + (Exponent(n) + r);
    if negative {
      Signed(n, r);
      ItemStepped("-" + digits, st, Scanned(n, r, true));
    } else {
      Unsigned(n, r);
      assert "" + digits == digits && |digits| > 1;
      ItemStepped(digits, st, Scanned(n, r, false));
    }
  }

  lemma ItemStepped(s: string, st: ArrayState, scan: NumberScan)
    requires !st.quoted && st.value == "" && |s| > 1 && scan != Unfinished
    requires (|s| >= 3 && s[0] == '-' && IsDigit(s[1]) && ScanNumber(s[2..], s[..2], false, true) == scan)
             || (IsDigit(s[0]) && ScanNumber(s[1..], s[..1], false, false) == scan)
    ensures ArrayLoop(s, st)
            == if scan.Finished? then ArrayLoop(scan.rest, Append(st, scan.node)) else Invalid
  {
    assert "" + [s[0]] == s[..1];
    assert |s| >= 2 ==> "" + s[..2] == s[..2];
    assert StepArray(s, st) == ArrayNumberStep(scan, st);
  }

  /** A second dot, a sign without a digit, and a number that the text breaks off in are refused. */
  lemma NoNumber(value: string, r: string, members: seq<Member>, key: string, negative: bool)
    requires value != ""
    ensures ScanNumber("." + r, value, true, negative) == Malformed
    ensures ScanNumber("", value, true, negative) == ScanNumber("", value, false, negative) == Unfinished
    ensures r == "" || !('0' <= r[0] <= '9') ==> ObjectLoop("-" + r, ValueState(key, members)) == Object(false, members)
  {
    assert r != "" ==> ("-" + r)[1] == r[0];
    assert ("." + r)[0] == '.';
  }

  lemma {:induction false} BreaksOff(digits: string, value: string, negative: bool)
    requires AllDigits(digits) && value != ""
    ensures ScanNumber(digits, value, false, negative) == Unfinished
    decreases |digits|
  {
    if digits != "" {
      BreaksOff(digits[1..], value + [digits[0]], negative);
    }
  }

  /** A number that the text ends in is not stored, and the object is not valid. */
  lemma UnfinishedNumber(digits: string, negative: bool, key: string, members: seq<Member>)
    requires AllDigits(digits) && digits != ""
    ensures ObjectLoop((if negative then "-" else "") + digits, ValueState(key, members)) == Object(false, members)
  {
    var st := ValueState(key, members);
    BreaksOff(digits[1..], "" + [digits[0]], false);
    if negative {
      var s := "-" + digits;
      assert s[2..] == digits[1..];
      BreaksOff(digits[1..], "" + s[..2], true);
      assert StepObject(s, st) == NumberStep(Unfinished, st);
    } else {
      assert "" + digits == digits;
      assert StepObject(digits, st) == NumberStep(Unfinished, st);
    }
  }

  // ---------------------------------------------------------------- literals

  lemma ReadsLiteral(r: string, key: string, members: seq<Member>)
    ensures ObjectLoop("true" + r, ValueState(key, members)) == ObjectLoop(r, KeyState(Emplace(members, Member(key, Bool(true)))))
    ensures ObjectLoop("false" + r, ValueState(key, members)) == ObjectLoop(r, KeyState(Emplace(members, Member(key, Bool(false)))))
    ensures ObjectLoop("null" + r, ValueState(key, members)) == ObjectLoop(r, KeyState(Emplace(members, Member(key, Null))))
  {
    var st := ValueState(key, members);
    assert ("true" + r)[..4] == "true" && ("true" + r)[4..] == r;
    Advance("true" + r, st, r, Store(st, Bool(true)));
    assert ("false" + r)[..5] == "false" && ("false" + r)[5..] == r && ("false" + r)[..4] != "true";
    Advance("false" + r, st, r, Store(st, Bool(false)));
    assert ("null" + r)[..4] == "null" && ("null" + r)[4..] == r;
    Advance("null" + r, st, r, Store(st, Null));
  }

  // ---------------------------------------------------------------- what stops the reader

  /** Between members, blanks, commas and brackets are passed over, a quote starts a key, and
      anything else ends the reading: the object is not valid. */
  lemma BetweenMembers(c: char, r: string, members: seq<Member>)
    ensures c in " \n\t,{}[]" ==> ObjectLoop([c] + r, KeyState(members)) == ObjectLoop(r, KeyState(members))
    ensures c == '"' ==> ObjectLoop([c] + r, KeyState(members)) == ObjectLoop(r, ObjectState(true, true, "", "", members))
    ensures c !in " \n\t,{}[]\"" ==> ObjectLoop([c] + r, KeyState(members)) == Object(false, members)
  {
    assert ([c] + r)[1..] == r;
  }

  /** In front of a value, blanks, commas and colons are passed over and a quote starts a string. A
      character that no value starts with ends the reading, and so does a bracket that closes. */
  lemma BeforeValue(c: char, r: string, key: string, members: seq<Member>)
    ensures c in " \n\t,:" ==> ObjectLoop([c] + r, ValueState(key, members)) == ObjectLoop(r, ValueState(key, members))
    ensures c == '"' ==> ObjectLoop([c] + r, ValueState(key, members)) == ObjectLoop(r, ObjectState(false, true, key, "", members))
    ensures c !in " \n\t,:\"{[-tfn" && !('0' <= c <= '9') ==> ObjectLoop([c] + r, ValueState(key, members)) == Object(false, members)
  {
    assert ([c] + r)[1..] == r;
  }

  /** A word that starts like a literal and is none. */
  lemma NoLiteral(s: string, key: string, members: seq<Member>)
    requires s != "" && (s[0] == 't' || s[0] == 'f' || s[0] == 'n')
    requires |s| < 4 || (s[..4] != "true" && s[..4] != "null")
    requires |s| < 5 || s[..5] != "false"
    ensures ObjectLoop(s, ValueState(key, members)) == Object(false, members)
  {
  }

  /** A text that ends inside a key, a string or a member is not valid. */
  lemma EndsInside(st: ObjectState)
    ensures st.quoted || !st.isKey ==> ObjectLoop("", st) == Object(false, st.members)
    ensures st == KeyState(st.members) ==>
              (Valid(ObjectLoop("", st)) <==> forall i :: 0 <= i < |st.members| ==> Valid(st.members[i].value))
  {
  }

  /** Between items, in front of the last character. */
  lemma BetweenItems(c: char, r: string, items: seq<Node>)
    requires r != ""
    ensures c in " \n\t," ==> ArrayLoop([c] + r, ArrayState(false, "", items)) == ArrayLoop(r, ArrayState(false, "", items))
    ensures c == '"' ==> ArrayLoop([c] + r, ArrayState(false, "", items)) == ArrayLoop(r, ArrayState(true, "", items))
    ensures c !in " \n\t,\"{[-tfn" && !('0' <= c <= '9') ==> ArrayLoop([c] + r, ArrayState(false, "", items)) == Invalid
  {
    assert ([c] + r)[1..] == r;
  }

  lemma NoItem(s: string, items: seq<Node>)
    requires |s| > 1
    ensures s[0] == '-' && (|s| < 3 || !('0' <= s[1] <= '9')) ==> ArrayLoop(s, ArrayState(false, "", items)) == Invalid
    ensures (s[0] == 't' || s[0] == 'f' || s[0] == 'n')
            && (|s| < 5 || (s[..4] != "true" && s[..4] != "null")) && (|s| < 6 || s[..5] != "false") ==>
              ArrayLoop(s, ArrayState(false, "", items)) == Invalid
  {
  }

  /** The last character of an array is not read; inside a string it leaves the array invalid. */
  lemma ItemsEnd(c: char, st: ArrayState)
    ensures ArrayLoop([c], st).items == st.items
    ensures Valid(ArrayLoop([c], st)) <==>
            !st.quoted && st.value == "" && forall i :: 0 <= i < |st.items| ==> Valid(st.items[i])
  {
  }

  /** A body has at least two characters, and ends with the bracket it starts with. */
  lemma Bodies(body: string)
    ensures |body| < 2 ==> ParseObject(body) == ParseArray(body) == Object(false, [])
    ensures body != "" && body[0] == '{' && body[|body| - 1] != '}' ==> ParseObject(body) == Object(false, [])
    ensures body != "" && body[0] == '[' && body[|body| - 1] != ']' ==> ParseObject(body) == Object(false, [])
    ensures body != "" && (body[0] != '[' || body[|body| - 1] != ']') ==> ParseArray(body) == Object(false, [])
  {
  }

  // ---------------------------------------------------------------- keys in order

  /** Keys are ordered like words: by the first character in which they differ, a key that goes on
      behind one that ends. */
  lemma {:induction false} LessMeans(a: string, b: string)
    ensures Less(a, b) <==> exists i :: 0 <= i < |b| && i <= |a| && a[..i] == b[..i] && (i == |a| || a[i] < b[i])
    decreases |a|
  {
    if Less(a, b) {
      var i := FirstDifference(a, b);
      assert a[..i] == b[..i];
    } else if i :| 0 <= i < |b| && i <= |a| && a[..i] == b[..i] && (i == |a| || a[i] < b[i]) {
      DifferenceLess(a, b, i);
    }
  }

  lemma {:induction false} FirstDifference(a: string, b: string) returns (i: nat)
    requires Less(a, b)
    ensures i < |b| && i <= |a| && a[..i] == b[..i] && (i == |a| || a[i] < b[i])
    decreases |a|
  {
    if a == "" || a[0] < b[0] {
      i := 0;
    } else {
      var j := FirstDifference(a[1..], b[1..]);
      i := j + 1;
      assert a[..i] == [a[0]] + a[1..][..j] && b[..i] == [b[0]] + b[1..][..j];
    }
  }

  lemma {:induction false} DifferenceLess(a: string, b: string, i: nat)
    requires i < |b| && i <= |a| && a[..i] == b[..i] && (i == |a| || a[i] < b[i])
    ensures Less(a, b)
    decreases i
  {
    if i > 0 {
      assert a[0] == a[..i][0] == b[..i][0] == b[0];
      assert a[1..][..i - 1] == a[..i][1..] == b[..i][1..] == b[1..][..i - 1];
      DifferenceLess(a[1..], b[1..], i - 1);
    }
  }

  predicate HasKey(members: seq<Member>, key: string) {
    exists i :: 0 <= i < |members| && members[i].key == key
  }

  /** A member is stored in the order of the keys, unless its key is there already. */
  lemma {:induction false} EmplaceMeans(members: seq<Member>, m: Member)
    requires Sorted(members)
    ensures Sorted(Emplace(members, m))
    ensures HasKey(members, m.key) ==> Emplace(members, m) == members
    ensures !HasKey(members, m.key) ==>
              exists i :: 0 <= i <= |members| && Emplace(members, m) == members[..i] + [m] + members[i..]
    decreases |members|
  {
    if members == [] {
      assert members[..0] + [m] + members[0..] == [m];
    } else {
      EmplaceRest(members, m);
    }
  }

  lemma {:induction false} EmplaceRest(members: seq<Member>, m: Member)
    requires members != [] && Sorted(members)
    ensures Sorted(Emplace(members, m))
    ensures HasKey(members, m.key) ==> Emplace(members, m) == members
    ensures !HasKey(members, m.key) ==>
              exists i :: 0 <= i <= |members| && Emplace(members, m) == members[..i] + [m] + members[i..]
    decreases |members|, 0
  {
    var first, rest := members[0], members[1..];
    assert members == [first] + rest;
    if Less(m.key, first.key) {
      FirstOfAll(members, m);
      assert members[..0] + [m] + members[0..] == [m] + members;
    } else if m.key == first.key {
      assert HasKey(members, m.key);
    } else {
      LessTotal(m.key, first.key);
      EmplaceMeans(rest, m);
      Behind(first, rest, m);
    }
  }

  lemma {:induction false} LessTotal(a: string, b: string)
    ensures Less(a, b) || a == b || Less(b, a)
    decreases |a|
  {
    if a != "" && b != "" && a[0] == b[0] {
      LessTotal(a[1..], b[1..]);
      assert a == [a[0]] + a[1..] && b == [b[0]] + b[1..];
    }
  }

  lemma {:induction false} LessTransitive(a: string, b: string, c: string)
    requires Less(a, b) && Less(b, c)
    ensures Less(a, c)
    decreases |a|
  {
    if a != "" && a[0] == b[0] && b[0] == c[0] {
      LessTransitive(a[1..], b[1..], c[1..]);
    }
  }

  lemma FirstOfAll(members: seq<Member>, m: Member)
    requires members != [] && Sorted(members) && Less(m.key, members[0].key)
    ensures !HasKey(members, m.key) && Sorted([m] + members)
  {
    forall i | 0 <= i < |members|
      ensures Less(m.key, members[i].key) && members[i].key != m.key
    {
      if i > 0 {
        LessTransitive(m.key, members[0].key, members[i].key);
      }
      LessIsStrict(m.key, members[i].key);
    }
  }

  lemma Behind(first: Member, rest: seq<Member>, m: Member)
    requires Sorted([first] + rest) && Less(first.key, m.key) && Sorted(Emplace(rest, m))
    requires HasKey(rest, m.key) ==> Emplace(rest, m) == rest
    requires !HasKey(rest, m.key) ==>
               exists i :: 0 <= i <= |rest| && Emplace(rest, m) == rest[..i] + [m] + rest[i..]
    ensures var members, r := [first] + rest, [first] + Emplace(rest, m);
            && Sorted(r)
            && (HasKey(members, m.key) ==> r == members)
            && (!HasKey(members, m.key) ==> exists i :: 0 <= i <= |members| && r == members[..i] + [m] + members[i..])
  {
    var members, r := [first] + rest, [first] + Emplace(rest, m);
    LessIsStrict(first.key, m.key);
    if HasKey(rest, m.key) {
      var i :| 0 <= i < |rest| && rest[i].key == m.key;
      assert members[i + 1].key == m.key;
    } else {
      assert !HasKey(members, m.key) by {
        if i :| 0 <= i < |members| && members[i].key == m.key {
          assert i > 0 ==> rest[i - 1].key == m.key;
        }
      }
      var i :| 0 <= i <= |rest| && Emplace(rest, m) == rest[..i] + [m] + rest[i..];
      assert members[..i + 1] == [first] + rest[..i] && members[i + 1..] == rest[i..];
      assert r == members[..i + 1] + [m] + members[i + 1..];
      SortedBehind(first, rest, m, i);
    }
  }

  lemma LessThanAll(first: Member, rest: seq<Member>, k: nat)
    requires Sorted([first] + rest) && k < |rest|
    ensures Less(first.key, rest[k].key)
  {
    var all := [first] + rest;
    assert all[0] == first && all[k + 1] == rest[k];
  }

  lemma SortedBehind(first: Member, rest: seq<Member>, m: Member, i: nat)
    requires i <= |rest| && Sorted([first] + rest) && Less(first.key, m.key) && Sorted(rest[..i] + [m] + rest[i..])
    ensures Sorted([first] + (rest[..i] + [m] + rest[i..]))
  {
    var e := rest[..i] + [m] + rest[i..];
    forall j | 0 <= j < |e|
      ensures Less(first.key, e[j].key)
    {
      if j != i {
        LessThanAll(first, rest, if j < i then j else j - 1);
      }
    }
  }
}
