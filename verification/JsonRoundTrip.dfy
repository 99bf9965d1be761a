/** Parsing undoes printing. */
module JsonRoundTrip {
  import opened Options
  import opened JsonText
  import opened JsonParser

  /** A string in the form the tree keeps it: escapes still written out, so that a scan for the
      closing quote does not stop inside it or run past its end. */
  predicate Raw(s: string) {
    s == ""
    || if StartsEscape(s, |s|) then Raw(s[2..]) else s[0] != '"' && s != "\\" && Raw(s[1..])
  }

  predicate Sorted(members: seq<Member>) {
    forall i, j :: 0 <= i < j < |members| ==> Less(members[i].key, members[j].key)
  }

  /** A nested container is found again by counting its own kind of brackets, quotes ignored:
      they are first balanced at its last character. */
  predicate Delimited(n: Node) {
    var s := Text(n);
    (n.Object? ==> Closing(s[1..], 1, '{', '}') == Some(|s| - 1))
    && (n.Array? ==> Closing(s[1..], 1, '[', ']') == Some(|s| - 1))
  }

  /** A value of a type that prints to something the parser reads as the same type. */
  predicate WellTyped(n: Node) {
    match n
    case Object(valid, members) =>
      valid && Sorted(members) && forall i :: 0 <= i < |members| ==> Raw(members[i].key)
    case Array(valid, items) => valid
    case Str(text) => Raw(text)
    case Float(_, _) => false
    case Int(i) => -TWO_63 <= i < 0
    case UInt(u) => 0 <= u < TWO_64
    case _ => true
  }

  /** Well typed at every level, with every nested container delimited. */
  predicate Printable(n: Node)
    decreases n
  {
    && WellTyped(n)
    && (n.Object? ==>
          forall i :: 0 <= i < |n.members| ==> Printable(n.members[i].value) && Delimited(n.members[i].value))
    && (n.Array? ==>
          forall i :: 0 <= i < |n.items| ==> Printable(n.items[i]) && Delimited(n.items[i]))
  }

  // ---------------------------------------------------------------- pieces of text

  lemma Advance(s: string, st: ObjectState, rest: string, st': ObjectState)
    requires s != "" && StepObject(s, st) == Next(rest, st')
    ensures ObjectLoop(s, st) == ObjectLoop(rest, st')
  {
  }

  lemma AdvanceItem(s: string, st: ArrayState, rest: string, st': ArrayState)
    requires |s| > 1 && StepArray(s, st) == NextItem(rest, st')
    ensures ArrayLoop(s, st) == ArrayLoop(rest, st')
  {
  }

  /** What is read of raw text in quotes, one character or one escape at a time. */
  lemma Inside(text: string, r: string)
    requires Raw(text) && text != ""
    ensures var s := text + "\"" + r;
            && s[0] == text[0] && s[0] != '"' && s[1..] == text[1..] + "\"" + r
            && (StartsEscape(s, |s|) <==> StartsEscape(text, |text|))
            && (r != "" ==> (StartsEscape(s, |s| - 1) <==> StartsEscape(text, |text|)))
            && (StartsEscape(text, |text|) ==> s[..2] == text[..2] && s[2..] == text[2..] + "\"" + r)
  {
    Split(text, "\"", r, 1);
    if |text| >= 2 {
      Split(text, "\"", r, 2);
    }
  }

  lemma Split(text: string, quote: string, r: string, n: nat)
    requires 0 < n <= |text|
    ensures var s := text + quote + r;
            |s| >= |text| + |quote| && s[n - 1] == text[n - 1] && s[..n] == text[..n] && s[n..] == text[n..] + quote + r
  {
  }

  lemma Joined(before: string, text: string, n: nat)
    requires n <= |text|
    ensures before + text[..n] + text[n..] == before + text
    ensures n == 1 ==> text[..n] == [text[0]]
  {
    assert text[..n] + text[n..] == text;
  }

  lemma {:induction false} ReadsKey(key: string, r: string, before: string, members: seq<Member>)
    requires Raw(key)
    ensures ObjectLoop(key + "\"" + r, ObjectState(true, true, before, "", members))
            == ObjectLoop(r, ValueState(before + key, members))
    decreases |key|
  {
    var s := key + "\"" + r;
    var st := ObjectState(true, true, before, "", members);
    if key == "" {
      assert s[1..] == r && before + key == before;
      Advance(s, st, r, ValueState(before, members));
    } else {
      Inside(key, r);
      var n := if StartsEscape(key, |key|) then 2 else 1;
      Joined(before, key, n);
      Advance(s, st, s[n..], st.(key := before + key[..n]));
      ReadsKey(key[n..], r, before + key[..n], members);
    }
  }

  lemma {:induction false} ReadsString(text: string, r: string, before: string, key: string, members: seq<Member>)
    requires Raw(text)
    ensures ObjectLoop(text + "\"" + r, ObjectState(false, true, key, before, members))
            == ObjectLoop(r, KeyState(Emplace(members, Member(key, Str(before + text)))))
    decreases |text|
  {
    var s := text + "\"" + r;
    var st := ObjectState(false, true, key, before, members);
    if text == "" {
      assert s[1..] == r && before + text == before;
      Advance(s, st, r, Store(st, Str(before)));
    } else {
      Inside(text, r);
      var n := if StartsEscape(text, |text|) then 2 else 1;
      Joined(before, text, n);
      Advance(s, st, s[n..], st.(value := before + text[..n]));
      ReadsString(text[n..], r, before + text[..n], key, members);
    }
  }

  lemma {:induction false} ReadsItemString(text: string, r: string, before: string, items: seq<Node>)
    requires Raw(text) && r != ""
    ensures ArrayLoop(text + "\"" + r, ArrayState(true, before, items))
            == ArrayLoop(r, ArrayState(false, "", items + [Str(before + text)]))
    decreases |text|
  {
    var s := text + "\"" + r;
    var st := ArrayState(true, before, items);
    if text == "" {
      assert s[1..] == r && before + text == before;
      AdvanceItem(s, st, r, Append(st, Str(before)));
    } else {
      Inside(text, r);
      var n := if StartsEscape(text, |text|) then 2 else 1;
      Joined(before, text, n);
      AdvanceItem(s, st, s[n..], st.(value := before + text[..n]));
      ReadsItemString(text[n..], r, before + text[..n], items);
    }
  }

  /** What may stand between any two tokens. */
  predicate Space(c: char) {
    c == ' ' || c == '\n' || c == '\t'
  }

  predicate EndsNumber(r: string) {
    r != "" && (r[0] == ',' || r[0] == '}' || r[0] == ']' || Space(r[0]))
  }

  /** A number ends at the first character that cannot belong to it. */
  lemma {:induction false} ReadsDigits(digits: string, r: string, value: string, negative: bool)
    requires forall i :: 0 <= i < |digits| ==> IsDigit(digits[i])
    requires value != "" && EndsNumber(r)
    ensures ScanNumber(digits + r, value, false, negative) == FinishNumber(r, value + digits, false, "", negative)
    decreases |digits|
  {
    var s := digits + r;
    if digits == "" {
      assert s == r && value + digits == value;
    } else {
      assert s[1..] == digits[1..] + r;
      ReadsDigits(digits[1..], r, value + [digits[0]], negative);
      assert value + [digits[0]] + digits[1..] == value + digits;
    }
  }

  /** The scan that the text of a number starts, in either loop. */
  lemma ReadsUnsigned(digits: string, r: string)
    requires digits != "" && forall i :: 0 <= i < |digits| ==> IsDigit(digits[i])
    requires EndsNumber(r)
    ensures var s := digits + r;
            IsDigit(s[0]) && ScanNumber(s[1..], s[..1], false, false) == FinishNumber(r, digits, false, "", false)
  {
    var s := digits + r;
    assert s[1..] == digits[1..] + r && s[..1] + digits[1..] == digits;
    ReadsDigits(digits[1..], r, s[..1], false);
  }

  lemma ReadsSigned(digits: string, r: string)
    requires digits != "" && forall i :: 0 <= i < |digits| ==> IsDigit(digits[i])
    requires EndsNumber(r)
    ensures var s := "-" + digits + r;
            && |s| >= 3 && s[0] == '-' && IsDigit(s[1])
            && ScanNumber(s[2..], s[..2], false, true) == FinishNumber(r, "-" + digits, false, "", true)
  {
    var s := "-" + digits + r;
    assert s[2..] == digits[1..] + r && s[..2] + digits[1..] == "-" + digits;
    ReadsDigits(digits[1..], r, s[..2], true);
  }

  lemma ReadsNumber(n: Node, r: string)
    requires Printable(n) && (n.Int? || n.UInt?)
    requires EndsNumber(r)
    ensures var s := Text(n) + r;
            if n.Int? then |s| >= 3 && s[0] == '-' && IsDigit(s[1])
                           && ScanNumber(s[2..], s[..2], false, true) == Finished(n, r[1..])
            else IsDigit(s[0]) && ScanNumber(s[1..], s[..1], false, false) == Finished(n, r[1..])
  {
    if n.Int? {
      ReadsNegative(-n.i, r);
    } else {
      ReadsNatural(n.u, r);
    }
  }

  lemma ReadsNegative(i: int, r: string)
    requires 0 < i <= TWO_63 && EndsNumber(r)
    ensures var s := "-" + Digits(i) + r;
            |s| >= 3 && s[0] == '-' && IsDigit(s[1]) && ScanNumber(s[2..], s[..2], false, true) == Finished(Int(-i), r[1..])
  {
    DecimalOfDigits(i);
    ReadsSigned(Digits(i), r);
    assert ("-" + Digits(i))[1..] == Digits(i);
  }

  lemma ReadsNatural(u: nat, r: string)
    requires u < TWO_64 && EndsNumber(r)
    ensures var s := Digits(u) + r;
            IsDigit(s[0]) && ScanNumber(s[1..], s[..1], false, false) == Finished(UInt(u), r[1..])
  {
    DecimalOfDigits(u);
    ReadsUnsigned(Digits(u), r);
  }

  lemma {:induction false} ClosingPrefix(a: string, b: string, depth: nat, open: char, close: char)
    requires Closing(a, depth, open, close).Some?
    ensures Closing(a + b, depth, open, close) == Closing(a, depth, open, close)
    decreases |a|
  {
    if depth > 0 {
      assert (a + b)[1..] == a[1..] + b;
      ClosingPrefix(a[1..], b, Depth(a[0], depth, open, close), open, close);
    }
  }

  lemma {:induction false} EmplaceLast(members: seq<Member>, m: Member)
    requires forall i :: 0 <= i < |members| ==> Less(members[i].key, m.key)
    ensures Emplace(members, m) == members + [m]
    decreases |members|
  {
    if members != [] {
      LessIsStrict(members[0].key, m.key);
      EmplaceLast(members[1..], m);
      assert [members[0]] + (members[1..] + [m]) == members + [m];
    }
  }

  // ---------------------------------------------------------------- values and containers

  /** What follows a value in an object: a comma or the closing brace, or a blank. */
  predicate EndsMember(r: string) {
    r != "" && (r[0] == ',' || r[0] == '}' || Space(r[0]))
  }

  lemma SkipsSeparator(r: string, members: seq<Member>)
    requires EndsMember(r)
    ensures ObjectLoop(r, KeyState(members)) == ObjectLoop(r[1..], KeyState(members))
  {
    Advance(r, KeyState(members), r[1..], KeyState(members));
  }

  /** `t` is a container, found by its brackets at the start of any text that goes on with `r`. */
  predicate Encloses(t: string) {
    && t != "" && (t[0] == '{' || t[0] == '[')
    && Closing(t[1..], 1, t[0], if t[0] == '{' then '}' else ']') == Some(|t| - 1)
  }

  lemma ContainerFound(t: string, r: string)
    requires Encloses(t)
    ensures ContainerLength(t + r) == |t|
    ensures t[0] == '[' ==> Closing((t + r)[1..], 1, '[', ']') == Some(|t| - 1)
  {
    assert (t + r)[1..] == t[1..] + r;
    ClosingPrefix(t[1..], r, 1, t[0], if t[0] == '{' then '}' else ']');
  }

  lemma StepsContainer(t: string, r: string, st: ObjectState)
    requires Encloses(t) && !st.isKey && !st.quoted
    ensures StepObject(t + r, st) == Next(r, Store(st, if t[0] == '{' then ParseObject(t) else ParseArray(t)))
  {
    ContainerFound(t, r);
    assert (t + r)[..|t|] == t && (t + r)[|t|..] == r;
    assert ContainerNode(t + r) == if t[0] == '{' then ParseObject(t) else ParseArray(t);
  }

  lemma StepsNumber(v: Node, r: string, key: string, members: seq<Member>)
    requires Printable(v) && (v.Int? || v.UInt?) && EndsMember(r)
    ensures StepObject(Text(v) + r, ValueState(key, members)) == Next(r[1..], Store(ValueState(key, members), v))
  {
    var s := Text(v) + r;
    ReadsNumber(v, r);
    assert "" + [s[0]] == s[..1];
    assert v.Int? ==> "" + s[..2] == s[..2];
  }

  lemma StepsLiteral(v: Node, r: string, st: ObjectState)
    requires (v.Bool? || v.Null?) && EndsMember(r) && !st.isKey && !st.quoted
    ensures StepObject(Text(v) + r, st) == Next(r, Store(st, v))
  {
    var s := Text(v) + r;
    assert s[|Text(v)|..] == r && s[..|Text(v)|] == Text(v);
  }

  lemma ReadsStringValue(text: string, r: string, key: string, members: seq<Member>)
    requires Raw(text)
    ensures ObjectLoop(Text(Str(text)) + r, ValueState(key, members))
            == ObjectLoop(r, KeyState(Emplace(members, Member(key, Str(text)))))
  {
    var s := Text(Str(text)) + r;
    assert s[1..] == text + "\"" + r;
    Advance(s, ValueState(key, members), s[1..], ValueState(key, members).(quoted := true));
    ReadsString(text, r, "", key, members);
    assert "" + text == text;
  }

  lemma {:induction false} ReadsValue(v: Node, r: string, key: string, members: seq<Member>)
    requires Printable(v) && Delimited(v) && EndsMember(r)
    ensures ObjectLoop(Text(v) + r, ValueState(key, members))
            == ObjectLoop(r[1..], KeyState(Emplace(members, Member(key, v))))
    decreases v, 2, 0
  {
    var st := ValueState(key, members);
    if v.Int? || v.UInt? {
      StepsNumber(v, r, key, members);
      Advance(Text(v) + r, st, r[1..], Store(st, v));
    } else {
      SkipsSeparator(r, Emplace(members, Member(key, v)));
      if v.Str? {
        ReadsStringValue(v.text, r, key, members);
      } else {
        if v.Object? {
          ParsesObject(v);
          StepsContainer(Text(v), r, st);
        } else if v.Array? {
          ParsesArray(v);
          StepsContainer(Text(v), r, st);
        } else {
          StepsLiteral(v, r, st);
        }
        Advance(Text(v) + r, st, r, Store(st, v));
      }
    }
  }

  lemma {:induction false} ReadsMember(m: Member, r: string, members: seq<Member>)
    requires Raw(m.key) && Printable(m.value) && Delimited(m.value) && EndsMember(r)
    ensures ObjectLoop("\"" + m.key + "\":" + Text(m.value) + r, KeyState(members))
            == ObjectLoop(r[1..], KeyState(Emplace(members, m)))
    decreases m.value, 3, 0
  {
    var s := "\"" + m.key + "\":" + Text(m.value) + r;
    var st, value := KeyState(members), Text(m.value) + r;
    assert s[1..] == m.key + "\"" + (":" + value);
    Advance(s, st, s[1..], st.(quoted := true));
    ReadsKey(m.key, ":" + value, "", members);
    assert "" + m.key == m.key;
    assert (":" + value)[1..] == value;
    Advance(":" + value, ValueState(m.key, members), value, ValueState(m.key, members));
    ReadsValue(m.value, r, m.key, members);
  }

  /** What follows the value of the first of `members` up to the end of the object. */
  function AfterFirst(members: seq<Member>): (r: string)
    requires members != []
    ensures EndsMember(r)
  {
    if |members| == 1 then "}" else "," + (MembersText(members[1..]) + "}")
  }

  lemma FirstMember(members: seq<Member>)
    requires members != []
    ensures MembersText(members) + "}"
            == "\"" + members[0].key + "\":" + Text(members[0].value) + AfterFirst(members)
  {
  }

  /** A comma and the brace that ends the object are both passed over before a key. */
  lemma ReadsRest(members: seq<Member>, read: seq<Member>)
    requires members != []
    ensures ObjectLoop(AfterFirst(members)[1..], KeyState(read))
            == ObjectLoop(MembersText(members[1..]) + "}", KeyState(read))
  {
    var r := AfterFirst(members);
    if |members| == 1 {
      assert MembersText(members[1..]) + "}" == "}";
      SkipsSeparator("}", read);
      assert "}"[1..] == r[1..];
    } else {
      assert r[1..] == MembersText(members[1..]) + "}";
    }
  }

  lemma {:induction false} ParsesMembers(n: Node, i: nat)
    requires n.Object? && Printable(n) && i <= |n.members|
    ensures ObjectLoop(MembersText(n.members[i..]) + "}", KeyState(n.members[..i])) == n
    decreases n, 0, |n.members| - i
  {
    var read, left := n.members[..i], n.members[i..];
    if i == |n.members| {
      assert MembersText(left) + "}" == "}" && read == n.members && "}"[1..] == "";
      SkipsSeparator("}", read);
    } else {
      FirstMember(left);
      ReadsMember(left[0], AfterFirst(left), read);
      EmplaceLast(read, left[0]);
      assert read + [left[0]] == n.members[..i + 1] && left[1..] == n.members[i + 1..];
      ReadsRest(left, n.members[..i + 1]);
      ParsesMembers(n, i + 1);
    }
  }

  /** Parsing the printed object gives the object back. */
  lemma {:induction false} ParsesObject(n: Node)
    requires n.Object? && Printable(n)
    ensures ParseObject(Text(n)) == n
    decreases n, 1, 0
  {
    ParsesMembers(n, 0);
    assert n.members[0..] == n.members;
    assert Text(n)[1..] == MembersText(n.members) + "}";
  }

  /** What follows an item: a comma or a blank with more behind it, or the closing bracket alone. */
  predicate EndsItem(r: string) {
    r == "]" || (|r| > 1 && (r[0] == ',' || Space(r[0])))
  }

  lemma SkipsComma(r: string, items: seq<Node>)
    requires EndsItem(r)
    ensures ArrayLoop(r, ArrayState(false, "", items)) == ArrayLoop(r[1..], ArrayState(false, "", items))
  {
    if r != "]" {
      AdvanceItem(r, ArrayState(false, "", items), r[1..], ArrayState(false, "", items));
    }
  }

  lemma NestedFound(t: string, r: string)
    requires Encloses(t) && r != ""
    ensures var s := t + r;
            var inner := s[..|s| - 1];
            && s[..|t|] == t && s[|t|..] == r
            && inner != "" && inner[0] == t[0] && ContainerLength(inner) == |t|
            && (t[0] == '[' ==> Closing(inner[1..], 1, '[', ']') == Some(|t| - 1))
  {
    var s := t + r;
    assert s[..|s| - 1] == t + r[..|r| - 1];
    ContainerFound(t, r[..|r| - 1]);
  }

  lemma StepsNested(t: string, r: string, st: ArrayState)
    requires Encloses(t) && !st.quoted && r != ""
    ensures StepArray(t + r, st) == NextItem(r, Append(st, if t[0] == '{' then ParseObject(t) else ParseArray(t)))
  {
    NestedFound(t, r);
    var s := t + r;
    if t[0] == '{' {
      assert NestedStep(s, st) == NextItem(s[|t|..], Append(st, ParseObject(s[..|t|])));
    } else {
      assert NestedStep(s, st) == NextItem(s[|t|..], Append(st, ParseArray(s[..|t|])));
    }
  }

  lemma StepsItemNumber(v: Node, r: string, items: seq<Node>)
    requires Printable(v) && (v.Int? || v.UInt?) && EndsItem(r)
    ensures StepArray(Text(v) + r, ArrayState(false, "", items))
            == NextItem(r[1..], Append(ArrayState(false, "", items), v))
  {
    var s := Text(v) + r;
    ReadsNumber(v, r);
    assert "" + [s[0]] == s[..1];
    assert v.Int? ==> "" + s[..2] == s[..2];
  }

  lemma StepsItemLiteral(v: Node, r: string, st: ArrayState)
    requires (v.Bool? || v.Null?) && r != "" && !st.quoted
    ensures |Text(v) + r| > 1 && StepArray(Text(v) + r, st) == NextItem(r, Append(st, v))
  {
    var s := Text(v) + r;
    assert s[|Text(v)|..] == r && s[..|Text(v)|] == Text(v);
  }

  lemma ReadsStringItem(text: string, r: string, items: seq<Node>)
    requires Raw(text) && r != ""
    ensures ArrayLoop(Text(Str(text)) + r, ArrayState(false, "", items))
            == ArrayLoop(r, ArrayState(false, "", items + [Str(text)]))
  {
    var s := Text(Str(text)) + r;
    var st := ArrayState(false, "", items);
    assert s[1..] == text + "\"" + r;
    AdvanceItem(s, st, s[1..], st.(quoted := true));
    ReadsItemString(text, r, "", items);
    assert "" + text == text;
  }

  lemma {:induction false} ReadsItem(v: Node, r: string, items: seq<Node>)
    requires Printable(v) && Delimited(v) && EndsItem(r)
    ensures ArrayLoop(Text(v) + r, ArrayState(false, "", items))
            == ArrayLoop(r[1..], ArrayState(false, "", items + [v]))
    decreases v, 2, 0
  {
    var s := Text(v) + r;
    var st := ArrayState(false, "", items);
    if v.Int? || v.UInt? {
      StepsItemNumber(v, r, items);
      AdvanceItem(s, st, r[1..], Append(st, v));
    } else {
      SkipsComma(r, items + [v]);
      if v.Str? {
        ReadsStringItem(v.text, r, items);
      } else {
        if v.Object? {
          ParsesObject(v);
          StepsNested(Text(v), r, st);
        } else if v.Array? {
          ParsesArray(v);
          StepsNested(Text(v), r, st);
        } else {
          StepsItemLiteral(v, r, st);
        }
        AdvanceItem(s, st, r, Append(st, v));
      }
    }
  }

  /** What stands behind item `i` in the text of an array. */
  function Behind(items: seq<Node>, i: nat): string
    requires i < |items|
  {
    if i == |items| - 1 then "]" else "," + (ItemsText(items[i + 1..]) + "]")
  }

  lemma ItemsFrom(items: seq<Node>, i: nat)
    requires i < |items|
    ensures ItemsText(items[i..]) + "]" == Text(items[i]) + Behind(items, i)
    ensures Behind(items, i)[1..] == if i == |items| - 1 then "" else ItemsText(items[i + 1..]) + "]"
    ensures EndsItem(Behind(items, i))
  {
    assert items[i..][1..] == items[i + 1..];
    if i == |items| - 1 {
      assert Text(items[i]) + "" == Text(items[i]);
    } else {
      Reassociate(Text(items[i]), ",", ItemsText(items[i + 1..]), "]");
    }
  }

  lemma Reassociate(a: string, b: string, c: string, d: string)
    ensures a + (b + c) + d == a + (b + (c + d))
  {
  }

  lemma {:induction false} ParsesItems(n: Node, i: nat)
    requires n.Array? && Printable(n) && i <= |n.items|
    ensures ArrayLoop(ItemsText(n.items[i..]) + "]", ArrayState(false, "", n.items[..i])) == n
    decreases n, 0, |n.items| - i
  {
    if i == |n.items| {
      assert n.items[..i] == n.items && ItemsText(n.items[i..]) + "]" == "]";
    } else {
      ItemsFrom(n.items, i);
      ReadsItem(n.items[i], Behind(n.items, i), n.items[..i]);
      assert n.items[..i] + [n.items[i]] == n.items[..i + 1];
      ParsesItems(n, i + 1);
      if i == |n.items| - 1 {
        NoItemLeft(n.items[..i + 1]);
      }
    }
  }

  /** At the end of the array it makes no difference whether its bracket is still there. */
  lemma NoItemLeft(items: seq<Node>)
    ensures ArrayLoop("]", ArrayState(false, "", items)) == ArrayLoop("", ArrayState(false, "", items))
    ensures ItemsText([]) + "]" == "]"
  {
  }

  lemma {:induction false} ParsesArray(n: Node)
    requires n.Array? && Printable(n)
    ensures ParseArray(Text(n)) == n
    decreases n, 1, 0
  {
    ParsesItems(n, 0);
    assert n.items[0..] == n.items;
    assert Text(n)[1..] == ItemsText(n.items) + "]";
  }

  /** A root array comes back under the key the parser gives it. */
  lemma ParsesRootArray(n: Node)
    requires n.Array? && Printable(n) && Delimited(n)
    ensures ParseObject(Text(n)) == Object(true, [Member("rootArray", n)])
  {
    var t := Text(n);
    ContainerFound(t, "");
    assert t + "" == t && t[..|t|] == t;
    assert ArrayNode(t) == ParseArray(t);
    ParsesArray(n);
    assert t[|t| - 1] == ']';
  }
}
