/** Which containers survive being printed and parsed: the exact condition for the first nested
    container whose end is not found by counting its own brackets. */
module JsonContainers {
  import opened Options
  import opened JsonText
  import opened JsonParser
  import opened JsonRoundTrip
  import opened JsonBrackets
  import opened JsonCuts

  // ---------------------------------------------------------------- in an object

  lemma {:induction false} ReadsUpTo(n: Node, j: nat, i: nat, tail: string)
    requires n.Object? && PartsPrintable(n) && j <= i < |n.members|
    requires forall k :: j <= k < i ==> Delimited(n.members[k].value)
    ensures ObjectLoop(MembersText(n.members[j..]) + tail, KeyState(n.members[..j]))
            == ObjectLoop(MembersText(n.members[i..]) + tail, KeyState(n.members[..i]))
    decreases i - j
  {
    if j < i {
      MembersFrom(n.members, j, tail);
      var rest := MembersText(n.members[j + 1..]) + tail;
      assert Beyond(n.members, j, tail) == "," + rest && ("," + rest)[1..] == rest;
      ReadsOne(n, j, "," + rest);
      ReadsUpTo(n, j + 1, i, tail);
    }
  }

  lemma ValidParts(n: Node)
    requires IsContainer(n) && PartsPrintable(n)
    ensures n.Object? ==> FinishObject(KeyState(n.members)) == n
    ensures n.Array? ==> FinishArray(ArrayState(false, "", n.items)) == n
  {
  }

  /** All members are read, whatever ends the object. */
  lemma ReadsAll(n: Node, tail: string)
    requires n.Object? && Printable(n) && EndsMember(tail)
    ensures ObjectLoop(MembersText(n.members) + tail, KeyState([])) == ObjectLoop(tail[1..], KeyState(n.members))
  {
    assert n.members[0..] == n.members && n.members[..0] == [] && n.members[..|n.members|] == n.members;
    if n.members == [] {
      assert MembersText(n.members) + tail == tail;
      SkipsSeparator(tail, []);
    } else {
      var last := |n.members| - 1;
      ReadsUpTo(n, 0, last, tail);
      MembersFrom(n.members, last, tail);
      ReadsOne(n, last, tail);
    }
  }

  /** A brace too many at the end of an object goes unnoticed. */
  lemma ExtraBrace(n: Node)
    requires n.Object? && Printable(n)
    ensures ParseObject(Text(n) + "}") == n
  {
    var u := MembersText(n.members) + "}}";
    assert Text(n) + "}" == "{" + u;
    ParseBraced(u);
    ReadsAll(n, "}}");
    assert "}}"[1..] == "}" && "}"[1..] == "";
    SkipsSeparator("}", n.members);
    ValidParts(n);
  }

  /** `n` is an object whose member `i` is a container, with nothing but containers that are found
      before it. */
  predicate Reaches(n: Node, i: nat) {
    && n.Object? && PartsPrintable(n) && i < |n.members| && IsContainer(n.members[i].value)
    && forall k :: 0 <= k < i ==> Delimited(n.members[k].value)
  }

  lemma ReachesValue(n: Node, i: nat)
    requires Reaches(n, i)
    ensures var m := n.members[i];
            ParseObject(Text(n))
            == ObjectLoop(Text(m.value) + Beyond(n.members, i, "}"), ValueState(m.key, n.members[..i]))
  {
    var m := n.members[i];
    assert n.members[0..] == n.members && n.members[..0] == [];
    assert Text(n) == "{" + (MembersText(n.members) + "}");
    ParseBraced(MembersText(n.members) + "}");
    ReadsUpTo(n, 0, i, "}");
    MembersFrom(n.members, i, "}");
    ReadsHead(m.key, Text(m.value) + Beyond(n.members, i, "}"), n.members[..i]);
  }

  lemma StoresContainer(s: string, key: string, members: seq<Member>)
    requires s != "" && (s[0] == '{' || s[0] == '[') && forall k :: 0 <= k < |members| ==> Less(members[k].key, key)
    ensures ObjectLoop(s, ValueState(key, members))
            == ObjectLoop(s[ContainerLength(s)..], KeyState(members + [Member(key, ContainerNode(s))]))
  {
    var st := ValueState(key, members);
    EmplaceLast(members, Member(key, ContainerNode(s)));
    Advance(s, st, s[ContainerLength(s)..], Store(st, ContainerNode(s)));
  }

  lemma FirstChar(n: Node, r: string)
    requires IsContainer(n)
    ensures (Text(n) + r)[0] == (if n.Object? then '{' else '[') && Text(n) + r != ""
  {
    assert (Text(n) + r)[0] == Text(n)[0];
  }

  lemma StoresMember(n: Node, i: nat)
    requires Reaches(n, i)
    ensures var m := n.members[i];
            var s := Text(m.value) + Beyond(n.members, i, "}");
            && s != "" && s[0] == (if m.value.Object? then '{' else '[')
            && ParseObject(Text(n))
               == ObjectLoop(s[ContainerLength(s)..], KeyState(n.members[..i] + [Member(m.key, ContainerNode(s))]))
  {
    ReachesValue(n, i);
    FirstChar(n.members[i].value, Beyond(n.members, i, "}"));
    StoresContainer(Text(n.members[i].value) + Beyond(n.members, i, "}"), n.members[i].key, n.members[..i]);
  }

  /** What is stored for a member stays: if it is not valid, the object comes back another. */
  lemma WrongMember(n: Node, i: nat, wrong: Node, rest: string)
    requires n.Object? && PartsPrintable(n) && i < |n.members| && Valid(n.members[i].value) && !Valid(wrong)
    ensures ObjectLoop(rest, KeyState(n.members[..i] + [Member(n.members[i].key, wrong)])) != n
  {
    var m := Member(n.members[i].key, wrong);
    var members := n.members[..i] + [m];
    assert members[i] == m;
    LoopKeeps(rest, KeyState(members), m);
    assert !Holds(n.members, m);
  }

  /** A container that closes early is found early, whatever follows. */
  lemma EarlyFound(v: Node, r: string)
    requires ClosesEarly(v)
    ensures var s := Text(v) + r;
            && Closing(s[1..], 1, Text(v)[0], CloseOf(Text(v)[0])) == Found(v)
            && s[..Found(v).value + 1] == EarlyPart(v)
  {
    assert (Text(v) + r)[1..] == Text(v)[1..] + r;
    ClosingPrefix(Text(v)[1..], r, 1, Text(v)[0], CloseOf(Text(v)[0]));
  }

  lemma EarlyMemberFails(n: Node, i: nat)
    requires Reaches(n, i) && ClosesEarly(n.members[i].value)
    ensures ParseObject(Text(n)) != n
  {
    var v := n.members[i].value;
    var r := Beyond(n.members, i, "}");
    var s := Text(v) + r;
    StoresMember(n, i);
    EarlyFound(v, r);
    EarlyIsInvalid(v);
    assert ContainerNode(s) == if v.Object? then ParseObject(EarlyPart(v)) else ParseArray(EarlyPart(v));
    WrongMember(n, i, ContainerNode(s), s[ContainerLength(s)..]);
  }

  /** Behind a container that is still open, a text that closes nothing of its own leaves it
      open. */
  lemma StaysOpen(v: Node, r: string)
    requires Unclosed(v) && Closing(r, 1, Text(v)[0], CloseOf(Text(v)[0])).None?
    ensures Closing((Text(v) + r)[1..], 1, Text(v)[0], CloseOf(Text(v)[0])).None?
  {
    var open, close := Text(v)[0], CloseOf(Text(v)[0]);
    assert (Text(v) + r)[1..] == Text(v)[1..] + r;
    ClosingThrough(Text(v)[1..], r, 1, open, close);
    var level := Level(Text(v)[1..], 1, open, close);
    if level > 1 && Closing(r, level, open, close).Some? {
      ClosesSooner(r, 1, level - 1, open, close);
    }
  }

  /** The last character may close it. */
  lemma TakesAll(s: string)
    requires |s| > 1 && (s[0] == '{' || s[0] == '[')
    requires Closing(s[..|s| - 1][1..], 1, s[0], CloseOf(s[0])).None?
    ensures ContainerLength(s) == |s|
  {
    var a, b := s[..|s| - 1][1..], s[|s| - 1..];
    assert s[1..] == a + b;
    ClosingThrough(a, b, 1, s[0], CloseOf(s[0]));
    assert b[1..] == "";
  }

  lemma TextBehind(members: seq<Member>, i: nat)
    requires i < |members|
    ensures var r := Beyond(members, i, "}");
            r != "" && r[..|r| - 1] == if i == |members| - 1 then "" else "," + MembersText(members[i + 1..])
  {
    if i < |members| - 1 {
      var t := MembersText(members[i + 1..]);
      assert "," + (t + "}") == ("," + t) + "}";
    }
  }

  lemma NothingCloses(r: string, rest: string, open: char, close: char)
    requires Pair(open, close) && (r == "" || r == "," + rest) && Closing(rest, 1, open, close).None?
    ensures Closing(r, 1, open, close).None?
  {
    if r != "" {
      CommaCloses(rest, 1, open, close);
    }
  }

  lemma OpenTakesAll(v: Node, r: string, rest: string)
    requires Unclosed(v) && v.Object? && r != ""
    requires r[..|r| - 1] == "" || r[..|r| - 1] == "," + rest
    requires Closing(rest, 1, '{', '}').None?
    ensures var s := Text(v) + r; s != "" && s[0] == '{' && ContainerLength(s) == |s|
  {
    var s, r' := Text(v) + r, r[..|r| - 1];
    FirstChar(v, r);
    ThreeWays(v);
    NothingCloses(r', rest, '{', '}');
    StaysOpen(v, r');
    assert s[..|s| - 1] == Text(v) + r';
    TakesAll(s);
  }

  /** An object left open takes in all that follows. Nothing is lost if nothing follows. */
  lemma OpenObjectMember(n: Node, i: nat)
    requires Reaches(n, i) && n.members[i].value.Object? && Unclosed(n.members[i].value)
    requires Closing(MembersText(n.members[i + 1..]), 1, '{', '}').None?
    ensures ParseObject(Text(n)) == n <==> i == |n.members| - 1
  {
    var m, r := n.members[i], Beyond(n.members, i, "}");
    var s := Text(m.value) + r;
    StoresMember(n, i);
    TextBehind(n.members, i);
    OpenTakesAll(m.value, r, MembersText(n.members[i + 1..]));
    assert s[|s|..] == "" && s[..|s|] == s;
    assert ParseObject(Text(n)) == FinishObject(KeyState(n.members[..i] + [Member(m.key, ParseObject(s))]));
    if i == |n.members| - 1 {
      ExtraBrace(m.value);
      assert n.members[..i] + [m] == n.members;
      ValidParts(n);
    }
  }

  // ---------------------------------------------------------------- behind the end of an array

  predicate IsNumber(n: Node) {
    n.Int? || n.UInt?
  }

  function BehindItem(items: seq<Node>, i: nat, tail: string): string
    requires i < |items|
  {
    if i == |items| - 1 then tail else "," + (ItemsText(items[i + 1..]) + tail)
  }

  lemma ItemsBefore(items: seq<Node>, i: nat, tail: string)
    requires i < |items|
    ensures ItemsText(items[i..]) + tail == Text(items[i]) + BehindItem(items, i, tail)
  {
    assert items[i..][1..] == items[i + 1..];
    if i == |items| - 1 {
      assert Text(items[i]) + "" == Text(items[i]);
    } else {
      Reassociate(Text(items[i]), ",", ItemsText(items[i + 1..]), tail);
    }
  }

  lemma {:induction false} ReadsItemsUpTo(n: Node, j: nat, i: nat, tail: string)
    requires n.Array? && PartsPrintable(n) && j <= i < |n.items| && tail != ""
    requires forall k :: j <= k < i ==> Delimited(n.items[k])
    ensures ArrayLoop(ItemsText(n.items[j..]) + tail, ArrayState(false, "", n.items[..j]))
            == ArrayLoop(ItemsText(n.items[i..]) + tail, ArrayState(false, "", n.items[..i]))
    decreases i - j
  {
    if j < i {
      ItemsBefore(n.items, j, tail);
      ReadsItemBeforeCut(n, j, ItemsText(n.items[j + 1..]) + tail);
      ReadsItemsUpTo(n, j + 1, i, tail);
    }
  }

  lemma ParseBracketed(u: string)
    requires u != "" && u[|u| - 1] == ']'
    ensures ParseArray("[" + u) == ArrayLoop(u, ArrayState(false, "", []))
  {
    var a := "[" + u;
    assert a[1..] == u && a[|a| - 1] == u[|u| - 1];
    ArrayStart(a);
  }

  lemma BracketStops(e: string, items: seq<Node>)
    requires e != ""
    ensures ArrayLoop("]" + e, ArrayState(false, "", items)) == Invalid
  {
    assert ("]" + e)[0] == ']';
    assert StepArray("]" + e, ArrayState(false, "", items)) == StopArray;
  }

  /** A number takes the character behind it along, even the bracket that ends the array; any
      other item leaves it, and the array is given up there. */
  lemma LastItem(v: Node, e: string, items: seq<Node>)
    requires Printable(v) && Delimited(v) && e != ""
    ensures ArrayLoop(Text(v) + ("]" + e), ArrayState(false, "", items))
            == if IsNumber(v) then ArrayLoop(e, ArrayState(false, "", items + [v])) else Invalid
  {
    var r, st := "]" + e, ArrayState(false, "", items);
    assert r[1..] == e && r != "";
    if IsNumber(v) {
      NumberTakesBracket(v, e, items);
    } else {
      BracketStops(e, items + [v]);
      if v.Str? {
        ReadsStringItem(v.text, r, items);
      } else {
        StepsOther(v, r, st);
        AdvanceItem(Text(v) + r, st, r, Append(st, v));
      }
    }
  }

  lemma NumberTakesBracket(v: Node, e: string, items: seq<Node>)
    requires Printable(v) && IsNumber(v)
    ensures ArrayLoop(Text(v) + ("]" + e), ArrayState(false, "", items)) == ArrayLoop(e, ArrayState(false, "", items + [v]))
  {
    var s, st := Text(v) + ("]" + e), ArrayState(false, "", items);
    ReadsNumber(v, "]" + e);
    assert ("]" + e)[1..] == e && "" + [s[0]] == s[..1];
    assert v.Int? ==> "" + s[..2] == s[..2];
    assert |s| > 1;
    AdvanceItem(s, st, e, Append(st, v));
  }

  lemma StepsOther(v: Node, r: string, st: ArrayState)
    requires Printable(v) && Delimited(v) && !IsNumber(v) && !v.Str? && !st.quoted && r != ""
    ensures |Text(v) + r| > 1 && StepArray(Text(v) + r, st) == NextItem(r, Append(st, v))
  {
    if v.Object? {
      ParsesObject(v);
      StepsNested(Text(v), r, st);
    } else if v.Array? {
      ParsesArray(v);
      StepsNested(Text(v), r, st);
    } else {
      StepsItemLiteral(v, r, st);
    }
  }

  lemma StartsOverrun(v: Node, e: string)
    requires v.Array? && e != "" && e[|e| - 1] == ']'
    ensures ParseArray(Text(v) + e)
            == ArrayLoop(ItemsText(v.items[0..]) + ("]" + e), ArrayState(false, "", v.items[..0]))
  {
    assert v.items[0..] == v.items && v.items[..0] == [];
    BehindBracket(ItemsText(v.items), e);
    ParseBracketed(ItemsText(v.items) + ("]" + e));
  }

  lemma BehindBracket(inside: string, e: string)
    requires e != ""
    ensures "[" + inside + "]" + e == "[" + (inside + ("]" + e))
    ensures var u := inside + ("]" + e); u != "" && u[|u| - 1] == e[|e| - 1]
  {
  }

  /** An array whose text is taken to go on behind its end. */
  lemma Overrun(v: Node, e: string)
    requires v.Array? && Printable(v) && v.items != [] && e != "" && e[|e| - 1] == ']'
    ensures ParseArray(Text(v) + e)
            == if IsNumber(v.items[|v.items| - 1]) then ArrayLoop(e, ArrayState(false, "", v.items)) else Invalid
  {
    var last := |v.items| - 1;
    assert v.items[..last] + [v.items[last]] == v.items;
    StartsOverrun(v, e);
    ReadsItemsUpTo(v, 0, last, "]" + e);
    ItemsBefore(v.items, last, "]" + e);
    LastItem(v.items[last], e, v.items[..last]);
  }

  /** Read on as an array, the next member of an object is no item. */
  lemma MemberIsNoItem(key: string, y: string, e: string, items: seq<Node>)
    requires Raw(key) && BrokenOff(e, "," + (Head(key) + y), ']')
    ensures !Valid(ArrayLoop(e, ArrayState(false, "", items)))
  {
    var st, p := ArrayState(false, "", items), e[1..];
    var whole := "," + (Head(key) + y);
    assert e == whole[..|e|] && e[0] == whole[0] == ',' && whole[1..] == Head(key) + y;
    assert p == (Head(key) + y)[..|p|];
    AdvanceItem(e, st, p, st);
    if |p| <= |Head(key)| {
      HeadCut(key, y, p);
      KeyAsItem(key, p, items);
    } else {
      SplitPrefix(Head(key), y, p);
      ColonStops(key, p[|Head(key)|..], items);
    }
  }

  lemma KeyAsItem(key: string, p: string, items: seq<Node>)
    requires Raw(key) && |p| > 1 && |p| - 1 <= |key| && p == "\"" + key[..|p| - 1] && IsBracket(key[|p| - 2])
    ensures !Valid(ArrayLoop(p, ArrayState(false, "", items)))
  {
    var st := ArrayState(false, "", items);
    assert p[1..] == key[..|p| - 1];
    AdvanceItem(p, st, p[1..], st.(quoted := true));
    CutItemString(key, |p| - 1, "", items);
  }

  lemma ColonStops(key: string, y: string, items: seq<Node>)
    requires Raw(key) && y != ""
    ensures ArrayLoop(Head(key) + y, ArrayState(false, "", items)) == Invalid
  {
    var r := ":" + y;
    assert Head(key) + y == Text(Str(key)) + r && r[0] == ':';
    ReadsStringItem(key, r, items);
    assert StepArray(r, ArrayState(false, "", items + [Str(key)])) == StopArray;
  }

  /** Where the text of an open array ends, if it does. */
  lemma OpenArrayText(v: Node, r: string) returns (e: string)
    requires v.Array? && Unclosed(v)
    ensures var s := Text(v) + r;
            && s != "" && s[0] == '['
            && (Closing(s[1..], 1, '[', ']').Some? ==>
                  Prefix(e, r) && e != "" && e[|e| - 1] == ']' && s[..ContainerLength(s)] == Text(v) + e)
  {
    var s := Text(v) + r;
    FirstChar(v, r);
    ThreeWays(v);
    e := "";
    if Closing(s[1..], 1, '[', ']').Some? {
      var k := ContainerLength(s);
      e := OpenArrayEnd(Text(v), r, k);
    }
  }

  lemma OpenArrayEnd(t: string, r: string, k: nat) returns (e: string)
    requires t != "" && Closing(t[1..], 1, '[', ']').None?
    requires k > 0 && Closing((t + r)[1..], 1, '[', ']') == Some(k - 1)
    ensures k <= |t + r| && Prefix(e, r) && e != "" && e[|e| - 1] == ']' && (t + r)[..k] == t + e
  {
    assert (t + r)[1..] == t[1..] + r;
    ClosingThrough(t[1..], r, 1, '[', ']');
    e := r[..k - |t|];
  }

  lemma BracketCloses()
    ensures Closing("]", 1, '[', ']') == Some(1)
  {
    assert "]"[1..] == "";
  }

  lemma OpenIsNotEmpty(v: Node)
    requires v.Array? && Unclosed(v)
    ensures v.items != []
  {
    BracketCloses();
    assert v.items == [] ==> Text(v)[1..] == "]";
  }

  lemma OpenArrayIsInvalid(n: Node, i: nat)
    requires Reaches(n, i) && n.members[i].value.Array? && Unclosed(n.members[i].value)
    ensures var s := Text(n.members[i].value) + Beyond(n.members, i, "}");
            s != "" && s[0] == '[' && !Valid(ContainerNode(s))
  {
    var v, r := n.members[i].value, Beyond(n.members, i, "}");
    var s := Text(v) + r;
    var e := OpenArrayText(v, r);
    if Closing(s[1..], 1, '[', ']').Some? {
      OpenIsNotEmpty(v);
      Overrun(v, e);
      assert ContainerNode(s) == ParseArray(Text(v) + e);
      if i < |n.members| - 1 {
        MembersFrom(n.members, i + 1, "}");
        var y := Text(n.members[i + 1].value) + Beyond(n.members, i + 1, "}");
        EndsWithBrace(n.members, i, e);
        MemberIsNoItem(n.members[i + 1].key, y, e, v.items);
      }
    }
  }

  lemma EndsWithBrace(members: seq<Member>, i: nat, e: string)
    requires i < |members| && e != "" && e[|e| - 1] == ']' && Prefix(e, Beyond(members, i, "}"))
    ensures |e| < |Beyond(members, i, "}")|
  {
    assert e[|e| - 1] == Beyond(members, i, "}")[|e| - 1];
    if i < |members| - 1 {
      var t := MembersText(members[i + 1..]);
      assert "," + (t + "}") == ("," + t) + "}";
    }
  }

  /** An array that is left open takes in what follows, and is not valid. */
  lemma OpenArrayMember(n: Node, i: nat)
    requires Reaches(n, i) && n.members[i].value.Array? && Unclosed(n.members[i].value)
    ensures ParseObject(Text(n)) != n
  {
    var s := Text(n.members[i].value) + Beyond(n.members, i, "}");
    StoresMember(n, i);
    OpenArrayIsInvalid(n, i);
    WrongMember(n, i, ContainerNode(s), s[ContainerLength(s)..]);
  }

  /** The first member whose end is not found by its brackets decides: the object comes back only
      if that member is an object left open, and the last one. */
  lemma MemberDecides(n: Node, i: nat)
    requires Reaches(n, i) && !Delimited(n.members[i].value)
    requires n.members[i].value.Object? && Unclosed(n.members[i].value) ==>
               Closing(MembersText(n.members[i + 1..]), 1, '{', '}').None?
    ensures ParseObject(Text(n)) == n <==>
            n.members[i].value.Object? && Unclosed(n.members[i].value) && i == |n.members| - 1
  {
    var v := n.members[i].value;
    ThreeWays(v);
    if ClosesEarly(v) {
      EarlyMemberFails(n, i);
    } else if v.Object? {
      OpenObjectMember(n, i);
    } else {
      OpenArrayMember(n, i);
    }
  }

  // ---------------------------------------------------------------- in an array

  /** `n` is an array whose item `i` is a container, with nothing but containers that are found
      before it. */
  predicate ReachesItem(n: Node, i: nat) {
    && n.Array? && PartsPrintable(n) && i < |n.items| && IsContainer(n.items[i])
    && forall k :: 0 <= k < i ==> Delimited(n.items[k])
  }

  lemma ReachesContainer(n: Node, i: nat)
    requires ReachesItem(n, i)
    ensures ParseArray(Text(n))
            == ArrayLoop(Text(n.items[i]) + BehindItem(n.items, i, "]"), ArrayState(false, "", n.items[..i]))
  {
    assert n.items[0..] == n.items && n.items[..0] == [];
    assert Text(n) == "[" + (ItemsText(n.items) + "]");
    ParseBracketed(ItemsText(n.items) + "]");
    ReadsItemsUpTo(n, 0, i, "]");
    ItemsBefore(n.items, i, "]");
  }

  predicate HasInvalid(items: seq<Node>) {
    exists k :: 0 <= k < |items| && !Valid(items[k])
  }

  /** An item that is not valid stays, and with it the array. */
  lemma {:induction false} ArrayStaysInvalid(s: string, st: ArrayState)
    requires HasInvalid(st.items)
    ensures !Valid(ArrayLoop(s, st))
    decreases |s|
  {
    if |s| > 1 {
      match StepArray(s, st)
      case StopArray =>
      case NextItem(rest, st') =>
        ItemsGrow(s, st);
        ArrayStaysInvalid(rest, st');
    }
  }

  lemma ItemsGrow(s: string, st: ArrayState)
    requires |s| > 1 && StepArray(s, st).NextItem? && HasInvalid(st.items)
    ensures HasInvalid(StepArray(s, st).st.items)
  {
    var k :| 0 <= k < |st.items| && !Valid(st.items[k]);
    var items := StepArray(s, st).st.items;
    assert items == st.items || items == st.items + [items[|items| - 1]];
    assert items[k] == st.items[k];
  }

  lemma WrongItem(s: string, items: seq<Node>, wrong: Node)
    requires !Valid(wrong)
    ensures !Valid(ArrayLoop(s, ArrayState(false, "", items + [wrong])))
  {
    assert (items + [wrong])[|items|] == wrong;
    ArrayStaysInvalid(s, ArrayState(false, "", items + [wrong]));
  }

  lemma BehindItems(items: seq<Node>, i: nat)
    requires i < |items|
    ensures var r := BehindItem(items, i, "]");
            r != "" && r[|r| - 1] == ']'
            && r[..|r| - 1] == if i == |items| - 1 then "" else "," + ItemsText(items[i + 1..])
  {
    if i < |items| - 1 {
      var t := ItemsText(items[i + 1..]);
      assert "," + (t + "]") == ("," + t) + "]";
    }
  }

  /** What the scan for the end of a nested container sees: all but the last character. */
  lemma SeenInArray(v: Node, r: string)
    requires IsContainer(v) && r != ""
    ensures var s := Text(v) + r;
            && |s| > 1 && s[0] == (if v.Object? then '{' else '[') == Text(v)[0]
            && s[..|s| - 1] == Text(v) + r[..|r| - 1]
  {
    FirstChar(v, r);
    assert Text(v) != "";
  }

  lemma StepsEarly(v: Node, r: string, st: ArrayState)
    requires ClosesEarly(v) && r != "" && !st.quoted
    ensures var s := Text(v) + r;
            && |s| > 1
            && StepArray(s, st)
               == NextItem(s[Found(v).value + 1..],
                           Append(st, if v.Object? then ParseObject(EarlyPart(v)) else ParseArray(EarlyPart(v))))
  {
    var s := Text(v) + r;
    SeenInArray(v, r);
    EarlyFound(v, r[..|r| - 1]);
    EarlyFound(v, r);
  }

  lemma EarlyItemFails(n: Node, i: nat)
    requires ReachesItem(n, i) && ClosesEarly(n.items[i])
    ensures ParseArray(Text(n)) != n
  {
    var v, r, st := n.items[i], BehindItem(n.items, i, "]"), ArrayState(false, "", n.items[..i]);
    var node := if v.Object? then ParseObject(EarlyPart(v)) else ParseArray(EarlyPart(v));
    ReachesContainer(n, i);
    BehindItems(n.items, i);
    StepsEarly(v, r, st);
    EarlyIsInvalid(v);
    AdvanceItem(Text(v) + r, st, (Text(v) + r)[Found(v).value + 1..], Append(st, node));
    WrongItem((Text(v) + r)[Found(v).value + 1..], n.items[..i], node);
  }

  lemma StepsOpenObject(s: string, st: ArrayState)
    requires |s| > 1 && s[0] == '{' && !st.quoted && s[|s| - 1] == ']'
    requires Closing(s[..|s| - 1][1..], 1, '{', '}').None?
    ensures ArrayLoop(s, st) == FinishArray(Append(st, ParseObject(s[..|s| - 1])))
  {
    var inner := s[..|s| - 1];
    assert inner[0] == '{' && ContainerLength(inner) == |inner| && s[|inner|..] == "]";
    AdvanceItem(s, st, "]", Append(st, ParseObject(inner)));
  }

  lemma StepsOpenArray(s: string, st: ArrayState)
    requires |s| > 1 && s[0] == '[' && !st.quoted
    requires Closing(s[..|s| - 1][1..], 1, '[', ']').None?
    ensures ArrayLoop(s, st) == FinishArray(Append(st, ParseArray(s)))
  {
    AdvanceItem(s, st, "", Append(st, ParseArray(s)));
  }

  /** A container left open takes in all that follows in the array: the bracket that ends it as
      well, if it is an array. */
  lemma OpenItem(n: Node, i: nat) returns (node: Node)
    requires ReachesItem(n, i) && Unclosed(n.items[i])
    requires Closing(ItemsText(n.items[i + 1..]), 1, Text(n.items[i])[0], CloseOf(Text(n.items[i])[0])).None?
    ensures ParseArray(Text(n)) == FinishArray(ArrayState(false, "", n.items[..i] + [node]))
    ensures i == |n.items| - 1 ==>
              node == if n.items[i].Object? then ParseObject(Text(n.items[i])) else ParseArray(Text(n.items[i]) + "]")
  {
    var v, r, st := n.items[i], BehindItem(n.items, i, "]"), ArrayState(false, "", n.items[..i]);
    var s := Text(v) + r;
    ReachesContainer(n, i);
    BehindItems(n.items, i);
    SeenInArray(v, r);
    NothingCloses(r[..|r| - 1], ItemsText(n.items[i + 1..]), s[0], CloseOf(s[0]));
    StaysOpen(v, r[..|r| - 1]);
    LastTaken(Text(v));
    if v.Object? {
      StepsOpenObject(s, st);
      node := ParseObject(s[..|s| - 1]);
    } else {
      StepsOpenArray(s, st);
      node := ParseArray(s);
    }
  }

  lemma LastTaken(t: string)
    ensures (t + "]")[..|t + "]"| - 1] == t
  {
  }

  /** The last item, left open: an object ends with the array all the same; an array ends with the
      array around it, if its own bracket went with a number. */
  lemma LastOpenItem(v: Node)
    requires Unclosed(v) && Printable(v)
    ensures v.Object? ==> ParseObject(Text(v)) == v
    ensures v.Array? ==> v.items != [] && (ParseArray(Text(v) + "]") == v <==> IsNumber(v.items[|v.items| - 1]))
  {
    if v.Object? {
      ParsesObject(v);
    } else {
      OpenIsNotEmpty(v);
      Overrun(v, "]");
      ValidParts(v);
    }
  }

  predicate EndsInNumber(n: Node) {
    n.Array? && n.items != [] && IsNumber(n.items[|n.items| - 1])
  }

  lemma OpenItemDecides(n: Node, i: nat)
    requires ReachesItem(n, i) && Unclosed(n.items[i])
    requires Closing(ItemsText(n.items[i + 1..]), 1, Text(n.items[i])[0], CloseOf(Text(n.items[i])[0])).None?
    ensures ParseArray(Text(n)) == n <==> i == |n.items| - 1 && (n.items[i].Object? || EndsInNumber(n.items[i]))
  {
    var node := OpenItem(n, i);
    if i == |n.items| - 1 {
      LastOpenItem(n.items[i]);
      OnlyItself(n, node);
    } else {
      assert |n.items[..i] + [node]| < |n.items|;
    }
  }

  lemma OnlyItself(n: Node, last: Node)
    requires n.Array? && PartsPrintable(n) && n.items != []
    ensures var i := |n.items| - 1;
            FinishArray(ArrayState(false, "", n.items[..i] + [last])) == n <==> last == n.items[i]
  {
    var i := |n.items| - 1;
    assert n.items[..i] + [n.items[i]] == n.items;
    assert (n.items[..i] + [last])[i] == last;
    ValidParts(n);
  }

  /** The first item whose end is not found by its brackets decides: the array comes back only if
      that item is the last one and left open, an object or an array that ends in a number. */
  lemma ItemDecides(n: Node, i: nat)
    requires ReachesItem(n, i) && !Delimited(n.items[i])
    requires Unclosed(n.items[i]) ==>
               Closing(ItemsText(n.items[i + 1..]), 1, Text(n.items[i])[0], CloseOf(Text(n.items[i])[0])).None?
    ensures ParseArray(Text(n)) == n <==>
            Unclosed(n.items[i]) && i == |n.items| - 1 && (n.items[i].Object? || EndsInNumber(n.items[i]))
  {
    ThreeWays(n.items[i]);
    if ClosesEarly(n.items[i]) {
      EarlyItemFails(n, i);
    } else {
      OpenItemDecides(n, i);
    }
  }

  // ---------------------------------------------------------------- strings

  lemma QuoteAndClose(level: nat, open: char, close: char)
    requires Pair(open, close) && level > 0
    ensures Closing("\"" + [close], level, open, close) == if level == 1 then Some(2) else None
  {
    var e := "\"" + [close];
    assert e[0] == '"' && e[1..] == [close] && [close][1..] == "";
    assert Closing([close], level, open, close) == if level == 1 then Some(1) else None;
  }

  lemma StringEnds(s: string, open: char, close: char)
    requires Pair(open, close)
    ensures var t := s + ("\"" + [close]);
            var n := Closing(t, 1, open, close);
            && (Closing(s, 1, open, close).Some? <==> n.Some? && n.value < |t|)
            && (n == Some(|t|) <==> Balanced(s, open, close))
  {
    var e := "\"" + [close];
    if Closing(s, 1, open, close).Some? {
      ClosingPrefix(s, e, 1, open, close);
    } else {
      ClosingThrough(s, e, 1, open, close);
      QuoteAndClose(Level(s, 1, open, close), open, close);
    }
  }

  /** Where a container that holds one string is taken to end. */
  lemma StringFound(head: string, s: string, open: char, close: char)
    requires Pair(open, close) && Balanced(head, open, close)
    ensures var t := head + (s + ("\"" + [close]));
            var n := Closing(t, 1, open, close);
            && (Closing(s, 1, open, close).Some? <==> n.Some? && n.value < |t|)
            && (n == Some(|t|) <==> Balanced(s, open, close))
  {
    StringEnds(s, open, close);
    ClosingThrough(head, s + ("\"" + [close]), 1, open, close);
  }

  function ObjectOf(key: string, s: string): Node {
    Object(true, [Member(key, Str(s))])
  }

  lemma ObjectOfFound(key: string, s: string)
    requires Balanced(key, '{', '}')
    ensures var v := ObjectOf(key, s);
            && (ClosesEarly(v) <==> Closing(s, 1, '{', '}').Some?)
            && (Delimited(v) <==> Balanced(s, '{', '}'))
  {
    ObjectOfText(key, s);
    BalancedHead(key);
    StringFound(Head(key) + "\"", s, '{', '}');
    ThreeWays(ObjectOf(key, s));
  }

  lemma ObjectOfText(key: string, s: string)
    ensures Text(ObjectOf(key, s))[1..] == (Head(key) + "\"") + (s + ("\"" + "}"))
  {
    OneMember(Member(key, Str(s)));
    assert Text(ObjectOf(key, s)) == "{" + (Head(key) + ("\"" + s + "\"")) + "}";
  }

  lemma BalancedHead(key: string)
    requires Balanced(key, '{', '}')
    ensures Balanced(Head(key) + "\"", '{', '}')
  {
    PlainIsBalanced("\"", '{', '}');
    PlainIsBalanced("\":", '{', '}');
    BalancedConcat("\"", key, '{', '}');
    BalancedConcat("\"" + key, "\":", '{', '}');
    BalancedConcat(Head(key), "\"", '{', '}');
  }

  function ArrayOf(s: string): Node {
    Array(true, [Str(s)])
  }

  lemma OneItem(s: string)
    ensures Text(ArrayOf(s))[1..] == "\"" + (s + ("\"" + "]"))
  {
    assert ItemsText([Str(s)]) == Text(Str(s));
  }

  lemma ArrayOfFound(s: string)
    ensures var v := ArrayOf(s);
            && (ClosesEarly(v) <==> Closing(s, 1, '[', ']').Some?)
            && (Delimited(v) <==> Balanced(s, '[', ']'))
  {
    var v := ArrayOf(s);
    OneItem(s);
    PlainIsBalanced("\"", '[', ']');
    StringFound("\"", s, '[', ']');
    ThreeWays(v);
  }

  /** All that follows is found by its brackets. */
  predicate AllDelimited(members: seq<Member>) {
    forall k :: 0 <= k < |members| ==> Delimited(members[k].value)
  }

  function Followed(key: string, v: Node, rest: seq<Member>): Node {
    Object(true, [Member(key, v)] + rest)
  }

  lemma FoundFirst(key: string, v: Node, rest: seq<Member>)
    requires IsContainer(v) && PartsPrintable(Followed(key, v, rest)) && AllDelimited(rest)
    ensures var n := Followed(key, v, rest);
            Reaches(n, 0) && n.members[0].value == v && n.members[1..] == rest
            && (Delimited(v) ==> ParseObject(Text(n)) == n)
  {
    var n := Followed(key, v, rest);
    if Delimited(v) {
      forall k | 0 <= k < |n.members| ensures Delimited(n.members[k].value) {
        assert k > 0 ==> n.members[k] == rest[k - 1];
      }
      ParsesObject(n);
    }
  }

  /** A string in an object in an object: its braces decide, and unless other members follow, only
      one that closes too much does harm. */
  lemma BracesDecide(outer: string, inner: string, s: string, rest: seq<Member>)
    requires PartsPrintable(Followed(outer, ObjectOf(inner, s), rest)) && AllDelimited(rest)
    requires Balanced(inner, '{', '}') && Closing(MembersText(rest), 1, '{', '}').None?
    ensures var n := Followed(outer, ObjectOf(inner, s), rest);
            ParseObject(Text(n)) == n <==>
            if rest == [] then Closing(s, 1, '{', '}').None? else Balanced(s, '{', '}')
  {
    var v := ObjectOf(inner, s);
    FoundFirst(outer, v, rest);
    ObjectOfFound(inner, s);
    ThreeWays(v);
    if !Delimited(v) {
      MemberDecides(Followed(outer, v, rest), 0);
    }
  }

  /** A string in an array in an object: its square brackets decide, whatever follows. */
  lemma BracketsDecide(key: string, s: string, rest: seq<Member>)
    requires PartsPrintable(Followed(key, ArrayOf(s), rest)) && AllDelimited(rest)
    ensures var n := Followed(key, ArrayOf(s), rest);
            ParseObject(Text(n)) == n <==> Balanced(s, '[', ']')
  {
    var v := ArrayOf(s);
    FoundFirst(key, v, rest);
    ArrayOfFound(s);
    if !Delimited(v) {
      MemberDecides(Followed(key, v, rest), 0);
    }
  }

  /** A container that is found comes back with its object exactly if it comes back by itself. */
  lemma FoundDecides(key: string, v: Node)
    requires Raw(key) && IsContainer(v) && Delimited(v) && v.valid
    ensures var n := Object(true, [Member(key, v)]);
            ParseObject(Text(n)) == n <==> (if v.Object? then ParseObject(Text(v)) else ParseArray(Text(v))) == v
  {
    var n := Object(true, [Member(key, v)]);
    OneMember(n.members[0]);
    assert Text(n) == "{" + (Head(key) + (Text(v) + "}"));
    ThreeWays(v);
    ReadsFound(key, Text(v), if v.Object? then ParseObject(Text(v)) else ParseArray(Text(v)));
  }

  lemma ReadsFound(key: string, t: string, node: Node)
    requires Raw(key) && Encloses(t) && node == if t[0] == '{' then ParseObject(t) else ParseArray(t)
    ensures ParseObject("{" + (Head(key) + (t + "}"))) == FinishObject(KeyState([Member(key, node)]))
  {
    var members := [Member(key, node)];
    ParseBraced(Head(key) + (t + "}"));
    ReadsHead(key, t + "}", []);
    StepsContainer(t, "}", ValueState(key, []));
    Advance(t + "}", ValueState(key, []), "}", KeyState(members));
    SkipsSeparator("}", members);
    assert "}"[1..] == "";
  }
}
