/** Brackets inside strings: which trees the bracket-counting scans of the parser tolerate. */
module JsonBrackets {
  import opened Options
  import opened JsonText
  import opened JsonParser
  import opened JsonRoundTrip

  /** The bracket depth after `s`, should it never reach zero on the way. */
  function Level(s: string, depth: int, open: char, close: char): int {
    if s == "" then depth
    else
      var d := if s[0] == open then depth + 1 else depth;
      Level(s[1..], if s[0] == close then d - 1 else d, open, close)
  }

  /** `s` closes nothing it did not open, and opens nothing it does not close. */
  predicate Balanced(s: string, open: char, close: char) {
    Closing(s, 1, open, close).None? && Level(s, 1, open, close) == 1
  }

  predicate BracketFree(s: string) {
    forall i :: 0 <= i < |s| ==> !IsBracket(s[i])
  }

  /** Every key and string of the tree is balanced in braces and in square brackets. */
  predicate StringsBalanced(n: Node)
    decreases n
  {
    match n
    case Object(_, members) =>
      forall i :: 0 <= i < |members| ==>
        BalancedBoth(members[i].key) && StringsBalanced(members[i].value)
    case Array(_, items) => forall i :: 0 <= i < |items| ==> StringsBalanced(items[i])
    case Str(text) => BalancedBoth(text)
    case _ => true
  }

  predicate BalancedBoth(s: string) {
    Balanced(s, '{', '}') && Balanced(s, '[', ']')
  }

  predicate Pair(open: char, close: char) {
    (open == '{' && close == '}') || (open == '[' && close == ']')
  }

  function Shift(n: Option<nat>, steps: nat): Option<nat> {
    match n
    case None => None
    case Some(k) => Some(k + steps)
  }

  lemma {:induction false} ClosingThrough(a: string, b: string, depth: nat, open: char, close: char)
    requires depth > 0 && open != close && Closing(a, depth, open, close).None?
    ensures Level(a, depth, open, close) > 0
    ensures Closing(a + b, depth, open, close) == Shift(Closing(b, Level(a, depth, open, close), open, close), |a|)
    decreases |a|
  {
    if a == "" {
      assert a + b == b;
    } else {
      assert (a + b)[1..] == a[1..] + b;
      ClosingThrough(a[1..], b, Depth(a[0], depth, open, close), open, close);
    }
  }

  lemma {:induction false} LevelConcat(a: string, b: string, depth: int, open: char, close: char)
    ensures Level(a + b, depth, open, close) == Level(b, Level(a, depth, open, close), open, close)
    decreases |a|
  {
    if a == "" {
      assert a + b == b;
    } else {
      assert (a + b)[1..] == a[1..] + b;
      var d := if a[0] == open then depth + 1 else depth;
      LevelConcat(a[1..], b, if a[0] == close then d - 1 else d, open, close);
    }
  }

  /** Starting deeper, the same text stays open and ends deeper by as much. */
  lemma {:induction false} Deeper(s: string, depth: nat, open: char, close: char)
    requires depth > 0 && open != close && Closing(s, depth, open, close).None?
    ensures Closing(s, depth + 1, open, close).None?
    ensures Level(s, depth + 1, open, close) == Level(s, depth, open, close) + 1
    decreases |s|
  {
    if s != "" {
      Deeper(s[1..], Depth(s[0], depth, open, close), open, close);
    }
  }

  lemma BalancedConcat(a: string, b: string, open: char, close: char)
    requires open != close && Balanced(a, open, close) && Balanced(b, open, close)
    ensures Balanced(a + b, open, close)
  {
    ClosingThrough(a, b, 1, open, close);
    LevelConcat(a, b, 1, open, close);
  }

  lemma BalancedOwn(s: string, open: char, close: char)
    requires Pair(open, close) && Balanced(s, open, close)
    ensures Closing(s + [close], 2, open, close).None? && Level(s + [close], 2, open, close) == 1
  {
    assert [close][1..] == "";
    Deeper(s, 1, open, close);
    ClosingThrough(s, [close], 2, open, close);
    LevelConcat(s, [close], 2, open, close);
  }

  lemma BalancedForeign(s: string, open: char, close: char, c: char)
    requires Pair(open, close) && Balanced(s, open, close) && c != open && c != close
    ensures Closing(s + [c], 1, open, close).None? && Level(s + [c], 1, open, close) == 1
  {
    assert [c][1..] == "";
    ClosingThrough(s, [c], 1, open, close);
    LevelConcat(s, [c], 1, open, close);
  }

  lemma BalancedWrapped(s: string, open: char, close: char, o: char, c: char)
    requires Pair(open, close) && Pair(o, c) && Balanced(s, open, close)
    ensures Balanced([o] + s + [c], open, close)
  {
    var t := [o] + s + [c];
    assert t[0] == o && t[1..] == s + [c];
    if o == open {
      BalancedOwn(s, open, close);
    } else {
      BalancedForeign(s, open, close, c);
    }
  }

  lemma {:induction false} PlainIsBalanced(s: string, open: char, close: char)
    requires Pair(open, close) && BracketFree(s)
    ensures Balanced(s, open, close)
  {
    if s != "" {
      PlainIsBalanced(s[1..], open, close);
    }
  }

  lemma {:induction false} TextBalanced(n: Node, open: char, close: char)
    requires Pair(open, close) && WellTypedAll(n) && StringsBalanced(n)
    ensures Balanced(Text(n), open, close)
    decreases n, 1, 0
  {
    match n {
      case Object(_, _) =>
        MembersBalanced(n, 0, open, close);
        assert n.members[0..] == n.members;
        BalancedWrapped(MembersText(n.members), open, close, '{', '}');
      case Array(_, _) =>
        ItemsBalanced(n, 0, open, close);
        assert n.items[0..] == n.items;
        BalancedWrapped(ItemsText(n.items), open, close, '[', ']');
      case Str(text) =>
        PlainIsBalanced("\"", open, close);
        BalancedConcat("\"", text, open, close);
        BalancedConcat("\"" + text, "\"", open, close);
      case Int(i) =>
        DecimalOfDigits(if i < 0 then -i else i);
        PlainIsBalanced(Text(n), open, close);
      case UInt(u) =>
        DecimalOfDigits(u);
        PlainIsBalanced(Text(n), open, close);
      case _ => PlainIsBalanced(Text(n), open, close);
    }
  }

  /** Well typed at every level, nothing being said about brackets. */
  predicate WellTypedAll(n: Node)
    decreases n
  {
    && WellTyped(n)
    && (n.Object? ==> forall i :: 0 <= i < |n.members| ==> WellTypedAll(n.members[i].value))
    && (n.Array? ==> forall i :: 0 <= i < |n.items| ==> WellTypedAll(n.items[i]))
  }

  lemma MemberBalanced(m: Member, tail: string, open: char, close: char)
    requires Pair(open, close) && Balanced(m.key, open, close) && Balanced(Text(m.value), open, close)
    requires Balanced(tail, open, close)
    ensures Balanced("\"" + m.key + "\":" + Text(m.value) + tail, open, close)
  {
    PlainIsBalanced("\"", open, close);
    PlainIsBalanced("\":", open, close);
    BalancedConcat("\"", m.key, open, close);
    BalancedConcat("\"" + m.key, "\":", open, close);
    BalancedConcat("\"" + m.key + "\":", Text(m.value), open, close);
    BalancedConcat("\"" + m.key + "\":" + Text(m.value), tail, open, close);
  }

  lemma {:induction false} MembersBalanced(n: Node, i: nat, open: char, close: char)
    requires Pair(open, close) && n.Object? && WellTypedAll(n) && StringsBalanced(n) && i <= |n.members|
    ensures Balanced(MembersText(n.members[i..]), open, close)
    decreases n, 0, |n.members| - i
  {
    if i < |n.members| {
      var m, rest := n.members[i], n.members[i + 1..];
      assert n.members[i..][1..] == rest;
      TextBalanced(m.value, open, close);
      MembersBalanced(n, i + 1, open, close);
      PlainIsBalanced(",", open, close);
      BalancedConcat(",", MembersText(rest), open, close);
      PlainIsBalanced("", open, close);
      MemberBalanced(m, if rest == [] then "" else "," + MembersText(rest), open, close);
    }
  }

  lemma {:induction false} ItemsBalanced(n: Node, i: nat, open: char, close: char)
    requires Pair(open, close) && n.Array? && WellTypedAll(n) && StringsBalanced(n) && i <= |n.items|
    ensures Balanced(ItemsText(n.items[i..]), open, close)
    decreases n, 0, |n.items| - i
  {
    if i < |n.items| {
      var rest := n.items[i + 1..];
      assert n.items[i..][1..] == rest;
      TextBalanced(n.items[i], open, close);
      ItemsBalanced(n, i + 1, open, close);
      PlainIsBalanced(",", open, close);
      BalancedConcat(",", ItemsText(rest), open, close);
      PlainIsBalanced("", open, close);
      BalancedConcat(Text(n.items[i]), if rest == [] then "" else "," + ItemsText(rest), open, close);
    }
  }

  /** A container whose inside is balanced in its own brackets is found by its brackets. */
  lemma BalancedInside(s: string, open: char, close: char)
    requires Pair(open, close) && Balanced(s, open, close)
    ensures Closing(s + [close], 1, open, close) == Some(|s| + 1)
  {
    ClosingThrough(s, [close], 1, open, close);
  }

  lemma {:induction false} BalancedIsPrintable(n: Node)
    requires WellTypedAll(n) && StringsBalanced(n)
    ensures Printable(n) && Delimited(n)
    decreases n
  {
    if n.Object? {
      forall i | 0 <= i < |n.members|
        ensures Printable(n.members[i].value) && Delimited(n.members[i].value)
      {
        BalancedIsPrintable(n.members[i].value);
      }
      MembersBalanced(n, 0, '{', '}');
      assert n.members[0..] == n.members;
      BalancedInside(MembersText(n.members), '{', '}');
      assert Text(n)[1..] == MembersText(n.members) + "}";
    } else if n.Array? {
      forall i | 0 <= i < |n.items|
        ensures Printable(n.items[i]) && Delimited(n.items[i])
      {
        BalancedIsPrintable(n.items[i]);
      }
      ItemsBalanced(n, 0, '[', ']');
      assert n.items[0..] == n.items;
      BalancedInside(ItemsText(n.items), '[', ']');
      assert Text(n)[1..] == ItemsText(n.items) + "]";
    }
  }

  /** The round trip for every tree whose strings and keys are balanced; strings without
      brackets are (`PlainIsBalanced`). */
  lemma RoundTrip(n: Node)
    requires n.Object? && WellTypedAll(n) && StringsBalanced(n)
    ensures ParseObject(Text(n)) == n && n.valid
  {
    BalancedIsPrintable(n);
    ParsesObject(n);
  }

  // ---------------------------------------------------------------- what an object keeps

  predicate Holds(members: seq<Member>, m: Member) {
    exists i :: 0 <= i < |members| && members[i] == m
  }

  lemma {:induction false} EmplaceKeeps(members: seq<Member>, added: Member, m: Member)
    requires Holds(members, m)
    ensures Holds(Emplace(members, added), m)
    decreases |members|
  {
    var i :| 0 <= i < |members| && members[i] == m;
    var r := Emplace(members, added);
    if Less(added.key, members[0].key) {
      assert r[i + 1] == m;
    } else if added.key == members[0].key || i == 0 {
      assert r[i] == m;
    } else {
      assert members[1..][i - 1] == m;
      EmplaceKeeps(members[1..], added, m);
      var j :| 0 <= j < |Emplace(members[1..], added)| && Emplace(members[1..], added)[j] == m;
      assert r[j + 1] == m;
    }
  }

  lemma PlainEmplaces(s: string, st: ObjectState) returns (node: Node)
    requires s != "" && !st.isKey && !st.quoted && s[0] != '{' && s[0] != '['
    ensures match PlainStep(s, st)
            case Stop(n) => n.Object? && n.members == st.members
            case Next(_, st') => st'.members == st.members || st'.members == Emplace(st.members, Member(st.key, node))
  {
    node := Null;
    if s[0] == '-' && |s| >= 2 {
      match ScanNumber(s[2..], st.value + s[..2], false, true) {
        case Finished(n, _) => node := n;
        case _ =>
      }
    } else if IsDigit(s[0]) {
      match ScanNumber(s[1..], st.value + [s[0]], false, false) {
        case Finished(n, _) => node := n;
        case _ =>
      }
    } else if Literal(s, 0).Some? {
      node := Literal(s, 0).value.0;
    }
  }

  /** A step adds at most one member, by `Emplace`; `node` is its value. */
  lemma StepEmplaces(s: string, st: ObjectState) returns (node: Node)
    requires s != ""
    ensures match StepObject(s, st)
            case Stop(n) => n.Object? && n.members == st.members
            case Next(_, st') => st'.members == st.members || st'.members == Emplace(st.members, Member(st.key, node))
  {
    if st.isKey || st.quoted {
      node := Str(st.value);
    } else if s[0] == '{' || s[0] == '[' {
      node := ContainerNode(s);
    } else {
      node := PlainEmplaces(s, st);
    }
  }

  lemma StepKeeps(s: string, st: ObjectState, m: Member)
    requires s != "" && Holds(st.members, m)
    ensures match StepObject(s, st)
            case Stop(node) => node.Object? && Holds(node.members, m)
            case Next(_, st') => Holds(st'.members, m)
  {
    var node := StepEmplaces(s, st);
    EmplaceKeeps(st.members, Member(st.key, node), m);
  }

  /** What an object once holds under a key stays there, whatever is read later. */
  lemma {:induction false} LoopKeeps(s: string, st: ObjectState, m: Member)
    requires Holds(st.members, m)
    ensures ObjectLoop(s, st).Object? && Holds(ObjectLoop(s, st).members, m)
    decreases |s|
  {
    if s != "" {
      StepKeeps(s, st, m);
      match StepObject(s, st)
      case Stop(_) =>
      case Next(rest, st') =>
        LoopKeeps(rest, st', m);
        Advance(s, st, rest, st');
    }
  }

  function Head(key: string): string {
    "\"" + key + "\":"
  }

  lemma OneMember(m: Member)
    ensures MembersText([m]) == Head(m.key) + Text(m.value)
  {
  }

  lemma ParseBraced(u: string)
    requires u != "" && u[|u| - 1] == '}'
    ensures ParseObject("{" + u) == ObjectLoop(u, KeyState([]))
  {
    assert ("{" + u)[1..] == u;
  }

  lemma ReadsHead(key: string, r: string, members: seq<Member>)
    requires Raw(key)
    ensures ObjectLoop(Head(key) + r, KeyState(members)) == ObjectLoop(r, ValueState(key, members))
  {
    var s, st := Head(key) + r, KeyState(members);
    assert s[1..] == key + "\"" + (":" + r);
    Advance(s, st, s[1..], st.(quoted := true));
    ReadsKey(key, ":" + r, "", members);
    assert "" + key == key && (":" + r)[1..] == r;
    Advance(":" + r, ValueState(key, members), r, ValueState(key, members));
  }

  lemma OnlyMember(m: Member)
    ensures Holds([m], m)
  {
    assert [m][0] == m;
  }
}
