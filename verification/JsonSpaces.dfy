/** Blanks between the tokens: the parser passes over them. */
module JsonSpaces {
  import opened Options
  import opened JsonText
  import opened JsonParser
  import opened JsonRoundTrip
  import opened JsonBrackets

  predicate Blank(s: string) {
    forall i :: 0 <= i < |s| ==> s[i] == ' ' || s[i] == '\n' || s[i] == '\t'
  }

  // ---------------------------------------------------------------- passing over

  /** Outside quotes, wherever the reader of an object stands, blanks change nothing. */
  lemma {:induction false} PassesBlanks(b: string, r: string, st: ObjectState)
    requires Blank(b) && !st.quoted
    ensures ObjectLoop(b + r, st) == ObjectLoop(r, st)
    decreases |b|
  {
    if b == "" {
      assert b + r == r;
    } else {
      assert (b + r)[1..] == b[1..] + r;
      Advance(b + r, st, b[1..] + r, st);
      PassesBlanks(b[1..], r, st);
    }
  }

  /** The same in an array, before its closing bracket. */
  lemma {:induction false} PassesBlankItems(b: string, r: string, st: ArrayState)
    requires Blank(b) && !st.quoted && r != ""
    ensures ArrayLoop(b + r, st) == ArrayLoop(r, st)
    decreases |b|
  {
    if b == "" {
      assert b + r == r;
    } else {
      assert (b + r)[1..] == b[1..] + r;
      AdvanceItem(b + r, st, b[1..] + r, st);
      PassesBlankItems(b[1..], r, st);
    }
  }

  // ---------------------------------------------------------------- text with blanks

  /** The blanks of a text: for every node, by its path from the root, those that stand behind its
      opening bracket, and those around its key, in front of it, and behind it. */
  type Gaps = (seq<nat>, nat) -> string

  ghost predicate AllBlank(gaps: Gaps) {
    forall at, k :: Blank(gaps(at, k))
  }

  function Spaced(n: Node, gaps: Gaps, at: seq<nat>): string
    decreases n, 1
  {
    match n
    case Object(_, members) => "{" + (gaps(at, 0) + (SpacedMembers(members, gaps, at, 0) + "}"))
    case Array(_, items) => "[" + (gaps(at, 0) + (SpacedItems(items, gaps, at, 0) + "]"))
    case _ => Text(n)
  }

  function SpacedMembers(members: seq<Member>, gaps: Gaps, at: seq<nat>, i: nat): string
    decreases members, 0
  {
    if members == [] then ""
    else
      var here := at + [i];
      ("\"" + members[0].key + "\"")
      + (gaps(here, 1) + (":" + (gaps(here, 2) + (Spaced(members[0].value, gaps, here) + (gaps(here, 3)
      + (if |members| == 1 then "" else "," + (gaps(here, 4) + SpacedMembers(members[1..], gaps, at, i + 1))))))))
  }

  function SpacedItems(items: seq<Node>, gaps: Gaps, at: seq<nat>, i: nat): string
    decreases items, 0
  {
    if items == [] then ""
    else
      var here := at + [i];
      Spaced(items[0], gaps, here) + (gaps(here, 3)
      + (if |items| == 1 then "" else "," + (gaps(here, 4) + SpacedItems(items[1..], gaps, at, i + 1))))
  }

  lemma {:induction false} BlankIsBalanced(s: string, open: char, close: char)
    requires Blank(s) && Pair(open, close)
    ensures Balanced(s, open, close)
  {
    PlainIsBalanced(s, open, close);
  }

  /** The text of a tree with balanced strings is balanced, blanks or not. */
  lemma {:induction false} SpacedBalanced(n: Node, gaps: Gaps, at: seq<nat>, open: char, close: char)
    requires Pair(open, close) && WellTypedAll(n) && StringsBalanced(n) && AllBlank(gaps)
    ensures Balanced(Spaced(n, gaps, at), open, close)
    decreases n, 1, 0
  {
    if n.Object? {
      SpacedMembersBalanced(n, gaps, at, 0, open, close);
      assert n.members[0..] == n.members;
      Around(gaps(at, 0), SpacedMembers(n.members, gaps, at, 0), '{', '}', open, close);
    } else if n.Array? {
      SpacedItemsBalanced(n, gaps, at, 0, open, close);
      assert n.items[0..] == n.items;
      Around(gaps(at, 0), SpacedItems(n.items, gaps, at, 0), '[', ']', open, close);
    } else {
      TextBalanced(n, open, close);
    }
  }

  lemma Around(gap: string, inside: string, o: char, c: char, open: char, close: char)
    requires Blank(gap) && Balanced(inside, open, close) && Pair(o, c) && Pair(open, close)
    ensures Balanced(gap + inside, open, close)
    ensures Balanced([o] + (gap + (inside + [c])), open, close)
  {
    BlankIsBalanced(gap, open, close);
    BalancedConcat(gap, inside, open, close);
    BalancedWrapped(gap + inside, open, close, o, c);
    assert [o] + (gap + inside) + [c] == [o] + (gap + (inside + [c]));
  }

  lemma JoinBalanced(a: string, b: string, open: char, close: char)
    requires Pair(open, close) && Balanced(a, open, close) && Balanced(b, open, close)
    ensures Balanced(a + b, open, close)
  {
    BalancedConcat(a, b, open, close);
  }

  lemma KeyBalanced(key: string, open: char, close: char)
    requires Pair(open, close) && Balanced(key, open, close)
    ensures Balanced("\"" + key + "\"", open, close) && Balanced(":", open, close) && Balanced(",", open, close)
  {
    PlainIsBalanced("\"", open, close);
    PlainIsBalanced(":", open, close);
    PlainIsBalanced(",", open, close);
    BalancedConcat("\"", key, open, close);
    BalancedConcat("\"" + key, "\"", open, close);
  }

  lemma MoreBalanced(gap: string, rest: string, more: bool, open: char, close: char)
    requires Pair(open, close) && Blank(gap) && (more ==> Balanced(rest, open, close))
    ensures Balanced(if more then "," + (gap + rest) else "", open, close)
  {
    PlainIsBalanced("", open, close);
    PlainIsBalanced(",", open, close);
    BlankIsBalanced(gap, open, close);
    if more {
      BalancedConcat(gap, rest, open, close);
      BalancedConcat(",", gap + rest, open, close);
    }
  }

  lemma {:induction false} SpacedMembersBalanced(n: Node, gaps: Gaps, at: seq<nat>, i: nat, open: char, close: char)
    requires Pair(open, close) && n.Object? && WellTypedAll(n) && StringsBalanced(n) && AllBlank(gaps)
    requires i <= |n.members|
    ensures Balanced(SpacedMembers(n.members[i..], gaps, at, i), open, close)
    decreases n, 0, |n.members| - i
  {
    PlainIsBalanced("", open, close);
    if i < |n.members| {
      var m, here, more := n.members[i], at + [i], i + 1 < |n.members|;
      assert n.members[i..][1..] == n.members[i + 1..];
      SpacedMembersBalanced(n, gaps, at, i + 1, open, close);
      SpacedBalanced(m.value, gaps, here, open, close);
      var rest := SpacedMembers(n.members[i + 1..], gaps, at, i + 1);
      MoreBalanced(gaps(here, 4), rest, more, open, close);
      MemberSpaced(m.key, gaps(here, 1), gaps(here, 2), Spaced(m.value, gaps, here), gaps(here, 3),
                   if more then "," + (gaps(here, 4) + rest) else "", open, close);
    }
  }

  lemma MemberSpaced(key: string, g1: string, g2: string, value: string, g3: string, tail: string, open: char, close: char)
    requires Pair(open, close) && Balanced(key, open, close) && Balanced(value, open, close) && Balanced(tail, open, close)
    requires Blank(g1) && Blank(g2) && Blank(g3)
    ensures Balanced(("\"" + key + "\"") + (g1 + (":" + (g2 + (value + (g3 + tail))))), open, close)
  {
    KeyBalanced(key, open, close);
    BlankIsBalanced(g1, open, close);
    BlankIsBalanced(g2, open, close);
    BlankIsBalanced(g3, open, close);
    JoinBalanced(g3, tail, open, close);
    JoinBalanced(value, g3 + tail, open, close);
    JoinBalanced(g2, value + (g3 + tail), open, close);
    JoinBalanced(":", g2 + (value + (g3 + tail)), open, close);
    JoinBalanced(g1, ":" + (g2 + (value + (g3 + tail))), open, close);
    JoinBalanced("\"" + key + "\"", g1 + (":" + (g2 + (value + (g3 + tail)))), open, close);
  }

  lemma {:induction false} SpacedItemsBalanced(n: Node, gaps: Gaps, at: seq<nat>, i: nat, open: char, close: char)
    requires Pair(open, close) && n.Array? && WellTypedAll(n) && StringsBalanced(n) && AllBlank(gaps)
    requires i <= |n.items|
    ensures Balanced(SpacedItems(n.items[i..], gaps, at, i), open, close)
    decreases n, 0, |n.items| - i
  {
    PlainIsBalanced("", open, close);
    if i < |n.items| {
      var here, more := at + [i], i + 1 < |n.items|;
      assert n.items[i..][1..] == n.items[i + 1..];
      SpacedItemsBalanced(n, gaps, at, i + 1, open, close);
      SpacedBalanced(n.items[i], gaps, here, open, close);
      var rest := SpacedItems(n.items[i + 1..], gaps, at, i + 1);
      MoreBalanced(gaps(here, 4), rest, more, open, close);
      var tail := if more then "," + (gaps(here, 4) + rest) else "";
      BlankIsBalanced(gaps(here, 3), open, close);
      JoinBalanced(gaps(here, 3), tail, open, close);
      JoinBalanced(Spaced(n.items[i], gaps, here), gaps(here, 3) + tail, open, close);
    }
  }

  /** So a container is found by its brackets. */
  lemma SpacedEncloses(n: Node, gaps: Gaps, at: seq<nat>)
    requires (n.Object? || n.Array?) && WellTypedAll(n) && StringsBalanced(n) && AllBlank(gaps)
    ensures Encloses(Spaced(n, gaps, at))
    ensures Spaced(n, gaps, at)[0] == if n.Object? then '{' else '['
  {
    if n.Object? {
      SpacedMembersBalanced(n, gaps, at, 0, '{', '}');
      assert n.members[0..] == n.members;
      Found(gaps(at, 0), SpacedMembers(n.members, gaps, at, 0), '{', '}');
    } else {
      SpacedItemsBalanced(n, gaps, at, 0, '[', ']');
      assert n.items[0..] == n.items;
      Found(gaps(at, 0), SpacedItems(n.items, gaps, at, 0), '[', ']');
    }
  }

  lemma Found(gap: string, inside: string, open: char, close: char)
    requires Pair(open, close) && Blank(gap) && Balanced(inside, open, close)
    ensures Encloses([open] + (gap + (inside + [close])))
  {
    Around(gap, inside, open, close, open, close);
    BalancedInside(gap + inside, open, close);
    var t := [open] + (gap + (inside + [close]));
    assert t[1..] == (gap + inside) + [close];
  }

  // ---------------------------------------------------------------- reading members

  lemma ReadsSpacedKey(key: string, g1: string, g2: string, r: string, read: seq<Member>)
    requires Raw(key) && Blank(g1) && Blank(g2)
    ensures ObjectLoop(("\"" + key + "\"") + (g1 + (":" + (g2 + r))), KeyState(read)) == ObjectLoop(r, ValueState(key, read))
  {
    var st, vs, after := KeyState(read), ValueState(key, read), g1 + (":" + (g2 + r));
    var s := ("\"" + key + "\"") + after;
    assert s[1..] == key + "\"" + after;
    Advance(s, st, s[1..], st.(quoted := true));
    ReadsKey(key, after, "", read);
    assert "" + key == key;
    PassesBlanks(g1, ":" + (g2 + r), vs);
    assert (":" + (g2 + r))[1..] == g2 + r;
    Advance(":" + (g2 + r), vs, g2 + r, vs);
    PassesBlanks(g2, r, vs);
  }

  /** What follows a value: blanks, and then a comma with more or the end. */
  lemma ReadsOn(g3: string, more: bool, g4: string, rest: string, members: seq<Member>)
    requires Blank(g3) && Blank(g4)
    ensures var r := g3 + if more then "," + (g4 + rest) else "}";
            && EndsMember(r)
            && ObjectLoop(r, KeyState(members))
               == if more then ObjectLoop(rest, KeyState(members)) else FinishObject(KeyState(members))
  {
    var tail := if more then "," + (g4 + rest) else "}";
    var r := g3 + tail;
    assert r[0] == if g3 == "" then tail[0] else g3[0];
    PassesBlanks(g3, tail, KeyState(members));
    SkipsSeparator(tail, members);
    assert tail[1..] == if more then g4 + rest else "";
    if more {
      PassesBlanks(g4, rest, KeyState(members));
    }
  }

  /** A value whose text is `t`: read, and what follows it left. */
  lemma ReadsSpacedValue(v: Node, t: string, r: string, key: string, members: seq<Member>)
    requires WellTyped(v) && EndsMember(r)
    requires if v.Object? then Encloses(t) && t[0] == '{' && ParseObject(t) == v
             else if v.Array? then Encloses(t) && t[0] == '[' && ParseArray(t) == v
             else t == Text(v)
    ensures ObjectLoop(t + r, ValueState(key, members)) == ObjectLoop(r, KeyState(Emplace(members, Member(key, v))))
  {
    if v.Object? || v.Array? {
      StepsContainer(t, r, ValueState(key, members));
      Advance(t + r, ValueState(key, members), r, Store(ValueState(key, members), v));
    } else {
      ReadsValue(v, r, key, members);
      SkipsSeparator(r, Emplace(members, Member(key, v)));
    }
  }

  lemma Extend(members: seq<Member>, i: nat)
    requires i < |members| && Sorted(members)
    ensures Emplace(members[..i], members[i]) == members[..i + 1]
  {
    EmplaceLast(members[..i], members[i]);
    assert members[..i] + [members[i]] == members[..i + 1];
  }

  /** One member, and where reading goes on. */
  lemma ReadsSpacedMember(n: Node, i: nat, g1: string, g2: string, t: string, g3: string, g4: string, rest: string)
    requires n.Object? && WellTypedAll(n) && i < |n.members|
    requires Blank(g1) && Blank(g2) && Blank(g3) && Blank(g4)
    requires var v := n.members[i].value;
             if v.Object? then Encloses(t) && t[0] == '{' && ParseObject(t) == v
             else if v.Array? then Encloses(t) && t[0] == '[' && ParseArray(t) == v
             else t == Text(v)
    ensures var more := i + 1 < |n.members|;
            ObjectLoop(("\"" + n.members[i].key + "\"")
                       + (g1 + (":" + (g2 + (t + (g3 + if more then "," + (g4 + rest) else "}"))))), KeyState(n.members[..i]))
            == if more then ObjectLoop(rest, KeyState(n.members[..i + 1])) else FinishObject(KeyState(n.members))
  {
    var m, more := n.members[i], i + 1 < |n.members|;
    var r := g3 + if more then "," + (g4 + rest) else "}";
    ReadsSpacedKey(m.key, g1, g2, t + r, n.members[..i]);
    Extend(n.members, i);
    ReadsOn(g3, more, g4, rest, n.members[..i + 1]);
    ReadsSpacedValue(m.value, t, r, m.key, n.members[..i]);
    assert !more ==> n.members[..i + 1] == n.members;
  }

  /** The end of the text of the members. */
  lemma MembersEnd(a: string, g1: string, g2: string, t: string, g3: string, tail: string, end: string)
    ensures (a + (g1 + (":" + (g2 + (t + (g3 + tail)))))) + end == a + (g1 + (":" + (g2 + (t + (g3 + (tail + end))))))
  {
  }

  lemma TailEnds(more: bool, g4: string, rest: string, end: string)
    ensures (if more then "," + (g4 + rest) else "") + end == if more then "," + (g4 + (rest + end)) else end
  {
  }

  ghost predicate Readable(n: Node) {
    WellTypedAll(n) && StringsBalanced(n)
  }

  /** The text of a readable part, and what is to be read of it. */
  lemma {:induction false} ParsesSpaced(v: Node, gaps: Gaps, at: seq<nat>)
    requires Readable(v) && AllBlank(gaps)
    ensures var t := Spaced(v, gaps, at);
            if v.Object? then Encloses(t) && t[0] == '{' && ParseObject(t) == v
            else if v.Array? then Encloses(t) && t[0] == '[' && ParseArray(t) == v
            else t == Text(v)
    decreases v, 1, 0
  {
    if v.Object? {
      SpacedEncloses(v, gaps, at);
      ParsesSpacedMembers(v, gaps, at, 0);
      assert v.members[0..] == v.members && v.members[..0] == [];
      StartsObject(gaps(at, 0), SpacedMembers(v.members, gaps, at, 0));
    } else if v.Array? {
      SpacedEncloses(v, gaps, at);
      ParsesSpacedItems(v, gaps, at, 0);
      assert v.items[0..] == v.items && v.items[..0] == [];
      StartsArray(gaps(at, 0), SpacedItems(v.items, gaps, at, 0));
    }
  }

  lemma StartsObject(gap: string, inside: string)
    requires Blank(gap)
    ensures ParseObject("{" + (gap + (inside + "}"))) == ObjectLoop(inside + "}", KeyState([]))
  {
    ParseBraced(gap + (inside + "}"));
    PassesBlanks(gap, inside + "}", KeyState([]));
  }

  lemma StartsArray(gap: string, inside: string)
    requires Blank(gap)
    ensures ParseArray("[" + (gap + (inside + "]"))) == ArrayLoop(inside + "]", ArrayState(false, "", []))
  {
    var a := "[" + (gap + (inside + "]"));
    assert a[1..] == gap + (inside + "]") && a[|a| - 1] == ']';
    ArrayStart(a);
    PassesBlankItems(gap, inside + "]", ArrayState(false, "", []));
  }

  lemma {:induction false} ParsesSpacedMembers(n: Node, gaps: Gaps, at: seq<nat>, i: nat)
    requires n.Object? && Readable(n) && AllBlank(gaps) && i <= |n.members|
    ensures ObjectLoop(SpacedMembers(n.members[i..], gaps, at, i) + "}", KeyState(n.members[..i])) == n
    decreases n, 0, |n.members| - i
  {
    ValidObject(n);
    if i == |n.members| {
      assert n.members[..i] == n.members && SpacedMembers(n.members[i..], gaps, at, i) + "}" == "}";
      SkipsSeparator("}", n.members);
      assert "}"[1..] == "";
    } else {
      var m, here, more := n.members[i], at + [i], i + 1 < |n.members|;
      var t := Spaced(m.value, gaps, here);
      assert n.members[i..][1..] == n.members[i + 1..];
      var rest := SpacedMembers(n.members[i + 1..], gaps, at, i + 1);
      ParsesSpaced(m.value, gaps, here);
      if more {
        ParsesSpacedMembers(n, gaps, at, i + 1);
      }
      var tail := if more then "," + (gaps(here, 4) + rest) else "";
      MembersEnd("\"" + m.key + "\"", gaps(here, 1), gaps(here, 2), t, gaps(here, 3), tail, "}");
      TailEnds(more, gaps(here, 4), rest, "}");
      ReadsSpacedMember(n, i, gaps(here, 1), gaps(here, 2), t, gaps(here, 3), gaps(here, 4), rest + "}");
    }
  }

  lemma ValidObject(n: Node)
    requires n.Object? && WellTypedAll(n)
    ensures FinishObject(KeyState(n.members)) == n
  {
    forall i | 0 <= i < |n.members|
      ensures Valid(n.members[i].value)
    {
      assert WellTypedAll(n.members[i].value);
    }
  }

  lemma ValidArray(n: Node)
    requires n.Array? && WellTypedAll(n)
    ensures FinishArray(ArrayState(false, "", n.items)) == n
  {
    forall i | 0 <= i < |n.items|
      ensures Valid(n.items[i])
    {
      assert WellTypedAll(n.items[i]);
    }
  }

  // ---------------------------------------------------------------- reading items

  lemma ReadsOnItem(g3: string, more: bool, g4: string, rest: string, items: seq<Node>)
    requires Blank(g3) && Blank(g4) && (more ==> rest != "")
    ensures var r := g3 + if more then "," + (g4 + rest) else "]";
            && EndsItem(r)
            && ArrayLoop(r, ArrayState(false, "", items))
               == if more then ArrayLoop(rest, ArrayState(false, "", items)) else FinishArray(ArrayState(false, "", items))
  {
    var tail, st := if more then "," + (g4 + rest) else "]", ArrayState(false, "", items);
    var r := g3 + tail;
    assert r[0] == if g3 == "" then tail[0] else g3[0];
    assert g3 == "" ==> r == tail;
    PassesBlankItems(g3, tail, st);
    if more {
      assert tail[1..] == g4 + rest;
      AdvanceItem(tail, st, g4 + rest, st);
      PassesBlankItems(g4, rest, st);
    }
  }

  lemma ReadsSpacedItem(v: Node, t: string, r: string, items: seq<Node>)
    requires WellTyped(v) && EndsItem(r)
    requires if v.Object? then Encloses(t) && t[0] == '{' && ParseObject(t) == v
             else if v.Array? then Encloses(t) && t[0] == '[' && ParseArray(t) == v
             else t == Text(v)
    ensures ArrayLoop(t + r, ArrayState(false, "", items)) == ArrayLoop(r, ArrayState(false, "", items + [v]))
  {
    var st := ArrayState(false, "", items);
    if v.Object? || v.Array? {
      StepsNested(t, r, st);
      AdvanceItem(t + r, st, r, Append(st, v));
    } else {
      ReadsItem(v, r, items);
      SkipsComma(r, items + [v]);
    }
  }

  lemma ReadsSpacedItemOn(n: Node, i: nat, t: string, g3: string, g4: string, rest: string)
    requires n.Array? && WellTypedAll(n) && i < |n.items| && Blank(g3) && Blank(g4)
    requires i + 1 < |n.items| ==> rest != ""
    requires var v := n.items[i];
             if v.Object? then Encloses(t) && t[0] == '{' && ParseObject(t) == v
             else if v.Array? then Encloses(t) && t[0] == '[' && ParseArray(t) == v
             else t == Text(v)
    ensures var more := i + 1 < |n.items|;
            ArrayLoop(t + (g3 + if more then "," + (g4 + rest) else "]"), ArrayState(false, "", n.items[..i]))
            == if more then ArrayLoop(rest, ArrayState(false, "", n.items[..i + 1]))
               else FinishArray(ArrayState(false, "", n.items))
  {
    var more := i + 1 < |n.items|;
    ReadsOnItem(g3, more, g4, rest, n.items[..i + 1]);
    ReadsSpacedItem(n.items[i], t, g3 + if more then "," + (g4 + rest) else "]", n.items[..i]);
    assert n.items[..i] + [n.items[i]] == n.items[..i + 1];
    assert !more ==> n.items[..i + 1] == n.items;
  }

  lemma ItemsEnd(t: string, g3: string, tail: string, end: string)
    ensures (t + (g3 + tail)) + end == t + (g3 + (tail + end))
  {
  }

  lemma {:induction false} ParsesSpacedItems(n: Node, gaps: Gaps, at: seq<nat>, i: nat)
    requires n.Array? && Readable(n) && AllBlank(gaps) && i <= |n.items|
    ensures ArrayLoop(SpacedItems(n.items[i..], gaps, at, i) + "]", ArrayState(false, "", n.items[..i])) == n
    decreases n, 0, |n.items| - i
  {
    ValidArray(n);
    if i == |n.items| {
      assert n.items[..i] == n.items && SpacedItems(n.items[i..], gaps, at, i) + "]" == "]";
    } else {
      var here, more := at + [i], i + 1 < |n.items|;
      var t := Spaced(n.items[i], gaps, here);
      assert n.items[i..][1..] == n.items[i + 1..];
      var rest := SpacedItems(n.items[i + 1..], gaps, at, i + 1);
      ParsesSpaced(n.items[i], gaps, here);
      if more {
        ParsesSpacedItems(n, gaps, at, i + 1);
      }
      ItemsEnd(t, gaps(here, 3), if more then "," + (gaps(here, 4) + rest) else "", "]");
      TailEnds(more, gaps(here, 4), rest, "]");
      ReadsSpacedItemOn(n, i, t, gaps(here, 3), gaps(here, 4), rest + "]");
    }
  }

  /** A tree with balanced strings comes back from its text, whatever blanks stand between the
      tokens. */
  lemma SpacedRoundTrip(n: Node, gaps: Gaps)
    requires n.Object? && WellTypedAll(n) && StringsBalanced(n) && AllBlank(gaps)
    ensures ParseObject(Spaced(n, gaps, [])) == n && n.valid
  {
    ParsesSpaced(n, gaps, []);
  }
}
