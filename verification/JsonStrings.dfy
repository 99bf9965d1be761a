/** Which strings survive: the printer writes a string as it is, the parser ends it at a quote. */
module JsonStrings {
  import opened JsonText
  import opened JsonParser
  import opened JsonRoundTrip
  import opened JsonBrackets

  /** What is not raw has a quote of its own after a raw start, or ends with a lone backslash. */
  lemma {:induction false} NotRaw(s: string) returns (start: string)
    requires !Raw(s)
    ensures Raw(start) && |start| < |s| && start == s[..|start|]
    ensures s[|start|] == '"' || s[|start|..] == "\\"
    decreases |s|
  {
    if StartsEscape(s, |s|) {
      var rest := NotRaw(s[2..]);
      start := s[..2] + rest;
      assert start[2..] == rest && s[|start|..] == s[2..][|rest|..];
    } else if s[0] == '"' || s == "\\" {
      start := "";
      assert s[0..] == s;
    } else {
      var rest := NotRaw(s[1..]);
      start := s[..1] + rest;
      assert start[1..] == rest && s[|start|..] == s[1..][|rest|..];
      assert |rest| > 0 ==> start[1] == s[1];
      assert s[0] == '\\' ==> s[1] != '"' && s[1] != '\\';
    }
  }

  function OneString(key: string, s: string): Node {
    Object(true, [Member(key, Str(s))])
  }

  /** Up to the value the parser reads what was printed, whatever the value. */
  lemma ReadsUpTo(key: string, s: string)
    requires Raw(key)
    ensures ParseObject(Text(OneString(key, s)))
            == ObjectLoop(s + "\"}", ObjectState(false, true, key, "", []))
  {
    var value := "\"" + (s + "\"}");
    OneMember(Member(key, Str(s)));
    assert Text(Str(s)) + "}" == value;
    assert Head(key) + Text(Str(s)) + "}" == Head(key) + value;
    assert Text(OneString(key, s)) == "{" + (Head(key) + value);
    ParseBraced(Head(key) + value);
    ReadsHead(key, value, []);
    var v := ValueState(key, []);
    assert value[1..] == s + "\"}";
    Advance(value, v, s + "\"}", v.(quoted := true));
  }

  /** A quote of its own ends the string early, and what is stored stays. */
  lemma EndsEarly(key: string, s: string, start: string)
    requires Raw(start) && |start| < |s| && start == s[..|start|] && s[|start|] == '"'
    ensures ObjectLoop(s + "\"}", ObjectState(false, true, key, "", [])) != OneString(key, s)
  {
    var rest := s[|start| + 1..] + "\"}";
    assert s + "\"}" == start + "\"" + rest;
    ReadsString(start, rest, "", key, []);
    assert "" + start == start;
    var m := Member(key, Str(start));
    assert Emplace([], m) == [m];
    OnlyMember(m);
    LoopKeeps(rest, KeyState([m]), m);
    assert !Holds(OneString(key, s).members, m);
  }

  /** Raw text is read into the value, if the string goes on. */
  lemma {:induction false} ReadsOn(start: string, tail: string, before: string, key: string)
    requires Raw(start) && |tail| >= 2
    ensures ObjectLoop(start + tail, ObjectState(false, true, key, before, []))
            == ObjectLoop(tail, ObjectState(false, true, key, before + start, []))
    decreases |start|
  {
    var s, st := start + tail, ObjectState(false, true, key, before, []);
    if start == "" {
      assert s == tail && before + start == before;
    } else {
      var n := if StartsEscape(start, |start|) then 2 else 1;
      assert s[..n] == start[..n] && s[n..] == start[n..] + tail;
      assert |start| >= 2 ==> s[1] == start[1];
      Joined(before, start, n);
      Advance(s, st, s[n..], st.(value := before + start[..n]));
      ReadsOn(start[n..], tail, before + start[..n], key);
    }
  }

  /** A backslash at the end takes the closing quote along: the string never ends. */
  lemma NeverEnds(key: string, s: string, start: string)
    requires Raw(start) && s == start + "\\"
    ensures !Valid(ObjectLoop(s + "\"}", ObjectState(false, true, key, "", [])))
  {
    assert s + "\"}" == start + "\\\"}";
    ReadsOn(start, "\\\"}", "", key);
    var st := ObjectState(false, true, key, "" + start, []);
    assert "\\\"}"[2..] == "}" && "}"[1..] == "";
    var st' := st.(value := st.value + "\\\"}"[..2]);
    Advance("\\\"}", st, "}", st');
    Advance("}", st', "", st'.(value := st'.value + "}"));
  }

  /** A string survives exactly if it is raw: every quote in it is escaped, and so is a backslash
      at its end. */
  lemma RawDecides(key: string, s: string)
    requires Raw(key)
    ensures ParseObject(Text(OneString(key, s))) == OneString(key, s) <==> Raw(s)
  {
    var n := OneString(key, s);
    if Raw(s) {
      assert Printable(Str(s));
      ParsesObject(n);
    } else {
      ReadsUpTo(key, s);
      var start := NotRaw(s);
      if s[|start|] == '"' {
        EndsEarly(key, s, start);
      } else {
        assert s == start + s[|start|..];
        NeverEnds(key, s, start);
      }
    }
  }

  // ---------------------------------------------------------------- the same in an array

  /** Raw text is read into the item, if the string goes on. */
  lemma {:induction false} ReadsOnItem(start: string, tail: string, before: string, items: seq<Node>)
    requires Raw(start) && |tail| >= 2
    ensures ArrayLoop(start + tail, ArrayState(true, before, items)) == ArrayLoop(tail, ArrayState(true, before + start, items))
    decreases |start|
  {
    var s, st := start + tail, ArrayState(true, before, items);
    if start == "" {
      assert s == tail && before + start == before;
    } else {
      var n := if StartsEscape(start, |start|) then 2 else 1;
      assert s[..n] == start[..n] && s[n..] == start[n..] + tail;
      assert |start| >= 2 ==> s[1] == start[1];
      Joined(before, start, n);
      AdvanceItem(s, st, s[n..], st.(value := before + start[..n]));
      ReadsOnItem(start[n..], tail, before + start[..n], items);
    }
  }

  /** The item that was read first stays the first. */
  lemma {:induction false} FirstItemStays(s: string, st: ArrayState)
    requires st.items != []
    ensures ArrayLoop(s, st).Array? ==> ArrayLoop(s, st).items != [] && ArrayLoop(s, st).items[0] == st.items[0]
    decreases |s|
  {
    if |s| > 1 {
      match StepArray(s, st)
      case StopArray =>
      case NextItem(rest, st') =>
        FirstOfStep(s, st);
        FirstItemStays(rest, st');
    }
  }

  lemma FirstOfStep(s: string, st: ArrayState)
    requires |s| > 1 && StepArray(s, st).NextItem? && st.items != []
    ensures StepArray(s, st).st.items != [] && StepArray(s, st).st.items[0] == st.items[0]
  {
  }

  lemma FirstItemIs(start: string, rest: string)
    requires Raw(start) && rest != ""
    ensures var n := ArrayLoop(start + "\"" + rest, ArrayState(true, "", []));
            n.Array? ==> n.items != [] && n.items[0] == Str(start)
  {
    ReadsItemString(start, rest, "", []);
    assert "" + start == start && [] + [Str(start)] == [Str(start)];
    FirstItemStays(rest, ArrayState(false, "", [Str(start)]));
  }

  lemma ItemEndsEarly(s: string, start: string)
    requires Raw(start) && |start| < |s| && start == s[..|start|] && s[|start|] == '"'
    ensures ArrayLoop(s + "\"]", ArrayState(true, "", [])) != Array(true, [Str(s)])
  {
    EarlyParts(s, start, "\"]");
    FirstItemIs(start, s[|start| + 1..] + "\"]");
    assert |s| != |start|;
  }

  lemma EarlyParts(s: string, start: string, end: string)
    requires |start| < |s| && start == s[..|start|] && s[|start|] == '"'
    ensures s + end == start + "\"" + (s[|start| + 1..] + end)
  {
  }

  /** A backslash at the end takes the closing quote along: the string never ends. */
  lemma ItemNeverEnds(start: string)
    requires Raw(start)
    ensures !Valid(ArrayLoop(start + "\\\"]", ArrayState(true, "", [])))
  {
    ReadsOnItem(start, "\\\"]", "", []);
    var st := ArrayState(true, "" + start, []);
    assert "\\\"]"[2..] == "]";
    AdvanceItem("\\\"]", st, "]", st.(value := st.value + "\\\"]"[..2]));
  }

  lemma ItemText(s: string)
    ensures ParseArray(Text(Array(true, [Str(s)]))) == ArrayLoop(s + "\"]", ArrayState(true, "", []))
  {
    var t, st := "\"" + (s + "\"]"), ArrayState(false, "", []);
    var a := Text(Array(true, [Str(s)]));
    assert ItemsText([Str(s)]) == "\"" + s + "\"";
    assert a == "[" + t && a[1..] == t && a[|a| - 1] == ']' && t[1..] == s + "\"]";
    ArrayStart(a);
    AdvanceItem(t, st, t[1..], st.(quoted := true));
  }

  lemma RawItem(s: string)
    requires Raw(s)
    ensures ArrayLoop(s + "\"]", ArrayState(true, "", [])) == Array(true, [Str(s)])
  {
    assert s + "\"]" == s + "\"" + "]" && "" + s == s;
    ReadsItemString(s, "]", "", []);
  }

  /** A string survives as an item under the same condition. */
  lemma RawDecidesItem(s: string)
    ensures ParseArray(Text(Array(true, [Str(s)]))) == Array(true, [Str(s)]) <==> Raw(s)
  {
    ItemText(s);
    if Raw(s) {
      RawItem(s);
    } else {
      var start := NotRaw(s);
      if s[|start|] == '"' {
        ItemEndsEarly(s, start);
      } else {
        assert s == start + s[|start|..] && s + "\"]" == start + "\\\"]";
        ItemNeverEnds(start);
      }
    }
  }

  // ---------------------------------------------------------------- raw, by its backslashes

  /** The backslashes that stand right before place `i`. */
  function Backslashes(s: string, i: nat): nat
    requires i <= |s|
  {
    if i == 0 || s[i - 1] != '\\' then 0 else 1 + Backslashes(s, i - 1)
  }

  /** Every quote has an odd number of backslashes before it, the end an even one. */
  ghost predicate QuotesEscaped(s: string) {
    && (forall i :: 0 <= i < |s| && s[i] == '"' ==> Backslashes(s, i) % 2 == 1)
    && Backslashes(s, |s|) % 2 == 0
  }

  /** Behind a first part that ends with no backslash, or with an even number of them, the count is
      as it would be without that part, or even by as much. */
  lemma {:induction false} BackslashesBehind(s: string, n: nat, i: nat)
    requires n <= i <= |s|
    requires Backslashes(s, n) % 2 == 0
    ensures Backslashes(s, i) % 2 == Backslashes(s[n..], i - n) % 2
    decreases i
  {
    if i > n {
      assert s[n..][i - n - 1] == s[i - 1];
      BackslashesBehind(s, n, i - 1);
    }
  }

  /** The part may also end with an escaped quote. */
  lemma {:induction false} RestEscaped(s: string, n: nat)
    requires n <= |s| && Backslashes(s, n) % 2 == 0
    ensures QuotesEscaped(s) <==>
            (forall i :: 0 <= i < n && s[i] == '"' ==> Backslashes(s, i) % 2 == 1) && QuotesEscaped(s[n..])
  {
    forall i | n <= i <= |s|
      ensures Backslashes(s, i) % 2 == Backslashes(s[n..], i - n) % 2
    {
      BackslashesBehind(s, n, i);
    }
    if QuotesEscaped(s[n..]) && forall i :: 0 <= i < n && s[i] == '"' ==> Backslashes(s, i) % 2 == 1 {
      forall i | 0 <= i < |s| && s[i] == '"'
        ensures Backslashes(s, i) % 2 == 1
      {
        assert i >= n ==> s[n..][i - n] == '"';
      }
    }
    if QuotesEscaped(s) {
      forall i | 0 <= i < |s[n..]| && s[n..][i] == '"'
        ensures Backslashes(s[n..], i) % 2 == 1
      {
        assert s[n + i] == '"';
      }
    }
  }

  /** What raw means: quotes are escaped, counting the backslashes before them, and none is left over
      at the end. */
  lemma {:induction false} RawMeans(s: string)
    ensures Raw(s) <==> QuotesEscaped(s)
    decreases |s|
  {
    if s == "" {
    } else if s == "\\" {
      assert Backslashes(s, 0) == 0 && Backslashes(s, 1) == 1;
    } else if s[0] == '\\' && (s[1] == '"' || s[1] == '\\') {
      assert Backslashes(s, 0) == 0 && Backslashes(s, 1) == 1;
      assert Backslashes(s, 2) == if s[1] == '"' then 0 else 2;
      RestEscaped(s, 2);
      RawMeans(s[2..]);
    } else if s[0] == '\\' {
      OddStart(s);
      RawMeans(s[1..]);
    } else {
      assert Backslashes(s, 0) == 0 && Backslashes(s, 1) == 0;
      RestEscaped(s, 1);
      RawMeans(s[1..]);
    }
  }

  /** A backslash before a character that it does not escape stands for itself. */
  lemma OddStart(s: string)
    requires |s| >= 2 && s[0] == '\\' && s[1] != '"' && s[1] != '\\'
    ensures QuotesEscaped(s) <==> QuotesEscaped(s[1..])
  {
    assert Backslashes(s, 0) == 0 && Backslashes(s, 1) == 1 && Backslashes(s, 2) == 0;
    var t := s[1..];
    assert Backslashes(t, 0) == 0 && Backslashes(t, 1) == 0;
    RestEscaped(s, 2);
    RestEscaped(t, 1);
    assert s[2..] == t[1..];
  }
}
