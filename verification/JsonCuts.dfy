/** A container whose text is cut off too early. The parser takes the text of a nested container
    to end where its brackets are first balanced, those in strings included. What it then reads
    is never valid. */
module JsonCuts {
  import opened Options
  import opened JsonText
  import opened JsonParser
  import opened JsonRoundTrip
  import opened JsonBrackets

  predicate Prefix(p: string, t: string) {
    |p| <= |t| && p == t[..|p|]
  }

  predicate IsContainer(n: Node) {
    n.Object? || n.Array?
  }

  function CloseOf(open: char): char {
    if open == '{' then '}' else ']'
  }

  /** Every part of a container is printable; nothing is said of where containers end. */
  predicate PartsPrintable(n: Node) {
    && WellTyped(n)
    && (n.Object? ==> forall i :: 0 <= i < |n.members| ==> Printable(n.members[i].value))
    && (n.Array? ==> forall i :: 0 <= i < |n.items| ==> Printable(n.items[i]))
  }

  // ---------------------------------------------------------------- counting brackets

  /** Starting deeper, the same text closes later if at all. */
  lemma {:induction false} ClosesSooner(a: string, depth: nat, more: nat, open: char, close: char)
    requires depth > 0 && more > 0 && open != close && Closing(a, depth + more, open, close).Some?
    ensures var n := Closing(a, depth, open, close);
            n.Some? && n.value < Closing(a, depth + more, open, close).value
    decreases |a|
  {
    var d := Depth(a[0], depth, open, close);
    assert Depth(a[0], depth + more, open, close) == d + more;
    if d > 0 {
      ClosesSooner(a[1..], d, more, open, close);
    }
  }

  lemma TailsAgree(t: string, q: string)
    requires q != "" && Prefix(q, t)
    ensures t[1..] == q[1..] + t[|q|..] && q[0] == t[0]
  {
  }

  /** Inside other brackets a container never closes the outer ones, whole or cut off. */
  lemma NeverInside(t: string, q: string, depth: nat)
    requires Encloses(t) && q != "" && Prefix(q, t) && depth > 0
    ensures Closing(q, depth, t[0], CloseOf(t[0])) != Some(|q|)
  {
    var open, close := t[0], CloseOf(t[0]);
    if Closing(q, depth, open, close) == Some(|q|) {
      ClosesSooner(q[1..], 1, depth, open, close);
      TailsAgree(t, q);
      ClosingPrefix(q[1..], t[|q|..], 1, open, close);
    }
  }

  /** A container that is cut off is not closed. */
  lemma NotYetClosed(t: string, q: string)
    requires Encloses(t) && q != "" && Prefix(q, t) && |q| < |t|
    ensures Closing(q[1..], 1, t[0], CloseOf(t[0])).None?
  {
    if Closing(q[1..], 1, t[0], CloseOf(t[0])).Some? {
      TailsAgree(t, q);
      ClosingPrefix(q[1..], t[|q|..], 1, t[0], CloseOf(t[0]));
    }
  }

  /** What is left to close behind a part of the text. */
  lemma StillToClose(a: string, b: string, depth: nat, open: char, close: char)
    requires depth > 0 && open != close && b != "" && Closing(a + b, depth, open, close) == Some(|a + b|)
    ensures Level(a, depth, open, close) > 0
    ensures Closing(b, Level(a, depth, open, close), open, close) == Some(|b|)
  {
    if Closing(a, depth, open, close).Some? {
      ClosingPrefix(a, b, depth, open, close);
    }
    ClosingThrough(a, b, depth, open, close);
  }

  lemma CommaCloses(b: string, depth: nat, open: char, close: char)
    requires depth > 0 && Pair(open, close)
    ensures Closing("," + b, depth, open, close) == Shift(Closing(b, depth, open, close), 1)
  {
    assert ("," + b)[0] == ',' && ("," + b)[1..] == b;
  }

  lemma PlainText(v: Node)
    requires Printable(v) && (v.Int? || v.UInt? || v.Bool? || v.Null?)
    ensures BracketFree(Text(v)) && Text(v) != ""
  {
    if v.Int? || v.UInt? {
      DecimalOfDigits(if v.Int? then -v.i else v.u);
    }
  }

  // ---------------------------------------------------------------- cut inside a string

  lemma {:induction false} CutKey(s: string, j: nat, before: string, members: seq<Member>)
    requires Raw(s) && j <= |s| && (j > 0 ==> IsBracket(s[j - 1]))
    ensures !Valid(ObjectLoop(s[..j], ObjectState(true, true, before, "", members)))
    decreases j
  {
    var p := s[..j];
    var st := ObjectState(true, true, before, "", members);
    if j > 0 {
      var n := if StartsEscape(s, |s|) then 2 else 1;
      assert p[n..] == s[n..][..j - n] && p[..n] == s[..n];
      assert n == 1 ==> p[..n] == [p[0]];
      Advance(p, st, p[n..], st.(key := before + p[..n]));
      CutKey(s[n..], j - n, before + p[..n], members);
    }
  }

  lemma {:induction false} CutString(s: string, j: nat, key: string, before: string, members: seq<Member>)
    requires Raw(s) && j <= |s| && (j > 0 ==> IsBracket(s[j - 1]))
    ensures !Valid(ObjectLoop(s[..j], ObjectState(false, true, key, before, members)))
    decreases j
  {
    var p := s[..j];
    var st := ObjectState(false, true, key, before, members);
    if j > 0 {
      var n := if StartsEscape(s, |s|) then 2 else 1;
      assert p[n..] == s[n..][..j - n] && p[..n] == s[..n];
      assert n == 1 ==> p[..n] == [p[0]];
      Advance(p, st, p[n..], st.(value := before + p[..n]));
      CutString(s[n..], j - n, key, before + p[..n], members);
    }
  }

  lemma {:induction false} CutItemString(s: string, j: nat, before: string, items: seq<Node>)
    requires Raw(s) && j <= |s| && (j > 0 ==> IsBracket(s[j - 1]))
    ensures !Valid(ArrayLoop(s[..j], ArrayState(true, before, items)))
    decreases j
  {
    var p := s[..j];
    var st := ArrayState(true, before, items);
    if j > 1 {
      var n := if StartsEscape(s, |s|) then 2 else 1;
      assert p[n..] == s[n..][..j - n] && p[..n] == s[..n];
      assert n == 1 ==> p[..n] == [p[0]];
      AdvanceItem(p, st, p[n..], st.(value := before + p[..n]));
      CutItemString(s[n..], j - n, before + p[..n], items);
    }
  }

  // ---------------------------------------------------------------- members

  /** What stands behind the value of member `i` in a text of the members that goes on with
      `tail`. */
  function Beyond(members: seq<Member>, i: nat, tail: string): string
    requires i < |members|
  {
    if i == |members| - 1 then tail else "," + (MembersText(members[i + 1..]) + tail)
  }

  lemma MembersFrom(members: seq<Member>, i: nat, tail: string)
    requires i < |members|
    ensures MembersText(members[i..]) + tail
            == Head(members[i].key) + (Text(members[i].value) + Beyond(members, i, tail))
  {
    assert members[i..][1..] == members[i + 1..];
    var head, text := Head(members[i].key), Text(members[i].value);
    if i == |members| - 1 {
      assert head + text + "" == head + text;
      Reassociate(head, text, "", tail);
    } else {
      Regroup(head, text, MembersText(members[i + 1..]), tail);
    }
  }

  lemma Regroup(a: string, b: string, c: string, d: string)
    ensures a + b + ("," + c) + d == a + (b + ("," + (c + d)))
  {
  }

  lemma ReadsOne(n: Node, i: nat, r: string)
    requires n.Object? && PartsPrintable(n) && i < |n.members| && Delimited(n.members[i].value) && EndsMember(r)
    ensures ObjectLoop(Head(n.members[i].key) + (Text(n.members[i].value) + r), KeyState(n.members[..i]))
            == ObjectLoop(r[1..], KeyState(n.members[..i + 1]))
  {
    var m, read := n.members[i], n.members[..i];
    ReadsMember(m, r, read);
    assert "\"" + m.key + "\":" + Text(m.value) + r == Head(m.key) + (Text(m.value) + r);
    EmplaceLast(read, m);
    assert read + [m] == n.members[..i + 1];
  }

  /** What is stored for a container whose text breaks off. */
  function CutNode(q: string): Node
    requires q != "" && (q[0] == '{' || q[0] == '[')
  {
    if q[0] == '{' then ParseObject(q) else Invalid
  }

  lemma StepsCut(q: string, key: string, members: seq<Member>)
    requires q != "" && (q[0] == '{' || q[0] == '[') && Closing(q[1..], 1, q[0], CloseOf(q[0])).None?
    ensures StepObject(q, ValueState(key, members)) == Next("", KeyState(Emplace(members, Member(key, CutNode(q)))))
  {
    assert ContainerLength(q) == |q| && q[..|q|] == q && q[|q|..] == "";
    assert ContainerNode(q) == CutNode(q);
    assert StepObject(q, ValueState(key, members)) == Next(q[|q|..], Store(ValueState(key, members), CutNode(q)));
  }

  /** A container as the last thing that is read, and broken off. */
  lemma ReadsCut(key: string, q: string, read: seq<Member>)
    requires Raw(key) && forall i :: 0 <= i < |read| ==> Less(read[i].key, key)
    requires q != "" && (q[0] == '{' || q[0] == '[') && Closing(q[1..], 1, q[0], CloseOf(q[0])).None?
    ensures ObjectLoop(Head(key) + q, KeyState(read)) == FinishObject(KeyState(read + [Member(key, CutNode(q))]))
  {
    var st' := KeyState(read + [Member(key, CutNode(q))]);
    ReadsHead(key, q, read);
    StepsCut(q, key, read);
    EmplaceLast(read, Member(key, CutNode(q)));
    Advance(q, ValueState(key, read), "", st');
    assert ObjectLoop("", st') == FinishObject(st');
  }

  lemma StoresCut(n: Node, i: nat, q: string)
    requires n.Object? && PartsPrintable(n) && i < |n.members| && IsContainer(n.members[i].value)
    requires Delimited(n.members[i].value)
    requires q != "" && Prefix(q, Text(n.members[i].value)) && |q| < |Text(n.members[i].value)|
    ensures var m := n.members[i];
            ObjectLoop(Head(m.key) + q, KeyState(n.members[..i]))
            == FinishObject(KeyState(n.members[..i] + [Member(m.key, CutNode(q))]))
  {
    var m := n.members[i];
    NotYetClosed(Text(m.value), q);
    TailsAgree(Text(m.value), q);
    ReadsCut(m.key, q, n.members[..i]);
  }

  lemma InvalidMember(members: seq<Member>, m: Member)
    requires !Valid(m.value)
    ensures !Valid(FinishObject(KeyState(members + [m])))
  {
    var st := KeyState(members + [m]);
    assert st.members[|members|] == m;
  }

  lemma CutHead(key: string, j: nat, members: seq<Member>)
    requires Raw(key) && j <= |key| && (j > 0 ==> IsBracket(key[j - 1]))
    ensures !Valid(ObjectLoop("\"" + key[..j], KeyState(members)))
  {
    var p, st := "\"" + key[..j], KeyState(members);
    assert p[1..] == key[..j];
    Advance(p, st, p[1..], st.(quoted := true));
    CutKey(key, j, "", members);
  }

  lemma CutValue(key: string, text: string, j: nat, members: seq<Member>)
    requires Raw(text) && j <= |text| && (j > 0 ==> IsBracket(text[j - 1]))
    ensures !Valid(ObjectLoop("\"" + text[..j], ValueState(key, members)))
  {
    var p, st := "\"" + text[..j], ValueState(key, members);
    assert p[1..] == text[..j];
    Advance(p, st, p[1..], st.(quoted := true));
    CutString(text, j, key, "", members);
  }

  /** `p` ends inside member `i`, at a brace. */
  predicate EndsInMember(n: Node, i: nat, p: string) {
    && n.Object? && PartsPrintable(n) && i < |n.members| && Delimited(n.members[i].value)
    && p != "" && p[|p| - 1] == '}' && Prefix(p, Head(n.members[i].key) + Text(n.members[i].value))
  }

  lemma HeadCut(key: string, text: string, p: string)
    requires p != "" && IsBracket(p[|p| - 1]) && Prefix(p, Head(key) + text) && |p| <= |Head(key)|
    ensures |p| - 1 <= |key| && p == "\"" + key[..|p| - 1] && (|p| > 1 ==> IsBracket(key[|p| - 2]))
  {
    var head := "\"" + key + "\":";
    assert p == head[..|p|] && head[|key| + 1] == '"' && head[|key| + 2] == ':';
  }

  lemma EndsInKey(n: Node, i: nat, p: string)
    requires EndsInMember(n, i, p) && |p| <= |Head(n.members[i].key)|
    ensures !Valid(ObjectLoop(p, KeyState(n.members[..i])))
  {
    var key := n.members[i].key;
    HeadCut(key, Text(n.members[i].value), p);
    CutHead(key, |p| - 1, n.members[..i]);
  }

  lemma EndsInString(n: Node, i: nat, q: string)
    requires n.Object? && i < |n.members| && EndsInMember(n, i, Head(n.members[i].key) + q) && q != "" && n.members[i].value.Str?
    ensures !Valid(ObjectLoop(Head(n.members[i].key) + q, KeyState(n.members[..i])))
  {
    var m := n.members[i];
    CutPrefix(Head(m.key), Text(m.value), q);
    var text := m.value.text;
    assert q == "\"" + text[..|q| - 1];
    ReadsHead(m.key, q, n.members[..i]);
    CutValue(m.key, text, |q| - 1, n.members[..i]);
  }

  lemma CutPrefix(a: string, b: string, q: string)
    requires Prefix(a + q, a + b)
    ensures Prefix(q, b) && (q != "" ==> (a + q)[|a + q| - 1] == q[|q| - 1])
  {
    assert (a + q)[|a|..] == q && (a + b)[|a|..] == b;
    assert (a + b)[..|a| + |q|][|a|..] == b[..|q|];
  }

  /** Cut at a brace, a member that is no object leaves the object invalid. */
  lemma EndsInOther(n: Node, i: nat, q: string)
    requires n.Object? && i < |n.members| && EndsInMember(n, i, Head(n.members[i].key) + q) && q != "" && !n.members[i].value.Object?
    ensures !Valid(ObjectLoop(Head(n.members[i].key) + q, KeyState(n.members[..i])))
  {
    var m := n.members[i];
    CutPrefix(Head(m.key), Text(m.value), q);
    if m.value.Str? {
      EndsInString(n, i, q);
    } else if m.value.Array? {
      StoresCut(n, i, q);
      InvalidMember(n.members[..i], Member(m.key, CutNode(q)));
    } else {
      PlainText(m.value);
    }
  }

  lemma SplitPrefix(a: string, b: string, p: string)
    requires Prefix(p, a + b) && |p| > |a|
    ensures p == a + p[|a|..] && Prefix(p[|a|..], b)
  {
    assert (a + b)[..|p|] == a + b[..|p| - |a|];
  }

  /** `p` is a text that breaks off at a closing bracket before its end. */
  predicate BrokenOff(p: string, whole: string, close: char) {
    p != "" && p[|p| - 1] == close && Prefix(p, whole) && |p| < |whole|
  }

  /** Where a text of members breaks off: inside member `i`, or behind it. */
  lemma BreaksOff(n: Node, i: nat, p: string) returns (p': string)
    requires n.Object? && PartsPrintable(n) && i < |n.members| && Delimited(n.members[i].value)
    requires BrokenOff(p, MembersText(n.members[i..]) + "}", '}')
    ensures EndsInMember(n, i, p)
            || (i < |n.members| - 1 && BrokenOff(p', MembersText(n.members[i + 1..]) + "}", '}')
                && p == (Head(n.members[i].key) + Text(n.members[i].value)) + ("," + p'))
  {
    var head, text, behind := Head(n.members[i].key), Text(n.members[i].value), Beyond(n.members, i, "}");
    MembersFrom(n.members, i, "}");
    assert head + (text + behind) == (head + text) + behind;
    var first := head + text;
    p' := "";
    if |p| > |first| {
      SplitPrefix(first, behind, p);
      p' := CommaOrEnd(behind, MembersText(n.members[i + 1..]) + "}", p[|first|..], i == |n.members| - 1, '}');
    }
  }

  lemma CommaOrEnd(behind: string, rest: string, r: string, last: bool, close: char) returns (p': string)
    requires behind == if last then [close] else "," + rest
    requires BrokenOff(r, behind, close) && close != ','
    ensures !last && r == "," + p' && BrokenOff(p', rest, close)
  {
    assert behind[1..] == if last then "" else rest;
    p' := r[1..];
  }

  /** Cut inside member `i`: either the object is not valid, or the member is an object and is cut
      itself. */
  lemma CutInside(n: Node, i: nat, p: string) returns (q: string)
    requires n.Object? && i < |n.members| && EndsInMember(n, i, p)
    ensures !Valid(ObjectLoop(p, KeyState(n.members[..i])))
            || (n.members[i].value.Object? && q != "" && p == Head(n.members[i].key) + q
                && Prefix(q, Text(n.members[i].value)))
  {
    var head, text := Head(n.members[i].key), Text(n.members[i].value);
    q := "";
    if |p| <= |head| {
      EndsInKey(n, i, p);
    } else {
      SplitPrefix(head, text, p);
      q := p[|head|..];
      if !n.members[i].value.Object? {
        EndsInOther(n, i, q);
      }
    }
  }

  /** The members read before the cut. */
  lemma ReadsBeforeCut(n: Node, i: nat, p': string)
    requires n.Object? && PartsPrintable(n) && i < |n.members| && Delimited(n.members[i].value)
    ensures ObjectLoop((Head(n.members[i].key) + Text(n.members[i].value)) + ("," + p'), KeyState(n.members[..i]))
            == ObjectLoop(p', KeyState(n.members[..i + 1]))
  {
    var head, text, r := Head(n.members[i].key), Text(n.members[i].value), "," + p';
    assert (head + text) + r == head + (text + r) && r[1..] == p';
    ReadsOne(n, i, r);
  }

  lemma ClosesInside(n: Node, i: nat, p: string, depth: nat)
    requires n.Object? && i < |n.members| && EndsInMember(n, i, p) && depth > 0
    requires Closing(p, depth, '{', '}') == Some(|p|)
    ensures !Valid(ObjectLoop(p, KeyState(n.members[..i])))
  {
    var q := CutInside(n, i, p);
    if Valid(ObjectLoop(p, KeyState(n.members[..i]))) {
      NeverBehind(Head(n.members[i].key), Text(n.members[i].value), q, depth);
    }
  }

  lemma NeverBehind(head: string, t: string, q: string, depth: nat)
    requires Encloses(t) && q != "" && Prefix(q, t) && depth > 0
    ensures Closing(head + q, depth, t[0], CloseOf(t[0])) != Some(|head + q|)
  {
    if Closing(head + q, depth, t[0], CloseOf(t[0])) == Some(|head + q|) {
      StillToClose(head, q, depth, t[0], CloseOf(t[0]));
      NeverInside(t, q, Level(head, depth, t[0], CloseOf(t[0])));
    }
  }

  lemma ClosesBehind(first: string, p': string, depth: nat, open: char, close: char) returns (level: nat)
    requires depth > 0 && Pair(open, close) && p' != ""
    requires Closing(first + ("," + p'), depth, open, close) == Some(|first + ("," + p')|)
    ensures level > 0 && Closing(p', level, open, close) == Some(|p'|)
  {
    StillToClose(first, "," + p', depth, open, close);
    level := Level(first, depth, open, close);
    CommaCloses(p', level, open, close);
  }

  /** Cut where its braces are first balanced, an object is not valid. */
  lemma {:induction false} CutMembers(n: Node, i: nat, p: string, depth: nat)
    requires n.Object? && Printable(n) && i < |n.members| && depth > 0
    requires BrokenOff(p, MembersText(n.members[i..]) + "}", '}') && Closing(p, depth, '{', '}') == Some(|p|)
    ensures !Valid(ObjectLoop(p, KeyState(n.members[..i])))
    decreases |n.members| - i
  {
    var p' := BreaksOff(n, i, p);
    if EndsInMember(n, i, p) {
      ClosesInside(n, i, p, depth);
    } else {
      var first := Head(n.members[i].key) + Text(n.members[i].value);
      var level := ClosesBehind(first, p', depth, '{', '}');
      CutMembers(n, i + 1, p', level);
      ReadsBeforeCut(n, i, p');
    }
  }

  lemma BracketInside(a: string, b: string, c: string, q: string)
    requires c != "" && c[0] != ']' && Prefix(a + q + "]", a + (b + c)) && Prefix(q, b)
    ensures Prefix(q + "]", b)
  {
    var p, whole := a + q + "]", a + (b + c);
    assert p[|a| + |q|] == whole[|a| + |q|] == (b + c)[|q|];
    assert |q| < |b|;
    assert q + "]" == b[..|q| + 1];
  }

  /** A nested object that is cut in front of a square bracket: its own text is. */
  lemma NestedBefore(v: Node, q: string)
    requires v.Object? && q != "" && q[|q| - 1] == '}' && Prefix(q + "]", Text(v))
    ensures v.members != [] && |q| > 1 && q[1..][|q| - 2] == '}' && |q| < |Text(v)| && Prefix(q, Text(v))
    ensures Prefix(q[1..] + "]", MembersText(v.members[0..]) + "}")
    ensures CutNode(q) == ObjectLoop(q[1..], KeyState(v.members[..0]))
  {
    assert v.members[0..] == v.members && v.members[..0] == [];
    CutBraces(MembersText(v.members), q);
    assert q == "{" + q[1..];
    ParseBraced(q[1..]);
  }

  lemma CutBraces(inside: string, q: string)
    requires q != "" && q[|q| - 1] == '}' && Prefix(q + "]", "{" + inside + "}")
    ensures inside != "" && |q| > 1 && q[0] == '{' && |q| < |inside| + 2 && Prefix(q, "{" + inside + "}")
    ensures Prefix(q[1..] + "]", inside + "}")
  {
    var t, qb := "{" + inside + "}", q + "]";
    assert qb == t[..|q| + 1] && qb[0] == q[0] == t[0] && qb[|q|] == t[|q|] == ']';
    assert t[1..] == inside + "}" && qb[1..] == q[1..] + "]" == t[1..][..|q|];
    assert q == t[..|q|];
  }

  lemma BracketBehind(first: string, rest: string, p: string, p': string, whole: string)
    requires whole == first + ("," + rest) && p == first + ("," + p') && Prefix(p + "]", whole)
    ensures Prefix(p' + "]", rest)
  {
    assert whole[|first| + 1..] == rest;
    assert (p + "]")[|first| + 1..] == p' + "]";
  }

  lemma NestedCut(n: Node, i: nat, q: string)
    requires n.Object? && i < |n.members| && n.members[i].value.Object? && q != "" && q[|q| - 1] == '}'
    requires Prefix(Head(n.members[i].key) + q + "]", MembersText(n.members[i..]) + "}")
    requires Prefix(q, Text(n.members[i].value))
    ensures var v := n.members[i].value;
            && v.members != [] && |q| > 1 && q[1..][|q| - 2] == '}' && |q| < |Text(v)|
            && Prefix(q[1..] + "]", MembersText(v.members[0..]) + "}")
            && CutNode(q) == ObjectLoop(q[1..], KeyState(v.members[..0]))
  {
    MembersFrom(n.members, i, "}");
    BracketInside(Head(n.members[i].key), Text(n.members[i].value), Beyond(n.members, i, "}"), q);
    NestedBefore(n.members[i].value, q);
  }

  lemma FirstOfMore(members: seq<Member>, i: nat)
    requires i < |members| - 1
    ensures MembersText(members[i..]) + "}"
            == (Head(members[i].key) + Text(members[i].value)) + ("," + (MembersText(members[i + 1..]) + "}"))
  {
    MembersFrom(members, i, "}");
    var head, text, r := Head(members[i].key), Text(members[i].value), Beyond(members, i, "}");
    assert (head + text) + r == head + (text + r);
  }

  /** Cut in front of a square bracket that belongs to its text, an object is not valid. */
  lemma {:induction false} CutBefore(n: Node, i: nat, p: string)
    requires n.Object? && Printable(n) && i < |n.members|
    requires p != "" && p[|p| - 1] == '}' && Prefix(p + "]", MembersText(n.members[i..]) + "}")
    ensures !Valid(ObjectLoop(p, KeyState(n.members[..i])))
    decreases n, |n.members| - i
  {
    if EndsInMember(n, i, p) {
      CutBeforeInside(n, i, p);
    } else {
      var p' := BehindFirst(n, i, p);
      CutBefore(n, i + 1, p');
      ReadsBeforeCut(n, i, p');
    }
  }

  lemma BehindFirst(n: Node, i: nat, p: string) returns (p': string)
    requires n.Object? && Printable(n) && i < |n.members| && !EndsInMember(n, i, p)
    requires p != "" && p[|p| - 1] == '}' && Prefix(p + "]", MembersText(n.members[i..]) + "}")
    ensures i < |n.members| - 1 && p' != "" && p'[|p'| - 1] == '}'
    ensures Prefix(p' + "]", MembersText(n.members[i + 1..]) + "}")
    ensures p == (Head(n.members[i].key) + Text(n.members[i].value)) + ("," + p')
  {
    Shorter(p, MembersText(n.members[i..]) + "}");
    p' := BreaksOff(n, i, p);
    FirstOfMore(n.members, i);
    BracketBehind(Head(n.members[i].key) + Text(n.members[i].value), MembersText(n.members[i + 1..]) + "}", p, p',
                  MembersText(n.members[i..]) + "}");
  }

  lemma Shorter(p: string, whole: string)
    requires p != "" && p[|p| - 1] == '}' && Prefix(p + "]", whole)
    ensures BrokenOff(p, whole, '}')
  {
    assert (p + "]")[..|p|] == p == whole[..|p|];
  }

  lemma {:induction false} CutBeforeInside(n: Node, i: nat, p: string)
    requires n.Object? && Printable(n) && i < |n.members| && EndsInMember(n, i, p)
    requires Prefix(p + "]", MembersText(n.members[i..]) + "}")
    ensures !Valid(ObjectLoop(p, KeyState(n.members[..i])))
    decreases n, 0
  {
    var q := CutInside(n, i, p);
    if Valid(ObjectLoop(p, KeyState(n.members[..i]))) {
      NestedCut(n, i, q);
      CutBefore(n.members[i].value, 0, q[1..]);
      StoresCut(n, i, q);
      InvalidMember(n.members[..i], Member(n.members[i].key, CutNode(q)));
    }
  }

  // ---------------------------------------------------------------- items

  lemma ItemBreaksOff(n: Node, i: nat, p: string) returns (p': string)
    requires n.Array? && i < |n.items| && BrokenOff(p, ItemsText(n.items[i..]) + "]", ']')
    ensures Prefix(p, Text(n.items[i]))
            || (i < |n.items| - 1 && BrokenOff(p', ItemsText(n.items[i + 1..]) + "]", ']')
                && p == Text(n.items[i]) + ("," + p'))
  {
    var text, behind := Text(n.items[i]), Behind(n.items, i);
    ItemsFrom(n.items, i);
    p' := "";
    if |p| > |text| {
      SplitPrefix(text, behind, p);
      p' := CommaOrEnd(behind, ItemsText(n.items[i + 1..]) + "]", p[|text|..], i == |n.items| - 1, ']');
    } else {
      assert p == (text + behind)[..|p|] == text[..|p|];
    }
  }

  /** Cut in front of a square bracket, a nested object is not valid. */
  lemma CutObject(v: Node, q: string)
    requires v.Object? && Printable(v) && q != "" && Prefix(q + "]", Text(v))
    ensures q[0] == '{' && !Valid(CutNode(q))
  {
    assert (q + "]")[0] == q[0] == Text(v)[0];
    if q[|q| - 1] == '}' {
      NestedBefore(v, q);
      CutBefore(v, 0, q[1..]);
    }
  }

  lemma StepsCutObject(q: string, items: seq<Node>)
    requires q != "" && q[0] == '{' && Closing(q[1..], 1, '{', '}').None?
    ensures ArrayLoop(q + "]", ArrayState(false, "", items))
            == FinishArray(ArrayState(false, "", items + [CutNode(q)]))
  {
    var s, st := q + "]", ArrayState(false, "", items);
    assert s[..|s| - 1] == q && s[..|q|] == q && s[|q|..] == "]" && s[0] == '{';
    assert ContainerLength(q) == |q|;
    assert StepArray(s, st) == NextItem("]", Append(st, CutNode(q)));
    AdvanceItem(s, st, "]", Append(st, CutNode(q)));
  }

  lemma InvalidItem(items: seq<Node>, v: Node)
    requires !Valid(v)
    ensures !Valid(FinishArray(ArrayState(false, "", items + [v])))
  {
    var st := ArrayState(false, "", items + [v]);
    assert st.items[|items|] == v;
  }

  lemma CutStringItem(text: string, p: string, items: seq<Node>)
    requires Raw(text) && p != "" && p[|p| - 1] == ']' && Prefix(p, Text(Str(text)))
    ensures !Valid(ArrayLoop(p, ArrayState(false, "", items)))
  {
    var j, st := |p| - 1, ArrayState(false, "", items);
    var t := "\"" + text + "\"";
    assert p == t[..|p|] && p[0] == t[0] && t[|text| + 1] == '"';
    assert p[1..] == text[..j];
    AdvanceItem(p, st, p[1..], st.(quoted := true));
    CutItemString(text, j, "", items);
  }

  lemma CutObjectItem(v: Node, p: string, items: seq<Node>)
    requires v.Object? && Printable(v) && Delimited(v) && p != "" && p[|p| - 1] == ']' && Prefix(p, Text(v))
    ensures !Valid(ArrayLoop(p, ArrayState(false, "", items)))
  {
    var t, q := Text(v), p[..|p| - 1];
    assert p == q + "]" && p == t[..|p|] && p[0] == t[0];
    assert Prefix(q, t) && |q| < |t|;
    CutObject(v, q);
    NotYetClosed(t, q);
    StepsCutObject(q, items);
    InvalidItem(items, CutNode(q));
  }

  lemma ItemClosesInside(n: Node, i: nat, p: string, depth: nat)
    requires n.Array? && PartsPrintable(n) && i < |n.items| && Delimited(n.items[i]) && depth > 0
    requires p != "" && Prefix(p, Text(n.items[i])) && Closing(p, depth, '[', ']') == Some(|p|)
    ensures !Valid(ArrayLoop(p, ArrayState(false, "", n.items[..i])))
  {
    var v := n.items[i];
    if v.Str? {
      CutStringItem(v.text, p, n.items[..i]);
    } else if v.Object? {
      CutObjectItem(v, p, n.items[..i]);
    } else if v.Array? {
      NeverInside(Text(v), p, depth);
    } else {
      PlainText(v);
    }
  }

  lemma ReadsItemBeforeCut(n: Node, i: nat, p': string)
    requires n.Array? && PartsPrintable(n) && i < |n.items| && Delimited(n.items[i]) && p' != ""
    ensures ArrayLoop(Text(n.items[i]) + ("," + p'), ArrayState(false, "", n.items[..i]))
            == ArrayLoop(p', ArrayState(false, "", n.items[..i + 1]))
  {
    var r := "," + p';
    assert r[1..] == p' && n.items[..i] + [n.items[i]] == n.items[..i + 1];
    ReadsItem(n.items[i], r, n.items[..i]);
  }

  /** Cut where its square brackets are first balanced, an array is not valid. */
  lemma {:induction false} CutItems(n: Node, i: nat, p: string, depth: nat)
    requires n.Array? && Printable(n) && i < |n.items| && depth > 0
    requires BrokenOff(p, ItemsText(n.items[i..]) + "]", ']') && Closing(p, depth, '[', ']') == Some(|p|)
    ensures !Valid(ArrayLoop(p, ArrayState(false, "", n.items[..i])))
    decreases |n.items| - i
  {
    var p' := ItemBreaksOff(n, i, p);
    if Prefix(p, Text(n.items[i])) {
      ItemClosesInside(n, i, p, depth);
    } else {
      var level := ClosesBehind(Text(n.items[i]), p', depth, '[', ']');
      CutItems(n, i + 1, p', level);
      ReadsItemBeforeCut(n, i, p');
    }
  }

  // ---------------------------------------------------------------- containers

  /** How much of its text it takes, behind the opening bracket, to close a container. */
  function Found(n: Node): Option<nat>
    requires IsContainer(n)
  {
    Closing(Text(n)[1..], 1, Text(n)[0], CloseOf(Text(n)[0]))
  }

  predicate Unclosed(n: Node) {
    IsContainer(n) && Found(n).None?
  }

  predicate ClosesEarly(n: Node) {
    IsContainer(n) && Found(n).Some? && Found(n).value < |Text(n)| - 1
  }

  lemma ThreeWays(n: Node)
    requires IsContainer(n)
    ensures Delimited(n) <==> !Unclosed(n) && !ClosesEarly(n)
    ensures Delimited(n) <==> Encloses(Text(n))
    ensures Text(n)[0] == (if n.Object? then '{' else '[')
  {
    assert Closing(Text(n)[1..], 1, Text(n)[0], CloseOf(Text(n)[0])).Some? ==> Found(n).value <= |Text(n)[1..]|;
  }

  /** The text that is taken for the container. */
  function EarlyPart(n: Node): (q: string)
    requires ClosesEarly(n)
    ensures q != "" && q[0] == Text(n)[0]
  {
    Text(n)[..Found(n).value + 1]
  }

  lemma EarlyIsBroken(t: string, inside: string, n: nat, open: char, close: char)
    requires t == [open] + inside + [close] && Pair(open, close)
    requires Closing(t[1..], 1, open, close) == Some(n) && n < |t| - 1
    ensures n > 0 && t[..n + 1][1..] == t[1..][..n] && t[..n + 1] == [open] + t[1..][..n]
    ensures t[1..] == inside + [close] && BrokenOff(t[1..][..n], inside + [close], close)
    ensures Closing(t[1..][..n], 1, open, close) == Some(n)
  {
    ClosingCut(t[1..], 1, open, close);
  }

  /** Nothing behind the closing bracket matters. */
  lemma {:induction false} ClosingCut(s: string, depth: nat, open: char, close: char)
    requires Closing(s, depth, open, close).Some?
    ensures var n := Closing(s, depth, open, close).value;
            n <= |s| && Closing(s[..n], depth, open, close) == Some(n)
    decreases |s|
  {
    if depth > 0 {
      ClosingCut(s[1..], Depth(s[0], depth, open, close), open, close);
      var n := Closing(s, depth, open, close).value;
      assert s[..n][1..] == s[1..][..n - 1];
    }
  }

  /** A container that closes early is read as something that is not valid. */
  lemma EarlyIsInvalid(n: Node)
    requires ClosesEarly(n) && Printable(n)
    ensures !Valid(if n.Object? then ParseObject(EarlyPart(n)) else ParseArray(EarlyPart(n)))
  {
    if n.Object? {
      EarlyObject(n);
    } else {
      EarlyArray(n);
    }
  }

  lemma EarlyObject(n: Node)
    requires n.Object? && ClosesEarly(n) && Printable(n)
    ensures !Valid(ParseObject(EarlyPart(n)))
  {
    var p := EarlyPart(n)[1..];
    EarlyIsBroken(Text(n), MembersText(n.members), Found(n).value, '{', '}');
    assert n.members[0..] == n.members && n.members[..0] == [];
    ParseBraced(p);
    CutMembers(n, 0, p, 1);
  }

  lemma EarlyArray(n: Node)
    requires n.Array? && ClosesEarly(n) && Printable(n)
    ensures !Valid(ParseArray(EarlyPart(n)))
  {
    var p := EarlyPart(n)[1..];
    EarlyIsBroken(Text(n), ItemsText(n.items), Found(n).value, '[', ']');
    assert n.items[0..] == n.items && n.items[..0] == [];
    CutItems(n, 0, p, 1);
  }
}
