/** The two scanners of the JSON parser, as functions on the text that is still to be read.

    `Construct` of the source is `ParseObject` and `ObjectLoop`, the array constructor is
    `ParseArray` and `ArrayLoop`. `JsonScanner.dfy` holds the index loops that compute them. */
module JsonParser {
  import opened Options
  import opened JsonText

  /** What a failed parse leaves behind: an object that is not valid. */
  const Invalid: Node := Object(false, [])

  predicate IsBlank(c: char) {
    c == ' ' || c == '\n' || c == '\t'
  }

  predicate IsBracket(c: char) {
    c == '{' || c == '}' || c == '[' || c == ']'
  }

  /** `s` starts with a backslash that takes the next quote or backslash along; `bound` characters
      are in reach. */
  predicate StartsEscape(s: string, bound: int) {
    |s| >= 2 && bound >= 2 && s[0] == '\\' && (s[1] == '"' || s[1] == '\\')
  }

  function Depth(c: char, depth: nat, open: char, close: char): nat
    requires depth > 0
  {
    var d := if c == open then depth + 1 else depth;
    if c == close then d - 1 else d
  }

  /** `rest` is what is left of `s` after reading at least one character. */
  predicate Tail(rest: string, s: string) {
    |rest| < |s| && rest == s[|s| - |rest|..]
  }

  /** How many characters of `s` it takes to close `depth` brackets, quotes being ignored. */
  function Closing(s: string, depth: nat, open: char, close: char): (n: Option<nat>)
    ensures n.Some? ==> n.value <= |s| && (depth > 0 ==> n.value > 0 && s[n.value - 1] == close)
  {
    if depth == 0 then Some(0)
    else if s == "" then None
    else
      match Closing(s[1..], Depth(s[0], depth, open, close), open, close)
      case None => None
      case Some(n) => Some(n + 1)
  }

  /** `std::map::emplace`: an existing key keeps its value. */
  function Emplace(members: seq<Member>, m: Member): seq<Member> {
    if members == [] || Less(m.key, members[0].key) then [m] + members
    else if m.key == members[0].key then members
    else [members[0]] + Emplace(members[1..], m)
  }

  datatype NumberScan =
    | Unfinished                          // the text ended inside the number
    | Malformed
    | Finished(node: Node, rest: string)  // the character after the number is consumed as well

  function Convert(value: string, dot: bool, exponent: string, negative: bool): Option<Node>
    requires value != ""
  {
    if dot || exponent != "" then Some(Float(value, exponent))
    else if negative then
      var i := -Decimal(value[1..]);
      if i >= -TWO_63 then Some(Int(i)) else None
    else
      var u := Decimal(value);
      if u < TWO_64 then Some(UInt(u)) else None
  }

  function FinishNumber(s: string, value: string, dot: bool, exponent: string, negative: bool): (r: NumberScan)
    requires value != "" && s != ""
    ensures r.Finished? ==> r.rest == s[1..]
  {
    match Convert(value, dot, exponent, negative)
    case None => Malformed
    case Some(node) => Finished(node, s[1..])
  }

  function ScanExponent(s: string, value: string, dot: bool, exponent: string, negative: bool): (r: NumberScan)
    requires value != ""
    ensures r.Finished? ==> Tail(r.rest, s)
  {
    if s == "" then Unfinished
    else if IsDigit(s[0]) || s[0] == '+' || s[0] == '-' then
      ScanExponent(s[1..], value, dot, exponent + [s[0]], negative)
    else FinishNumber(s, value, dot, exponent, negative)
  }

  /** The rest of a number whose text so far is `value`. */
  function ScanNumber(s: string, value: string, dot: bool, negative: bool): (r: NumberScan)
    requires value != ""
    ensures r.Finished? ==> Tail(r.rest, s)
    decreases |s|
  {
    if s == "" then Unfinished
    else if IsDigit(s[0]) then ScanNumber(s[1..], value + [s[0]], dot, negative)
    else if s[0] == '.' then
      if dot then Malformed else ScanNumber(s[1..], value + ".", true, negative)
    else if s[0] == 'e' then ScanExponent(s[1..], value, dot, "e", negative)
    else FinishNumber(s, value, dot, "", negative)
  }

  /** A literal that must be followed by more than `beyond` further characters. */
  function Literal(s: string, beyond: nat): (r: Option<(Node, string)>)
    ensures r.Some? ==> Tail(r.value.1, s)
  {
    if |s| > 3 + beyond && s[..4] == "true" then Some((Bool(true), s[4..]))
    else if |s| > 4 + beyond && s[..5] == "false" then Some((Bool(false), s[5..]))
    else if |s| > 3 + beyond && s[..4] == "null" then Some((Null, s[4..]))
    else None
  }

  predicate StartsLiteral(c: char) {
    c == 't' || c == 'f' || c == 'n'
  }

  // ---------------------------------------------------------------- objects

  datatype ObjectState =
    ObjectState(isKey: bool, quoted: bool, key: string, value: string, members: seq<Member>)

  function KeyState(members: seq<Member>): ObjectState {
    ObjectState(true, false, "", "", members)
  }

  function ValueState(key: string, members: seq<Member>): ObjectState {
    ObjectState(false, false, key, "", members)
  }

  function Store(st: ObjectState, node: Node): ObjectState {
    KeyState(Emplace(st.members, Member(st.key, node)))
  }

  function FinishObject(st: ObjectState): Node {
    Object(
      st.isKey && st.key == "" && st.value == "" && !st.quoted
      && forall i :: 0 <= i < |st.members| ==> Valid(st.members[i].value),
      st.members)
  }

  datatype ObjectStep = Next(rest: string, st: ObjectState) | Stop(node: Node)

  function Abort(st: ObjectState): ObjectStep {
    Stop(Object(false, st.members))
  }

  /** One step while reading keys and what stands around them. */
  function KeyStep(s: string, st: ObjectState): (r: ObjectStep)
    requires s != "" && st.isKey
    ensures r.Next? ==> Tail(r.rest, s)
  {
    var c := s[0];
    if st.quoted then
      if c == '"' then Next(s[1..], st.(isKey := false, quoted := false))
      else if StartsEscape(s, |s|) then Next(s[2..], st.(key := st.key + s[..2]))
      else Next(s[1..], st.(key := st.key + [c]))
    else if c == '"' then Next(s[1..], st.(quoted := true))
    else if IsBlank(c) || c == ',' || IsBracket(c) then Next(s[1..], st)
    else Abort(st)
  }

  /** One step inside a string value. */
  function StringStep(s: string, st: ObjectState): (r: ObjectStep)
    requires s != "" && !st.isKey && st.quoted
    ensures r.Next? ==> Tail(r.rest, s)
  {
    if s[0] == '"' then Next(s[1..], Store(st, Str(st.value)))
    else if StartsEscape(s, |s|) then Next(s[2..], st.(value := st.value + s[..2]))
    else Next(s[1..], st.(value := st.value + [s[0]]))
  }

  function NumberStep(scan: NumberScan, st: ObjectState): (r: ObjectStep)
    ensures r.Next? ==> scan.Finished? && r.rest == scan.rest
  {
    match scan
    case Unfinished => Stop(Object(false, st.members))
    case Malformed => Abort(st)
    case Finished(node, rest) => Next(rest, Store(st, node))
  }

  /** One step at a value that is neither a string nor a container. */
  function PlainStep(s: string, st: ObjectState): (r: ObjectStep)
    requires s != "" && !st.isKey && !st.quoted && s[0] != '{' && s[0] != '['
    ensures r.Next? ==> Tail(r.rest, s)
  {
    var c := s[0];
    if c == '"' then Next(s[1..], st.(quoted := true))
    else if IsBlank(c) then Next(s[1..], st)
    else if c == '-' then
      if |s| < 2 || !IsDigit(s[1]) then Abort(st)
      else NumberStep(ScanNumber(s[2..], st.value + s[..2], false, true), st)
    else if IsDigit(c) then NumberStep(ScanNumber(s[1..], st.value + [c], false, false), st)
    else if StartsLiteral(c) then
      match Literal(s, 0)
      case None => Abort(st)
      case Some((node, rest)) => Next(rest, Store(st, node))
    else if c == ',' || c == ':' then Next(s[1..], st)
    else if (c == '}' || c == ']') && |s| == 1 then Stop(FinishObject(st))
    else Abort(st)
  }

  /** The text of the container that starts `s`: up to its closing bracket, or all of `s`. */
  function ContainerLength(s: string): (n: nat)
    requires s != "" && (s[0] == '{' || s[0] == '[')
    ensures 1 <= n <= |s|
  {
    match Closing(s[1..], 1, s[0], if s[0] == '{' then '}' else ']')
    case None => |s|
    case Some(n) => n + 1
  }

  /** The array that starts `s`. One that is never closed would end beyond the body, where there
      is no bracket to find. */
  function ArrayNode(s: string): Node
    requires s != "" && s[0] == '['
    decreases |s|, 4
  {
    if Closing(s[1..], 1, '[', ']').None? then Invalid else ParseArray(s[..ContainerLength(s)])
  }

  function ContainerNode(s: string): Node
    requires s != "" && (s[0] == '{' || s[0] == '[')
    decreases |s|, 6
  {
    if s[0] == '{' then ParseObject(s[..ContainerLength(s)]) else ArrayNode(s)
  }

  /** One step at anything a member consists of. */
  function StepObject(s: string, st: ObjectState): (r: ObjectStep)
    requires s != ""
    ensures r.Next? ==> Tail(r.rest, s)
    decreases |s|, 7
  {
    if st.isKey then KeyStep(s, st)
    else if st.quoted then StringStep(s, st)
    else if s[0] == '{' || s[0] == '[' then Next(s[ContainerLength(s)..], Store(st, ContainerNode(s)))
    else PlainStep(s, st)
  }

  function ObjectLoop(s: string, st: ObjectState): Node
    decreases |s|, 8
  {
    if s == "" then FinishObject(st)
    else
      match StepObject(s, st)
      case Stop(node) => node
      case Next(rest, st') => ObjectLoop(rest, st')
  }

  /** The root may be an array: it is stored under a key of its own, and the scan goes on behind
      it. */
  function ParseObject(body: string): Node
    decreases |body|, 5
  {
    if |body| < 2
       || (body[0] == '{' && body[|body| - 1] != '}')
       || (body[0] == '[' && body[|body| - 1] != ']')
    then Invalid
    else if body[0] == '[' then
      ObjectLoop(body[ContainerLength(body)..], KeyState([Member("rootArray", ArrayNode(body))]))
    else ObjectLoop(body[1..], KeyState([]))
  }

  // ---------------------------------------------------------------- arrays

  datatype ArrayState = ArrayState(quoted: bool, value: string, items: seq<Node>)

  datatype ArrayStep = NextItem(rest: string, st: ArrayState) | StopArray

  function Append(st: ArrayState, node: Node): ArrayState {
    ArrayState(false, "", st.items + [node])
  }

  function FinishArray(st: ArrayState): Node {
    Array(
      st.value == "" && !st.quoted && forall i :: 0 <= i < |st.items| ==> Valid(st.items[i]),
      st.items)
  }

  function ArrayNumberStep(scan: NumberScan, st: ArrayState): (r: ArrayStep)
    ensures r.NextItem? ==> scan.Finished? && r.rest == scan.rest
  {
    if scan.Finished? then NextItem(scan.rest, Append(st, scan.node)) else StopArray
  }

  /** One step at anything but a container; the last character of `s` closes the array. */
  function ItemStep(s: string, st: ArrayState): (r: ArrayStep)
    requires |s| > 1
    ensures r.NextItem? ==> Tail(r.rest, s)
  {
    var c := s[0];
    if st.quoted then
      if c == '"' then NextItem(s[1..], Append(st, Str(st.value)))
      else if StartsEscape(s, |s| - 1) then NextItem(s[2..], st.(value := st.value + s[..2]))
      else NextItem(s[1..], st.(value := st.value + [c]))
    else if c == '"' then NextItem(s[1..], st.(quoted := true))
    else if IsBlank(c) then NextItem(s[1..], st)
    else if c == '-' then
      if |s| < 3 || !IsDigit(s[1]) then StopArray
      else ArrayNumberStep(ScanNumber(s[2..], st.value + s[..2], false, true), st)
    else if IsDigit(c) then ArrayNumberStep(ScanNumber(s[1..], st.value + [c], false, false), st)
    else if StartsLiteral(c) then
      match Literal(s, 1)
      case None => StopArray
      case Some((node, rest)) => NextItem(rest, Append(st, node))
    else if c == ',' then NextItem(s[1..], st)
    else StopArray
  }

  /** One step at a nested container. The scan does not look at the last character of `s`; a
      nested array that is not closed before it takes it for its own bracket. */
  function NestedStep(s: string, st: ArrayState): (r: ArrayStep)
    requires |s| > 1 && (s[0] == '{' || s[0] == '[')
    ensures r.NextItem? ==> Tail(r.rest, s)
    decreases |s|, 6
  {
    var inner := s[..|s| - 1];
    if s[0] == '{' then
      var n := ContainerLength(inner);
      NextItem(s[n..], Append(st, ParseObject(s[..n])))
    else
      match Closing(inner[1..], 1, '[', ']')
      case Some(n) => NextItem(s[n + 1..], Append(st, ParseArray(s[..n + 1])))
      case None => NextItem("", Append(st, ParseArray(s)))
  }

  function StepArray(s: string, st: ArrayState): (r: ArrayStep)
    requires |s| > 1
    ensures r.NextItem? ==> Tail(r.rest, s)
    decreases |s|, 7
  {
    if !st.quoted && (s[0] == '{' || s[0] == '[') then NestedStep(s, st) else ItemStep(s, st)
  }

  function ArrayLoop(s: string, st: ArrayState): Node
    decreases |s|, 8
  {
    if |s| <= 1 then FinishArray(st)
    else
      match StepArray(s, st)
      case StopArray => Invalid
      case NextItem(rest, st') => ArrayLoop(rest, st')
  }

  function ParseArray(a: string): Node
    decreases |a|, 3
  {
    if |a| < 2 || a[0] != '[' || a[|a| - 1] != ']' then Invalid
    else ArrayLoop(a[1..], ArrayState(false, "", []))
  }

  lemma ArrayStart(a: string)
    requires a != ""
    ensures ParseArray(a) == if |a| < 2 || a[0] != '[' || a[|a| - 1] != ']' then Invalid
                             else ArrayLoop(a[1..], ArrayState(false, "", []))
  {
  }
}
