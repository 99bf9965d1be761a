/** The index loops of the JSON parser. They run over a body in place and compute what the
    functions of `JsonParser` say of the text that is left. */
module JsonScanner {
  import opened Options
  import opened JsonText
  import opened JsonParser

  /** `Closing` on the characters from `i` to before `bound`. */
  function ClosingAt(body: string, i: nat, bound: nat, depth: nat, open: char, close: char): Option<nat>
    requires i <= bound <= |body|
    decreases bound - i
  {
    if depth == 0 then Some(0)
    else if i == bound then None
    else
      match ClosingAt(body, i + 1, bound, Depth(body[i], depth, open, close), open, close)
      case None => None
      case Some(n) => Some(n + 1)
  }

  lemma {:induction false} ClosingSlice(body: string, i: nat, bound: nat, depth: nat, open: char, close: char)
    requires i <= bound <= |body|
    ensures ClosingAt(body, i, bound, depth, open, close) == Closing(body[i..bound], depth, open, close)
    decreases bound - i
  {
    if depth > 0 && i < bound {
      DropOne(body, i, bound);
      ClosingSlice(body, i + 1, bound, Depth(body[i], depth, open, close), open, close);
    }
  }

  /** The index at which the container that starts at `begin` closes, or `bound`. */
  method FindClosing(body: string, begin: nat, bound: nat, open: char, close: char) returns (end: nat)
    requires begin < bound <= |body| && open != close
    ensures begin < end <= bound
    ensures Closing(body[begin + 1..bound], 1, open, close)
            == if end < bound then Some(end - begin) else None
  {
    ClosingSlice(body, begin + 1, bound, 1, open, close);
    end := ScanBrackets(body, begin, bound, open, close);
  }

  method ScanBrackets(body: string, begin: nat, bound: nat, open: char, close: char) returns (end: nat)
    requires begin < bound <= |body| && open != close
    ensures begin < end <= bound
    ensures ClosingAt(body, begin + 1, bound, 1, open, close) == if end < bound then Some(end - begin) else None
  {
    var depth := 1;
    end := begin;
    ghost var whole := ClosingAt(body, begin + 1, bound, 1, open, close);
    while depth != 0 && end + 1 < bound
      invariant begin <= end < bound && depth >= 0
      invariant depth == 0 ==> begin < end
      invariant match ClosingAt(body, end + 1, bound, depth, open, close)
                case None => whole == None
                case Some(n) => whole == Some(n + end - begin)
      decreases bound - end
    {
      end := end + 1;
      if body[end] == open {
        depth := depth + 1;
      }
      if body[end] == close {
        depth := depth - 1;
      }
    }
    if depth != 0 {
      end := bound;
    }
  }

  lemma DropOne(body: string, index: nat, bound: nat)
    requires index < bound <= |body|
    ensures body[index..bound] != "" && body[index..bound][0] == body[index]
    ensures body[index..bound][1..] == body[index + 1..bound]
  {
  }

  /** The digits, dot and exponent of a number, up to and including the character behind it. */
  method ReadNumber(body: string, start: nat, bound: nat, text: string, negative: bool)
    returns (scan: NumberScan)
    requires start <= bound <= |body| && text != ""
    ensures scan == ScanNumber(body[start..bound], text, false, negative)
  {
    var index, value, dot := start, text, false;
    ghost var goal := ScanNumber(body[start..bound], text, false, negative);
    while index < bound
      invariant start <= index <= bound && value != ""
      invariant ScanNumber(body[index..bound], value, dot, negative) == goal
    {
      DropOne(body, index, bound);
      if IsDigit(body[index]) {
        value := value + [body[index]];
      } else if body[index] == '.' {
        if dot {
          return Malformed;
        }
        value := value + ".";
        dot := true;
      } else if body[index] == 'e' {
        scan := ReadExponent(body, index + 1, bound, value, dot, negative);
        return;
      } else {
        return FinishNumber(body[index..bound], value, dot, "", negative);
      }
      index := index + 1;
    }
    return Unfinished;
  }

  method ReadExponent(body: string, start: nat, bound: nat, value: string, dot: bool, negative: bool)
    returns (scan: NumberScan)
    requires start <= bound <= |body| && value != ""
    ensures scan == ScanExponent(body[start..bound], value, dot, "e", negative)
  {
    var index, exponent := start, "e";
    ghost var goal := ScanExponent(body[start..bound], value, dot, exponent, negative);
    while index < bound
      invariant start <= index <= bound
      invariant ScanExponent(body[index..bound], value, dot, exponent, negative) == goal
    {
      DropOne(body, index, bound);
      if !IsDigit(body[index]) && body[index] != '+' && body[index] != '-' {
        return FinishNumber(body[index..bound], value, dot, exponent, negative);
      }
      exponent := exponent + [body[index]];
      index := index + 1;
    }
    return Unfinished;
  }

  /** A nested container in an object, and the index behind it. */
  method ReadContainer(body: string, index: nat) returns (node: Node, next: nat)
    requires index < |body| && (body[index] == '{' || body[index] == '[')
    ensures node == ContainerNode(body[index..]) && next == index + ContainerLength(body[index..])
    decreases |body| - index, 6
  {
    ghost var s := body[index..];
    assert s[1..] == body[index + 1..|body|];
    var end := FindClosing(body, index, |body|, body[index], if body[index] == '{' then '}' else ']');
    next := if end < |body| then end + 1 else end;
    assert s[..next - index] == body[index..next];
    if body[index] == '{' {
      node := Construct(body[index..next]);
    } else {
      node := ReadArray(body, index, end);
    }
  }

  /** One turn of the object loop. */
  method ObjectTurn(body: string, index: nat, st: ObjectState) returns (step: ObjectStep)
    requires index < |body|
    ensures step == StepObject(body[index..], st)
    decreases |body| - index, 7
  {
    var c, s := body[index], body[index..];
    if st.isKey {
      step := KeyStep(s, st);
    } else if st.quoted {
      step := StringStep(s, st);
    } else if c == '{' || c == '[' {
      var node, next := ReadContainer(body, index);
      assert s[next - index..] == body[next..];
      step := Next(body[next..], Store(st, node));
    } else {
      step := PlainTurn(body, index, st);
    }
  }

  method PlainTurn(body: string, index: nat, st: ObjectState) returns (step: ObjectStep)
    requires index < |body| && !st.isKey && !st.quoted && body[index] != '{' && body[index] != '['
    ensures step == PlainStep(body[index..], st)
  {
    var c, s := body[index], body[index..];
    if c == '-' {
      if |s| < 2 || !IsDigit(s[1]) {
        return Abort(st);
      }
      var scan := ReadNumber(body, index + 2, |body|, st.value + s[..2], true);
      assert s[2..] == body[index + 2..|body|];
      step := NumberStep(scan, st);
    } else if IsDigit(c) {
      var scan := ReadNumber(body, index + 1, |body|, st.value + [c], false);
      assert s[1..] == body[index + 1..|body|];
      step := NumberStep(scan, st);
    } else {
      step := PlainStep(s, st);
    }
  }

  /** Where the object loop starts, and with what: behind a root array, which is read first, or
      behind the first character. */
  method Begin(body: string) returns (index: nat, st: ObjectState)
    requires |body| >= 2 && (body[0] == '[' ==> body[|body| - 1] == ']') && (body[0] == '{' ==> body[|body| - 1] == '}')
    ensures 1 <= index <= |body| && ParseObject(body) == ObjectLoop(body[index..], st)
    decreases |body|, 4
  {
    if body[0] != '[' {
      return 1, KeyState([]);
    }
    var end := FindClosing(body, 0, |body|, '[', ']');
    assert body[1..] == body[1..|body|];
    var node := ReadArray(body, 0, end);
    index := if end < |body| then end + 1 else end;
    st := KeyState([Member("rootArray", node)]);
  }

  /** Where one turn of the object loop leads, `goal` being what the whole text parses as. */
  ghost predicate ObjectLeads(body: string, index: nat, step: ObjectStep, goal: Node) {
    match step
    case Stop(node) => node == goal
    case Next(rest, st) =>
      |rest| < |body| - index && rest == body[|body| - |rest|..] && ObjectLoop(rest, st) == goal
  }

  lemma ObjectLoopStep(body: string, index: nat, st: ObjectState)
    requires index < |body|
    ensures ObjectLeads(body, index, StepObject(body[index..], st), ObjectLoop(body[index..], st))
  {
    var s := body[index..];
    match StepObject(s, st)
    case Stop(_) =>
    case Next(rest, _) => assert s[|s| - |rest|..] == body[|body| - |rest|..];
  }

  /** One turn: where to go on and with what, unless it stops the loop. */
  method ObjectStepAt(body: string, index: nat, st: ObjectState, ghost goal: Node)
    returns (stopped: Option<Node>, next: nat, st': ObjectState)
    requires index < |body| && ObjectLoop(body[index..], st) == goal
    ensures stopped.Some? ==> stopped.value == goal
    ensures stopped.None? ==> index < next <= |body| && ObjectLoop(body[next..], st') == goal
    decreases |body| - index, 8
  {
    var step := ObjectTurn(body, index, st);
    ObjectLoopStep(body, index, st);
    match step {
      case Stop(node) => stopped, next, st' := Some(node), index, st;
      case Next(rest, after) => stopped, next, st' := None, |body| - |rest|, after;
    }
  }

  method Construct(body: string) returns (json: Node)
    ensures json == ParseObject(body)
    decreases |body|, 5
  {
    if |body| < 2
       || (body[0] == '{' && body[|body| - 1] != '}')
       || (body[0] == '[' && body[|body| - 1] != ']')
    {
      return Invalid;
    }
    ghost var goal := ParseObject(body);
    var index, st := Begin(body);
    while index < |body|
      invariant 1 <= index <= |body|
      invariant ObjectLoop(body[index..], st) == goal
    {
      var stopped;
      stopped, index, st := ObjectStepAt(body, index, st, goal);
      if stopped.Some? {
        return stopped.value;
      }
    }
    return FinishObject(st);
  }

  lemma Window(body: string, a: nat, b: nat, c: nat)
    requires a <= b <= c <= |body|
    ensures body[a..c][..b - a] == body[a..b] && body[a..c][b - a..] == body[b..c]
  {
  }

  lemma NestedObjectStep(s: string, next: nat, st: ArrayState)
    requires |s| > 1 && s[0] == '{' && 0 < next < |s|
    requires next == match Closing(s[..|s| - 1][1..], 1, '{', '}') case None => |s| - 1 case Some(n) => n + 1
    ensures NestedStep(s, st) == NextItem(s[next..], Append(st, ParseObject(s[..next])))
  {
  }

  /** A nested object in an array that ends at `end`. */
  method NestedObject(body: string, index: nat, end: nat, st: ArrayState) returns (step: ArrayStep)
    requires index < end < |body| && body[index] == '{'
    ensures step == NestedStep(body[index..end + 1], st)
    decreases end + 1 - index, 6
  {
    var close := FindClosing(body, index, end, '{', '}');
    var next := if close < end then close + 1 else close;
    NestedWindows(body, index, end, next);
    NestedObjectStep(body[index..end + 1], next - index, st);
    var json := Construct(body[index..next]);
    step := NextItem(body[next..end + 1], Append(st, json));
  }

  lemma NestedArrayStep(s: string, close: nat, st: ArrayState)
    requires |s| > 1 && s[0] == '[' && 0 < close < |s|
    requires Closing(s[..|s| - 1][1..], 1, '[', ']') == if close < |s| - 1 then Some(close) else None
    ensures NestedStep(s, st) == NextItem(s[close + 1..], Append(st, ParseArray(s[..close + 1])))
  {
    if close == |s| - 1 {
      assert s[..close + 1] == s && s[close + 1..] == "";
    }
  }

  /** A nested container: where its text and the text behind it lie in the body. */
  lemma NestedWindows(body: string, index: nat, end: nat, next: nat)
    requires index < next <= end + 1 <= |body| && index < end
    ensures var s := body[index..end + 1];
            && s[..|s| - 1] == body[index..end] && s[..|s| - 1][1..] == body[index + 1..end]
            && s[..next - index] == body[index..next] && s[next - index..] == body[next..end + 1]
  {
    Window(body, index, end, end + 1);
    Window(body, index, index + 1, end);
    Window(body, index, next, end + 1);
  }

  method NestedArray(body: string, index: nat, end: nat, st: ArrayState) returns (step: ArrayStep)
    requires index < end < |body| && body[index] == '['
    ensures step == NestedStep(body[index..end + 1], st)
    decreases end + 1 - index, 6
  {
    var close := FindClosing(body, index, end, '[', ']');
    NestedWindows(body, index, end, close + 1);
    NestedArrayStep(body[index..end + 1], close - index, st);
    var node := ReadArray(body, index, close);
    step := NextItem(body[close + 1..end + 1], Append(st, node));
  }

  /** One turn of the array loop. */
  method ArrayTurn(body: string, index: nat, end: nat, st: ArrayState) returns (step: ArrayStep)
    requires index < end < |body|
    ensures step == StepArray(body[index..end + 1], st)
    decreases end + 1 - index, 7
  {
    if !st.quoted && body[index] == '{' {
      step := NestedObject(body, index, end, st);
    } else if !st.quoted && body[index] == '[' {
      step := NestedArray(body, index, end, st);
    } else {
      step := ItemTurn(body, index, end, st);
    }
  }

  method ItemTurn(body: string, index: nat, end: nat, st: ArrayState) returns (step: ArrayStep)
    requires index < end < |body|
    ensures step == ItemStep(body[index..end + 1], st)
  {
    var c, s := body[index], body[index..end + 1];
    if st.quoted {
      step := ItemStep(s, st);
    } else if c == '-' {
      if |s| < 3 || !IsDigit(s[1]) {
        return StopArray;
      }
      var scan := ReadNumber(body, index + 2, end + 1, st.value + s[..2], true);
      assert s[2..] == body[index + 2..end + 1];
      step := ArrayNumberStep(scan, st);
    } else if IsDigit(c) {
      var scan := ReadNumber(body, index + 1, end + 1, st.value + [c], false);
      assert s[1..] == body[index + 1..end + 1];
      step := ArrayNumberStep(scan, st);
    } else {
      step := ItemStep(s, st);
    }
  }

  /** Where one turn of the array loop leads; `text` ends with the closing bracket. */
  ghost predicate ArrayLeads(body: string, index: nat, end: nat, step: ArrayStep, goal: Node)
    requires index <= end < |body|
  {
    match step
    case StopArray => goal == Invalid
    case NextItem(rest, st) =>
      |rest| < end + 1 - index && rest == body[end + 1 - |rest|..end + 1] && ArrayLoop(rest, st) == goal
  }

  lemma ArrayLoopStep(body: string, index: nat, end: nat, st: ArrayState)
    requires index < end < |body|
    ensures ArrayLeads(body, index, end, StepArray(body[index..end + 1], st), ArrayLoop(body[index..end + 1], st))
  {
    var s := body[index..end + 1];
    match StepArray(s, st)
    case StopArray =>
    case NextItem(rest, _) => Window(body, index, end + 1 - |rest|, end + 1);
  }

  /** One turn: where to go on and with what, unless it stops the loop. */
  method ArrayStepAt(body: string, index: nat, end: nat, st: ArrayState, ghost goal: Node)
    returns (stop: bool, next: nat, st': ArrayState)
    requires index < end < |body| && ArrayLoop(body[index..end + 1], st) == goal
    ensures stop ==> goal == Invalid
    ensures !stop ==> index < next <= end + 1 && ArrayLoop(body[next..end + 1], st') == goal
    decreases end + 1 - index, 8
  {
    var step := ArrayTurn(body, index, end, st);
    ArrayLoopStep(body, index, end, st);
    stop, next, st' := step.StopArray?, index, st;
    if !stop {
      next, st' := end + 1 - |step.rest|, step.st;
    }
  }

  /** The array constructor, on the characters `begin` to `end` of the body. There is nothing at
      `end` if the array was not closed. */
  method ReadArray(body: string, begin: nat, end: nat) returns (node: Node)
    requires begin <= end <= |body| && begin < |body|
    ensures node == if end < |body| then ParseArray(body[begin..end + 1]) else Invalid
    decreases (if end < |body| then end + 1 else |body|) - begin, 3
  {
    if end == |body| {
      return Invalid;
    }
    Ends(body, begin, end);
    ArrayStart(body[begin..end + 1]);
    if end - begin < 1 || body[begin] != '[' || body[end] != ']' {
      return Invalid;
    }
    node := ReadItems(body, begin + 1, end, ParseArray(body[begin..end + 1]));
  }

  lemma Ends(body: string, begin: nat, end: nat)
    requires begin <= end < |body|
    ensures var a := body[begin..end + 1];
            a[0] == body[begin] && a[|a| - 1] == body[end] && a[1..] == body[begin + 1..end + 1]
  {
  }

  method ReadItems(body: string, start: nat, end: nat, ghost goal: Node) returns (node: Node)
    requires start <= end < |body| && ArrayLoop(body[start..end + 1], ArrayState(false, "", [])) == goal
    ensures node == goal
    decreases end + 1 - start, 9
  {
    var index, st := start, ArrayState(false, "", []);
    while index < end
      invariant start <= index <= end + 1
      invariant ArrayLoop(body[index..end + 1], st) == goal
    {
      var stop;
      stop, index, st := ArrayStepAt(body, index, end, st, goal);
      if stop {
        return Invalid;
      }
    }
    return FinishArray(st);
  }
}
