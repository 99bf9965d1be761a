/** Whole runs of a distributor, as one key sees them: in which order messages reach it, and
    when a stream opens. */
module StreamRuns {
  import opened Options
  import opened StreamProtocol

  /** What happens to one key: a filter is registered, a message is sent, or the client's close
      removes the registration without a message. */
  datatype Mark = Registered(kind: StreamType) | Sent(response: Response) | Withdrawn

  datatype View = View(registration: Option<Filter>, running: bool, trace: seq<Mark>)

  function Sends(responses: seq<Response>): seq<Mark> {
    if responses == [] then [] else [Sent(responses[0])] + Sends(responses[1..])
  }

  /** The marks of one event that takes registration `r` to outcome `o`. */
  function Marks(r: Option<Filter>, e: Event, o: Outcome): seq<Mark> {
    if r.None? && e.Collect? && e.request.FilterHeader? && (o.registration.Some? || o.sent != [])
    then [Registered(e.request.base.kind)] + Sends(o.sent)
    else if r.Some? && o.registration.None? && o.sent == [] then [Withdrawn]
    else Sends(o.sent)
  }

  /** One event more. */
  function StepView(k: Key, v: View, e: Event): View {
    var o := KeyStep(k, v.registration, v.running, e);
    View(o.registration, NextRunning(v.running, e), v.trace + Marks(v.registration, e, o))
  }

  /** Key `k` after the distributor, starting with no registration, went through `events`. */
  function Run(k: Key, running: bool, events: seq<Event>): View {
    if events == [] then View(None, running, [])
    else
      StepView(k, Run(k, running, events[..|events| - 1]), events[|events| - 1])
  }

  datatype Phase =
    | Idle                                // no registration
    | Waiting(kind: StreamType)           // registered, not all filter objects received
    | Announcing(kind: StreamType)        // Opened sent, old objects follow
    | Closing                             // Done sent on a Snapshot stream
    | Live                                // Done sent on any other stream
    | Broken

  /** The language of the messages of one key. */
  function Next(p: Phase, m: Mark): Phase {
    match (p, m)
    case (Idle, Registered(kind)) => Waiting(kind)
    case (Waiting(kind), Sent(StateResponse(Opened, Empty))) => Announcing(kind)
    case (Waiting(_), Sent(StateResponse(Failed, _))) => Idle
    case (Waiting(_), Withdrawn) => Idle
    case (Announcing(kind), Sent(Content(_, _))) => p
    case (Announcing(kind), Sent(StateResponse(Done, Empty))) => if kind == Snapshot then Closing else Live
    case (Closing, Sent(StateResponse(Closed, Empty))) => Idle
    case (Live, Sent(Content(_, _))) => p
    case (Live, Sent(StateResponse(Failed, _))) => Idle
    case (Live, Withdrawn) => Idle
    case _ => Broken
  }

  function After(p: Phase, trace: seq<Mark>): Phase
    decreases |trace|
  {
    if trace == [] then p else Next(After(p, trace[..|trace| - 1]), trace[|trace| - 1])
  }

  function PhaseOf(r: Option<Filter>): Phase {
    match r
    case None => Idle
    case Some(f) => if IsOpen(f) then Live else Waiting(f.base.kind)
  }

  /** A registration never holds more objects than declared, and no Snapshot stream stays open. */
  predicate Sound(r: Option<Filter>) {
    r.Some? ==> |r.value.objects| <= r.value.base.size && (IsOpen(r.value) ==> r.value.base.kind != Snapshot)
  }

  lemma {:induction false} AfterConcat(p: Phase, a: seq<Mark>, b: seq<Mark>)
    ensures After(p, a + b) == After(After(p, a), b)
    decreases |b|
  {
    if b == [] {
      assert a + b == a;
    } else {
      assert (a + b)[..|a + b| - 1] == a + b[..|b| - 1];
      AfterConcat(p, a, b[..|b| - 1]);
    }
  }

  lemma {:induction false} SendsConcat(a: seq<Response>, b: seq<Response>)
    ensures Sends(a + b) == Sends(a) + Sends(b)
    decreases |a|
  {
    if a == [] {
      assert a + b == b;
    } else {
      assert (a + b)[1..] == a[1..] + b;
      SendsConcat(a[1..], b);
    }
  }

  lemma {:induction false} OffersKeepAnnouncing(f: Filter, available: seq<int>, accept: Predicate)
    ensures After(Announcing(f.base.kind), Sends(Offered(f, available, accept))) == Announcing(f.base.kind)
    decreases |available|
  {
    if available != [] {
      var rest := Offered(f, available[1..], accept);
      OffersKeepAnnouncing(f, available[1..], accept);
      if Accepts(f, available[0], accept) {
        var c := Content(f.base.objectClass, available[0]);
        SendsConcat([c], rest);
        assert Sends([c]) == [Sent(c)];
        AfterConcat(Announcing(f.base.kind), [Sent(c)], Sends(rest));
      } else {
        assert [] + rest == rest;
      }
    }
  }

  lemma AfterOne(p: Phase, r: Response)
    ensures After(p, Sends([r])) == Next(p, Sent(r))
  {
    assert Sends([r]) == [Sent(r)];
    assert [Sent(r)][..0] == [];
  }

  /** The messages of an opening lead from waiting to the phase of what stays registered. */
  lemma OpeningOrder(f: Filter, cb: OpenCallback)
    requires IsOpen(f)
    ensures var o := OpenStream(f, cb);
            After(Waiting(f.base.kind), Sends(o.sent)) == PhaseOf(o.registration) && Sound(o.registration)
  {
    var opening, done, closed := StateResponse(Opened, Empty), StateResponse(Done, Empty), StateResponse(Closed, Empty);
    var offers := Offered(f, cb.available, cb.accept);
    var w := Waiting(f.base.kind);
    SendsConcat([opening], offers);
    AfterConcat(w, Sends([opening]), Sends(offers));
    AfterOne(w, opening);
    OffersKeepAnnouncing(f, cb.available, cb.accept);
    SendsConcat([opening] + offers, [done]);
    AfterConcat(w, Sends([opening] + offers), Sends([done]));
    AfterOne(Announcing(f.base.kind), done);
    if f.base.kind == Snapshot {
      SendsConcat([opening] + offers + [done], [closed]);
      AfterConcat(w, Sends([opening] + offers + [done]), Sends([closed]));
      AfterOne(Closing, closed);
    }
  }

  lemma AfterMark(p: Phase, m: Mark, rest: seq<Mark>)
    ensures After(p, [m] + rest) == After(Next(p, m), rest)
  {
    AfterConcat(p, [m], rest);
    assert [m][..0] == [];
  }

  /** One event moves the phase of a key along with its registration. */
  lemma StepOrder(k: Key, r: Option<Filter>, running: bool, e: Event)
    requires Sound(r)
    ensures var o := KeyStep(k, r, running, e);
            Sound(o.registration) && After(PhaseOf(r), Marks(r, e, o)) == PhaseOf(o.registration)
  {
    var o := KeyStep(k, r, running, e);
    if o.sent == [] {
      AfterMark(PhaseOf(r), Withdrawn, []);
      assert [Withdrawn] + [] == [Withdrawn];
    } else if |o.sent| == 1 {
      assert o.sent == [o.sent[0]];
      AfterOne(PhaseOf(r), o.sent[0]);
    }
    if e.Collect? && e.key == k && running && !e.request.StateAction? && e.cls == e.request.cls {
      if r.None? && e.request.FilterHeader? {
        var f := Filter(e.cls, e.request.base, []);
        AfterMark(Idle, Registered(f.base.kind), Sends(o.sent));
        if IsOpen(f) {
          OpeningOrder(f, e.callback);
        }
      } else if r.Some? && e.request.FilterObject? && r.value.cls == e.cls {
        var f := r.value.(objects := r.value.objects + [e.request.content]);
        if IsOpen(f) {
          OpeningOrder(f, e.callback);
        }
      }
    }
  }

  /** On every run the messages of a key follow the language of `Next`: per registration Opened,
      objects, Done, then Closed for a Snapshot stream and objects with at most one final Failed
      for any other, or a single Failed if the stream never opened. In particular nothing is sent
      to a key without a registration. */
  lemma {:induction false} MessageOrder(k: Key, running: bool, events: seq<Event>)
    ensures var v := Run(k, running, events);
            Sound(v.registration) && After(Idle, v.trace) == PhaseOf(v.registration) != Broken
    decreases |events|
  {
    if events != [] {
      var init, e := events[..|events| - 1], events[|events| - 1];
      MessageOrder(k, running, init);
      var v := Run(k, running, init);
      StepOrder(k, v.registration, v.running, e);
      AfterConcat(Idle, v.trace, Marks(v.registration, e, KeyStep(k, v.registration, v.running, e)));
    }
  }

  /** The requests that the distributor gets from key `k` during `events`, in order. */
  function Script(k: Key, events: seq<Event>): seq<Request> {
    if events == [] then []
    else
      var e := events[|events| - 1];
      Script(k, events[..|events| - 1])
      + (if e.Collect? && e.key == k then [e.request]
         else if e.ExternalAction? && e.key == k then [StateAction(e.state)]
         else [])
  }

  predicate Addresses(k: Key, e: Event) {
    (e.Collect? || e.ExternalAction?) && e.key == k
  }

  lemma ScriptLast(k: Key, init: seq<Event>, e: Event)
    ensures var script := Script(k, init + [e]);
            if !Addresses(k, e) then script == Script(k, init)
            else script == Script(k, init) + [if e.Collect? then e.request else StateAction(e.state)]
  {
    assert (init + [e])[..|init|] == init;
  }

  /** A stream that waits is not touched by events addressed to other keys. */
  lemma KeepsWaiting(k: Key, v: View, e: Event)
    requires !Addresses(k, e) && v.registration.Some? && !IsOpen(v.registration.value)
    ensures StepView(k, v, e) == v.(running := NextRunning(v.running, e))
  {
    assert Sends([]) == [];
    NoMarks(v.trace);
  }

  function ObjectRequests(cls: Class, objects: seq<int>): (r: seq<Request>)
    ensures |r| == |objects|
  {
    seq(|objects|, i requires 0 <= i < |objects| => FilterObject(cls, objects[i]))
  }

  /** Whether the application runs after `events`. */
  function RunningAfter(running: bool, events: seq<Event>): bool {
    if events == [] then running
    else NextRunning(RunningAfter(running, events[..|events| - 1]), events[|events| - 1])
  }

  /** What the key sends is read while the application runs, and as messages of class `cls`. At
      other times the application may pause. */
  predicate Serves(k: Key, cls: Class, running: bool, events: seq<Event>) {
    events == []
    || var init, e := events[..|events| - 1], events[|events| - 1];
       Serves(k, cls, running, init) && (e.Collect? && e.key == k ==> e.cls == cls && RunningAfter(running, init))
  }

  /** A client's opening: the filter, then its objects in order. */
  function OpeningRequests(cls: Class, base: FilterBase, objects: seq<int>): seq<Request> {
    [FilterHeader(cls, base)] + ObjectRequests(cls, objects)
  }

  lemma RunLast(k: Key, running: bool, past: seq<Event>, init: seq<Event>, e: Event)
    ensures Run(k, running, past + (init + [e])) == StepView(k, Run(k, running, past + init), e)
  {
    assert past + (init + [e]) == (past + init) + [e];
    assert ((past + init) + [e])[..|past + init|] == past + init;
  }

  lemma {:induction false} RunRuns(k: Key, running: bool, past: seq<Event>, events: seq<Event>)
    ensures Run(k, running, past + events).running == RunningAfter(Run(k, running, past).running, events)
    decreases |events|
  {
    if events == [] {
      assert past + events == past;
    } else {
      var init, e := events[..|events| - 1], events[|events| - 1];
      assert events == init + [e];
      RunRuns(k, running, past, init);
      RunLast(k, running, past, init, e);
    }
  }

  lemma StaysAway(k: Key, v: View, e: Event)
    requires v.registration.None? && !Addresses(k, e)
    ensures StepView(k, v, e) == v.(running := NextRunning(v.running, e))
  {
    assert Sends([]) == [];
    NoMarks(v.trace);
  }

  /** A key without a registration that sends nothing stays as it is. */
  lemma {:induction false} Untouched(k: Key, running: bool, past: seq<Event>, events: seq<Event>)
    requires Run(k, running, past).registration.None? && Script(k, events) == []
    ensures Run(k, running, past + events).registration.None?
    ensures Run(k, running, past + events).trace == Run(k, running, past).trace
    decreases |events|
  {
    if events == [] {
      assert past + events == past;
    } else {
      var init, e := events[..|events| - 1], events[|events| - 1];
      assert events == init + [e];
      ScriptLast(k, init, e);
      Untouched(k, running, past, init);
      RunLast(k, running, past, init, e);
      StaysAway(k, Run(k, running, past + init), e);
    }
  }

  lemma NoMarks(trace: seq<Mark>)
    ensures trace + [] == trace
  {
  }

  /** What `v0` becomes by a filter with the objects received so far, not yet all of them. */
  function WaitingView(v0: View, cls: Class, base: FilterBase, objects: seq<int>, running: bool): View {
    View(Some(Filter(cls, base, objects)), running, v0.trace + [Registered(base.kind)])
  }

  lemma RegistersFilter(k: Key, v: View, v0: View, cls: Class, base: FilterBase, cb: OpenCallback)
    requires base.size > 0 && v == View(None, true, v0.trace)
    ensures StepView(k, v, Collect(k, cls, FilterHeader(cls, base), cb)) == WaitingView(v0, cls, base, [], true)
  {
    assert Sends([]) == [];
  }

  lemma AddsObject(k: Key, v: View, v0: View, cls: Class, base: FilterBase, objects: seq<int>, cb: OpenCallback)
    requires objects != [] && |objects| < base.size
    requires v == WaitingView(v0, cls, base, objects[..|objects| - 1], true)
    ensures StepView(k, v, Collect(k, cls, FilterObject(cls, objects[|objects| - 1]), cb))
            == WaitingView(v0, cls, base, objects, true)
  {
    assert objects[..|objects| - 1] + [objects[|objects| - 1]] == objects;
    NoMarks(v.trace);
    assert Sends([]) == [];
  }

  lemma OpensStream(k: Key, cls: Class, base: FilterBase, objects: seq<int>, r: Option<Filter>, cb: OpenCallback)
    requires |objects| == base.size
    requires r == if objects == [] then None else Some(Filter(cls, base, objects[..|objects| - 1]))
    ensures KeyStep(k, r, true, Collect(k, cls, OpeningRequests(cls, base, objects)[|objects|], cb))
            == OpenStream(Filter(cls, base, objects), cb)
  {
    PartOfOpening(cls, base, objects, |objects|);
    if objects != [] {
      assert objects[..|objects| - 1] + [objects[|objects| - 1]] == objects;
    }
  }

  lemma PartOfOpening(cls: Class, base: FilterBase, objects: seq<int>, n: nat)
    requires n <= |objects|
    ensures OpeningRequests(cls, base, objects)[..n + 1] == OpeningRequests(cls, base, objects[..n])
    ensures OpeningRequests(cls, base, objects)[n]
            == if n == 0 then FilterHeader(cls, base) else FilterObject(cls, objects[n - 1])
  {
    assert OpeningRequests(cls, base, objects[..n])[0] == FilterHeader(cls, base);
  }

  /** A registration, whichever of the key's it is: until the declared number of filter objects has
      arrived, whatever else goes on, the key is sent nothing and its filter holds exactly the
      objects of its client, in order. */
  lemma {:induction false} WaitsForObjects(k: Key, cls: Class, base: FilterBase, objects: seq<int>, running: bool,
                                           past: seq<Event>, events: seq<Event>)
    requires Run(k, running, past).registration.None?
    requires Serves(k, cls, Run(k, running, past).running, events)
    requires Script(k, events) == OpeningRequests(cls, base, objects)
    requires |objects| < base.size
    ensures var v0 := Run(k, running, past);
            Run(k, running, past + events) == WaitingView(v0, cls, base, objects, RunningAfter(v0.running, events))
    decreases |events|
  {
    var init, e := events[..|events| - 1], events[|events| - 1];
    assert events == init + [e];
    ScriptLast(k, init, e);
    RunRuns(k, running, past, init);
    RunLast(k, running, past, init, e);
    var v0, v := Run(k, running, past), Run(k, running, past + init);
    if !Addresses(k, e) {
      WaitsForObjects(k, cls, base, objects, running, past, init);
      KeepsWaiting(k, v, e);
    } else {
      OpeningEndsWith(k, cls, base, objects, init, e);
      if objects == [] {
        Untouched(k, running, past, init);
        RegistersFilter(k, v, v0, cls, base, e.callback);
      } else {
        WaitsForObjects(k, cls, base, objects[..|objects| - 1], running, past, init);
        AddsObject(k, v, v0, cls, base, objects, e.callback);
      }
    }
  }

  /** The last message of an opening read so far, and those before it. */
  lemma OpeningEndsWith(k: Key, cls: Class, base: FilterBase, objects: seq<int>, init: seq<Event>, e: Event)
    requires Addresses(k, e) && Script(k, init + [e]) == OpeningRequests(cls, base, objects)
    ensures e.Collect?
    ensures objects == [] ==> Script(k, init) == [] && e.request == FilterHeader(cls, base)
    ensures objects != [] ==>
              var n := |objects| - 1;
              e.request == FilterObject(cls, objects[n]) && Script(k, init) == OpeningRequests(cls, base, objects[..n])
  {
    var n := |objects|;
    ScriptLast(k, init, e);
    PartOfOpening(cls, base, objects, n);
    assert Script(k, init) == Script(k, init + [e])[..n];
    if n > 0 {
      PartOfOpening(cls, base, objects, n - 1);
    }
  }

  /** The last message of an opening, the filter itself if it declares no objects, opens the stream,
      with the filter equal to the client's list; before it nothing was sent. */
  lemma OpensAtLastObject(k: Key, cls: Class, base: FilterBase, objects: seq<int>, running: bool,
                          past: seq<Event>, events: seq<Event>, cb: OpenCallback)
    requires Run(k, running, past).registration.None? && |objects| == base.size
    requires Serves(k, cls, Run(k, running, past).running, events)
    requires RunningAfter(Run(k, running, past).running, events)
    requires Script(k, events) == OpeningRequests(cls, base, objects)[..|objects|]
    ensures var v := Run(k, running, past + events);
            && v.trace == Run(k, running, past).trace + (if objects == [] then [] else [Registered(base.kind)])
            && KeyStep(k, v.registration, v.running, Collect(k, cls, OpeningRequests(cls, base, objects)[|objects|], cb))
               == OpenStream(Filter(cls, base, objects), cb)
  {
    var n := |objects|;
    RunRuns(k, running, past, events);
    if n == 0 {
      Untouched(k, running, past, events);
      NoMarks(Run(k, running, past).trace);
    } else {
      PartOfOpening(cls, base, objects, n - 1);
      WaitsForObjects(k, cls, base, objects[..n - 1], running, past, events);
    }
    OpensStream(k, cls, base, objects, Run(k, running, past + events).registration, cb);
  }

  function Responses(trace: seq<Mark>): seq<Response> {
    if trace == [] then []
    else
      var m := trace[|trace| - 1];
      Responses(trace[..|trace| - 1]) + if m.Sent? then [m.response] else []
  }

  /** The registrations and messages of a distributor are, for every key, those of the run. */
  ghost predicate Follows(running: bool, events: seq<Event>, r: map<Key, Filter>, running': bool, sent: seq<Packet>) {
    forall k ::
      var v := Run(k, running, events);
      Lookup(r, k) == v.registration && running' == v.running && ToKey(sent, k) == Responses(v.trace)
  }

  lemma {:induction false} ResponsesConcat(a: seq<Mark>, b: seq<Mark>)
    ensures Responses(a + b) == Responses(a) + Responses(b)
    decreases |b|
  {
    if b == [] {
      assert a + b == a;
    } else {
      assert (a + b)[..|a + b| - 1] == a + b[..|b| - 1];
      ResponsesConcat(a, b[..|b| - 1]);
    }
  }

  lemma {:induction false} ResponsesOfMarks(responses: seq<Response>)
    ensures Responses(Sends(responses)) == responses
  {
    if responses != [] {
      ResponsesOfMarks(responses[1..]);
      ResponsesConcat([Sent(responses[0])], Sends(responses[1..]));
      assert [Sent(responses[0])][..0] == [];
    }
  }

  lemma ResponsesOfEvent(r: Option<Filter>, e: Event, o: Outcome)
    ensures Responses(Marks(r, e, o)) == o.sent
  {
    var marks := Marks(r, e, o);
    ResponsesOfMarks(o.sent);
    if marks == [Withdrawn] {
      assert marks[..0] == [];
    } else if marks != Sends(o.sent) {
      ResponsesConcat([Registered(e.request.base.kind)], Sends(o.sent));
      assert [Registered(e.request.base.kind)][..0] == [];
    }
  }

  lemma RunStep(k: Key, running: bool, events: seq<Event>, e: Event)
    ensures var v := Run(k, running, events);
            var o := KeyStep(k, v.registration, v.running, e);
            var v' := Run(k, running, events + [e]);
            && v'.registration == o.registration && v'.running == NextRunning(v.running, e)
            && Responses(v'.trace) == Responses(v.trace) + o.sent
  {
    assert (events + [e])[..|events|] == events;
    var v := Run(k, running, events);
    var o := KeyStep(k, v.registration, v.running, e);
    ResponsesConcat(v.trace, Marks(v.registration, e, o));
    ResponsesOfEvent(v.registration, e, o);
  }

  /** `Steps`, which every operation of the distributor ensures, is one more event of the run:
      what is proved about `Run` holds of every history of the containers. */
  lemma StepFollows(running: bool, events: seq<Event>, e: Event, r: map<Key, Filter>, current: bool, sent: seq<Packet>,
                    r': map<Key, Filter>, current': bool, sent': seq<Packet>)
    requires Follows(running, events, r, current, sent)
    requires Steps(r, current, sent, e, r', current', sent')
    ensures Follows(running, events + [e], r', current', sent')
  {
    forall k
      ensures var v := Run(k, running, events + [e]);
              Lookup(r', k) == v.registration && current' == v.running && ToKey(sent', k) == Responses(v.trace)
    {
      RunStep(k, running, events, e);
      assert ToKey(sent', k) == ToKey(sent, k) + KeyStep(k, Lookup(r, k), current, e).sent;
    }
  }
}
