/** The client side of a stream. */
module StreamClient {
  import opened StreamProtocol

  /** The fields of a client stream; its filter always counts its own objects. */
  datatype Client =
    Client(connection: int, state: State, snapshotDone: bool, haveFilter: bool, filter: Filter)

  predicate Active(s: State) {
    s == Opened || s == Pending
  }

  datatype Reaction = Reaction(client: Client, sent: seq<Request>)

  function Close(c: Client): Reaction {
    if Active(c.state)
    then Reaction(c.(snapshotDone := false, state := Closed), [StateAction(Closed)])
    else Reaction(c, [])
  }

  function SetFilter(c: Client, f: Filter): Reaction {
    Close(c.(snapshotDone := false, filter := f, haveFilter := true))
  }

  /** The filter's own message followed by one message for each of its objects. */
  function Requests(f: Filter): seq<Request> {
    [FilterHeader(f.cls, f.base)]
    + seq(|f.objects|, i requires 0 <= i < |f.objects| => FilterObject(f.cls, f.objects[i]))
  }

  predicate CanOpen(c: Client) {
    c.connection != 0 && !Active(c.state) && c.haveFilter
  }

  function Open(c: Client): Reaction {
    if CanOpen(c) then Reaction(c.(state := Pending), Requests(c.filter)) else Reaction(c, [])
  }

  /** Done only sets the flag; every other state is taken over. */
  function Receive(c: Client, r: Response): Client {
    match r
    case Content(_, _) => c
    case StateResponse(state, _) =>
      if state == Done then c.(snapshotDone := true) else c.(state := state)
  }

  class Stream {
    const id: int
    const cls: Class
    const objectClass: Class
    var connection: int
    var state: State
    var snapshotDone: bool
    var haveFilter: bool
    var filter: Filter
    var sent: seq<Request>

    ghost function Model(): Client
      reads this
    {
      Client(connection, state, snapshotDone, haveFilter, filter)
    }

    constructor (id: int, cls: Class, objectClass: Class)
      ensures this.id == id && this.cls == cls && this.objectClass == objectClass && sent == []
      ensures Model() == Client(0, Undefined, false, false, Filter(cls, FilterBase(UndefinedType, 0, 0), []))
    {
      this.id, this.cls, this.objectClass := id, cls, objectClass;
      connection, state, snapshotDone, haveFilter, sent := 0, Undefined, false, false, [];
      filter := Filter(cls, FilterBase(UndefinedType, 0, 0), []);
    }

    /** Connects the stream; without a connection it never opens. */
    method SetConnection(value: int)
      modifies this`connection
      ensures Model() == old(Model()).(connection := value) && sent == old(sent)
    {
      connection := value;
    }

    method CloseStream()
      modifies this`state, this`snapshotDone, this`sent
      ensures Model() == Close(old(Model())).client
      ensures sent == old(sent) + Close(old(Model())).sent
    {
      if state != Opened && state != Pending {
        return;
      }
      snapshotDone := false;
      state := Closed;
      sent := sent + [StateAction(state)];
    }

    method ChangeFilter(kind: StreamType, objects: seq<int>)
      modifies this`state, this`snapshotDone, this`filter, this`haveFilter, this`sent
      ensures var f := Filter(cls, FilterBase(kind, |objects|, objectClass), objects);
              Model() == SetFilter(old(Model()), f).client
              && sent == old(sent) + SetFilter(old(Model()), f).sent
    {
      snapshotDone := false;
      filter := Filter(cls, FilterBase(kind, |objects|, objectClass), objects);
      haveFilter := true;
      if state == Opened || state == Pending {
        CloseStream();
      }
    }

    method OpenStream() returns (opened': bool)
      modifies this`state, this`sent
      ensures opened' == CanOpen(old(Model()))
      ensures Model() == Open(old(Model())).client
      ensures sent == old(sent) + Open(old(Model())).sent
    {
      if connection == 0 {
        return false;
      }
      if state == Opened || state == Pending {
        return false;
      }
      if !haveFilter {
        return false;
      }
      state := Pending;
      sent := sent + [FilterHeader(filter.cls, filter.base)];
      for i := 0 to |filter.objects|
        invariant state == Pending
        invariant sent == old(sent) + Requests(filter)[..i + 1]
      {
        sent := sent + [FilterObject(filter.cls, filter.objects[i])];
      }
      return true;
    }

    method CollectStreamState(r: Response)
      requires r.StateResponse?
      modifies this`state, this`snapshotDone
      ensures Model() == Receive(old(Model()), r)
    {
      if r.state == Done {
        snapshotDone := true;
        return;
      }
      state := r.state;
    }
  }
}

/** One client stream and its distributor, joined by a FIFO channel in each direction. */
module StreamAgreement {
  import opened Options
  import opened StreamProtocol
  import opened StreamClient

  /** `lost` remembers that the distributor discarded, while paused, a message of the opening
      the client last asked for. */
  datatype System = System(
    client: Client, registration: Option<Filter>, running: bool,
    toDistributor: seq<Request>, toClient: seq<Response>, lost: bool)

  datatype Action =
    | ClientSetFilter(kind: StreamType, objectClass: Class, objects: seq<int>)
    | ClientOpen
    | ClientClose
    | DistributorReceives(callback: OpenCallback)
    | ClientReceives
    | Distributes(event: Event)           // anything that is not a message of this client

  predicate ByClient(a: Action) {
    a.ClientSetFilter? || a.ClientOpen? || a.ClientClose?
  }

  predicate Quiescent(s: System) {
    s.toDistributor == [] && s.toClient == []
  }

  function Apply(s: System, r: Reaction): System {
    s.(client := r.client, toDistributor := s.toDistributor + r.sent)
  }

  function Handle(k: Key, s: System, e: Event): System {
    var o := KeyStep(k, s.registration, s.running, e);
    s.(registration := o.registration, running := NextRunning(s.running, e), toClient := s.toClient + o.sent)
  }

  function RequestEvent(k: Key, cls: Class, r: Request, cb: OpenCallback): Event {
    if r.StateAction? then ExternalAction(k, r.state) else Collect(k, cls, r, cb)
  }

  function Act(k: Key, cls: Class, s: System, a: Action): System {
    match a
    case ClientSetFilter(kind, objectClass, objects) =>
      Apply(s, SetFilter(s.client, Filter(cls, FilterBase(kind, |objects|, objectClass), objects)))
    case ClientOpen =>
      if CanOpen(s.client) then Apply(s, Open(s.client)).(lost := false) else s
    case ClientClose => Apply(s, Close(s.client))
    case DistributorReceives(cb) =>
      if s.toDistributor == [] then s
      else
        var r := s.toDistributor[0];
        Handle(k, s, RequestEvent(k, cls, r, cb)).(
          toDistributor := s.toDistributor[1..],
          lost := s.lost || (!s.running && !r.StateAction?))
    case ClientReceives =>
      if s.toClient == [] then s
      else s.(client := Receive(s.client, s.toClient[0]), toClient := s.toClient[1..])
    case Distributes(e) => Handle(k, s, e)
  }

  /** Nothing the client has still to read ends its stream or opens it. */
  ghost predicate Quiet(responses: seq<Response>) {
    forall i :: 0 <= i < |responses| ==> (responses[i].StateResponse? ==> responses[i].state == Done)
  }

  /** What the distributor does on its own account is not addressed to this stream. */
  predicate Apart(k: Key, a: Action) {
    a.Distributes? ==> !((a.event.Collect? || a.event.ExternalAction?) && a.event.key == k)
  }

  /** The client closes, or changes its filter, in any state but Pending, whatever is on its way to
      either side; a Pending client that nothing is on its way for may give up. It opens only once
      its last stream has come to its end: see `EndedMayOpen`. */
  ghost predicate Patient(k: Key, s: System, a: Action) {
    && (a.ClientClose? || a.ClientSetFilter? ==> s.client.state != Pending || Quiescent(s))
    && (a.ClientOpen? && CanOpen(s.client) ==> s.registration.None? && Quiet(s.toClient))
    && Apart(k, a)
  }

  function RunActions(k: Key, cls: Class, s: System, actions: seq<Action>): System
    decreases |actions|
  {
    if actions == [] then s else RunActions(k, cls, Act(k, cls, s, actions[0]), actions[1..])
  }

  ghost predicate PatientRun(k: Key, cls: Class, s: System, actions: seq<Action>)
    decreases |actions|
  {
    actions != [] ==>
      Patient(k, s, actions[0]) && PatientRun(k, cls, Act(k, cls, s, actions[0]), actions[1..])
  }

  function Initial(cls: Class, connection: int): System {
    System(Client(connection, Undefined, false, false, Filter(cls, FilterBase(UndefinedType, 0, 0), [])),
           None, true, [], [], false)
  }

  /** The client once it has read everything on its way to it. */
  function Absorb(c: Client, responses: seq<Response>): Client
    decreases |responses|
  {
    if responses == [] then c
    else Receive(Absorb(c, responses[..|responses| - 1]), responses[|responses| - 1])
  }

  lemma {:induction false} AbsorbConcat(c: Client, a: seq<Response>, b: seq<Response>)
    ensures Absorb(c, a + b) == Absorb(Absorb(c, a), b)
    decreases |b|
  {
    if b == [] {
      assert a + b == a;
    } else {
      assert (a + b)[..|a + b| - 1] == a + b[..|b| - 1];
      AbsorbConcat(c, a, b[..|b| - 1]);
    }
  }

  lemma AbsorbFirst(c: Client, responses: seq<Response>)
    requires responses != []
    ensures Absorb(c, responses) == Absorb(Receive(c, responses[0]), responses[1..])
  {
    AbsorbConcat(c, responses[..1], responses[1..]);
    assert responses == responses[..1] + responses[1..];
    assert responses[..1][..0] == [];
  }

  predicate NoIssue(r: Response) {
    r.StateResponse? ==> r.issue == Empty
  }

  ghost predicate NoIssues(responses: seq<Response>) {
    forall i :: 0 <= i < |responses| ==> NoIssue(responses[i])
  }

  predicate AtRest(s: State) {
    s == Undefined || s == Closed || s == Failed
  }

  predicate IsEnd(r: Response) {
    r.StateResponse? && (r.state == Failed || r.state == Closed)
  }

  /** Where a message may stand among the unread ones: an end is the last message of a stream that
      is no longer registered, and Opened finds its client Pending, with nothing before it. */
  ghost predicate Placed(state: State, registered: bool, responses: seq<Response>, i: nat)
    requires i < |responses|
  {
    var r := responses[i];
    r.StateResponse? ==>
      || r.state == Done
      || (IsEnd(r) && i == |responses| - 1 && !registered)
      || (r.state == Opened && state == Pending && Quiet(responses[..i]))
  }

  ghost predicate Unread(state: State, registered: bool, responses: seq<Response>) {
    forall i :: 0 <= i < |responses| ==> Placed(state, registered, responses, i)
  }

  /** Nothing is on its way to the distributor: `c` is what the client will have become. */
  predicate Settled(c: Client, r: Option<Filter>, lost: bool) {
    && (AtRest(c.state) || Active(c.state))
    && (c.state == Opened <==> r.Some? && IsOpen(r.value))
    && (c.state == Opened ==> c.snapshotDone)
    && (AtRest(c.state) ==> r.None?)
    && (c.state == Pending ==> lost)
    && (r.Some? ==> |r.value.objects| <= r.value.base.size)
  }

  /** The distributor has read `n` of the client's opening messages. */
  ghost predicate Opening(s: System, n: nat) {
    var f := s.client.filter;
    && n <= |f.objects|
    && s.toDistributor == Requests(f)[n..]
    && s.client.state == Pending && Quiet(s.toClient)
    && (n == 0 ==> s.registration.None?)
    && (n > 0 ==>
          match s.registration
          case None => s.lost
          case Some(g) =>
            && g.cls == f.cls && g.base == f.base && |g.objects| < g.base.size
            && |g.objects| <= n - 1
            && (!s.lost ==> g.objects == f.objects[..n - 1]))
  }

  predicate Ended(s: State) {
    s == Closed || s == Failed
  }

  /** The client's close is on its way, and all it will ever read is an end. */
  predicate Closing(s: System) {
    && s.toDistributor == [StateAction(Closed)]
    && Ended(s.client.state) && Ended(Absorb(s.client, s.toClient).state)
  }

  /** The client opens again behind a close that finds nothing any more. */
  ghost predicate Reopening(s: System) {
    && s.toDistributor == [StateAction(Closed)] + Requests(s.client.filter)
    && s.client.state == Pending && s.registration.None? && Quiet(s.toClient)
  }

  ghost predicate Inv(cls: Class, s: System) {
    && NoIssues(s.toClient)
    && s.client.filter.cls == cls && |s.client.filter.objects| == s.client.filter.base.size
    && Unread(s.client.state, s.registration.Some?, s.toClient)
    && (AtRest(s.client.state) || Active(s.client.state))
    && (s.client.state == Undefined || s.client.state == Failed ==> s.toClient == [] && s.registration.None?)
    && if s.toDistributor == [] then Settled(Absorb(s.client, s.toClient), s.registration, s.lost)
       else Closing(s) || Reopening(s) || exists n :: Opening(s, n)
  }

  // ---------------------------------------------------------------- unread messages

  lemma QuietUnread(state: State, registered: bool, responses: seq<Response>)
    requires Quiet(responses)
    ensures Unread(state, registered, responses)
  {
  }

  /** Only a Pending client has Opened still to read. */
  lemma UnreadElsewhere(state: State, state': State, registered: bool, responses: seq<Response>)
    requires Unread(state, registered, responses) && state != Pending
    ensures Unread(state', registered, responses)
  {
    forall i | 0 <= i < |responses|
      ensures Placed(state', registered, responses, i)
    {
      assert Placed(state, registered, responses, i);
    }
  }

  lemma UnreadDropped(state: State, registered: bool, responses: seq<Response>)
    requires Unread(state, registered, responses)
    ensures Unread(state, false, responses)
  {
    forall i | 0 <= i < |responses|
      ensures Placed(state, false, responses, i)
    {
      assert Placed(state, registered, responses, i);
    }
  }

  lemma UnreadNext(c: Client, registered: bool, responses: seq<Response>)
    requires Unread(c.state, registered, responses) && responses != []
    ensures var c' := Receive(c, responses[0]);
            && Unread(c'.state, registered, responses[1..])
            && (c'.state != c.state ==>
                  || (c'.state == Opened && c.state == Pending)
                  || (Ended(c'.state) && responses[1..] == [] && !registered))
  {
    var c', rest := Receive(c, responses[0]), responses[1..];
    assert Placed(c.state, registered, responses, 0);
    forall i | 0 <= i < |rest|
      ensures Placed(c'.state, registered, rest, i)
    {
      assert Placed(c.state, registered, responses, i + 1);
      assert rest[i] == responses[i + 1];
      if rest[i].StateResponse? && rest[i].state == Opened {
        assert responses[..i + 1][0] == responses[0];
        QuietRest(responses[..i + 1]);
        assert responses[..i + 1][1..] == rest[..i];
      }
    }
  }

  lemma QuietRest(responses: seq<Response>)
    requires Quiet(responses) && responses != []
    ensures Quiet(responses[1..]) && !(responses[0].StateResponse? && responses[0].state != Done)
  {
  }

  /** One more message to an open stream: an object, or the news of its end. */
  lemma UnreadMore(state: State, responses: seq<Response>, x: Response, registered: bool)
    requires Unread(state, true, responses)
    requires x.StateResponse? ==> IsEnd(x) && !registered
    ensures Unread(state, registered, responses + [x])
  {
    forall i | 0 <= i < |responses + [x]|
      ensures Placed(state, registered, responses + [x], i)
    {
      if i < |responses| {
        assert Placed(state, true, responses, i);
        assert (responses + [x])[..i] == responses[..i];
      }
    }
  }

  /** The messages of an opening, behind what was still unread of the last stream. */
  lemma UnreadOpening(before: seq<Response>, middle: seq<Response>, end: seq<Response>, registered: bool)
    requires Quiet(before) && Quiet(middle)
    requires end == [] || (|end| == 1 && IsEnd(end[0]) && !registered)
    ensures Unread(Pending, registered, before + ([StateResponse(Opened, Empty)] + middle + end))
  {
    var all := before + ([StateResponse(Opened, Empty)] + middle + end);
    forall i | 0 <= i < |all|
      ensures Placed(Pending, registered, all, i)
    {
      if i == |before| {
        assert all[..i] == before;
      } else if i < |before| {
        assert all[i] == before[i];
      } else if i - |before| - 1 < |middle| {
        assert all[i] == middle[i - |before| - 1];
      }
    }
  }

  lemma {:induction false} AbsorbQuiet(c: Client, responses: seq<Response>)
    requires Quiet(responses)
    ensures Absorb(c, responses) == c.(snapshotDone := Absorb(c, responses).snapshotDone)
    decreases |responses|
  {
    if responses != [] {
      AbsorbQuiet(c, responses[..|responses| - 1]);
    }
  }

  /** A client that has ended, or never opened, and that has no Opened to read stays so. */
  lemma {:induction false} AbsorbEnded(c: Client, registered: bool, responses: seq<Response>)
    requires c.state != Pending && Unread(c.state, registered, responses)
    ensures Ended(c.state) ==> Ended(Absorb(c, responses).state)
    ensures c.state == Opened && registered ==> Absorb(c, responses).state == Opened
    decreases |responses|
  {
    if responses != [] {
      var n := |responses| - 1;
      UnreadFront(c.state, registered, responses);
      AbsorbEnded(c, registered, responses[..n]);
      assert Placed(c.state, registered, responses, n);
    }
  }

  lemma UnreadFront(state: State, registered: bool, responses: seq<Response>)
    requires responses != [] && Unread(state, registered, responses)
    ensures Unread(state, registered, responses[..|responses| - 1])
  {
    var front := responses[..|responses| - 1];
    forall i | 0 <= i < |front|
      ensures Placed(state, registered, front, i)
    {
      assert Placed(state, registered, responses, i);
      assert front[..i] == responses[..i];
    }
  }

  /** The state a client comes to depends on its state alone. */
  lemma {:induction false} AbsorbState(c: Client, d: Client, responses: seq<Response>)
    requires c.state == d.state
    ensures Absorb(c, responses).state == Absorb(d, responses).state
    decreases |responses|
  {
    if responses != [] {
      AbsorbState(c, d, responses[..|responses| - 1]);
    }
  }

  // ---------------------------------------------------------------- steps of the client

  /** A client may always open again that never opened, or that was told its stream failed. */
  lemma EndedMayOpen(k: Key, cls: Class, s: System)
    requires Inv(cls, s)
    requires s.client.state == Undefined || s.client.state == Failed || (AtRest(s.client.state) && Quiescent(s))
    ensures Patient(k, s, ClientOpen)
  {
    assert Absorb(s.client, []) == s.client;
  }

  /** What a client that closes becomes. */
  lemma ClosesInv(cls: Class, s: System, s': System)
    requires Inv(cls, s) && Active(s.client.state) && (s.client.state == Pending ==> Quiescent(s))
    requires s'.client.state == Closed && s'.client.filter.cls == cls
    requires |s'.client.filter.objects| == s'.client.filter.base.size
    requires s' == s.(client := s'.client, toDistributor := s.toDistributor + [StateAction(Closed)])
    ensures Inv(cls, s')
  {
    assert s.toDistributor == [];
    if s.client.state == Opened {
      UnreadElsewhere(Opened, Closed, s.registration.Some?, s.toClient);
    } else {
      QuietUnread(Closed, s.registration.Some?, s.toClient);
    }
    AbsorbEnded(s'.client, s.registration.Some?, s.toClient);
    assert Closing(s');
  }

  /** A filter set at rest changes nothing but the filter. */
  lemma RestsInv(cls: Class, s: System, s': System)
    requires Inv(cls, s) && AtRest(s.client.state)
    requires s'.client.state == s.client.state && s'.client.filter.cls == cls
    requires |s'.client.filter.objects| == s'.client.filter.base.size
    requires s' == s.(client := s'.client)
    ensures Inv(cls, s')
  {
    AbsorbState(s.client, s'.client, s.toClient);
    if s.client.state == Undefined {
      assert Absorb(s.client, []) == s.client;
    } else {
      AbsorbEnded(s.client, s.registration.Some?, s.toClient);
    }
    if s.toDistributor != [] {
      assert Closing(s);
      assert Closing(s');
    }
  }

  lemma OpensInv(cls: Class, s: System, s': System)
    requires Inv(cls, s) && AtRest(s.client.state) && s.registration.None? && Quiet(s.toClient)
    requires s' == s.(client := s.client.(state := Pending), lost := false,
                      toDistributor := s.toDistributor + Requests(s.client.filter))
    ensures Inv(cls, s')
  {
    QuietUnread(Pending, false, s.toClient);
    if s.toDistributor == [] {
      assert s'.toDistributor == Requests(s'.client.filter)[0..];
      assert Opening(s', 0);
    } else {
      assert Reopening(s');
    }
  }

  lemma ClientActs(k: Key, cls: Class, s: System, a: Action)
    requires Inv(cls, s) && ByClient(a) && Patient(k, s, a)
    ensures Inv(cls, Act(k, cls, s, a))
  {
    var s' := Act(k, cls, s, a);
    assert s.toDistributor + [] == s.toDistributor;
    if a.ClientOpen? {
      if CanOpen(s.client) {
        OpensInv(cls, s, s');
      }
    } else if Active(s.client.state) {
      ClosesInv(cls, s, s');
    } else if a.ClientSetFilter? {
      RestsInv(cls, s, s');
    }
  }

  lemma AbsorbOne(c: Client, responses: seq<Response>, r: Response)
    ensures Absorb(c, responses + [r]) == Receive(Absorb(c, responses), r)
  {
    assert (responses + [r])[..|responses|] == responses;
  }

  lemma {:induction false} AbsorbOffers(c: Client, f: Filter, available: seq<int>, accept: Predicate)
    ensures Absorb(c, Offered(f, available, accept)) == c && NoIssues(Offered(f, available, accept))
    decreases |available|
  {
    if available != [] {
      var rest := Offered(f, available[1..], accept);
      AbsorbOffers(c, f, available[1..], accept);
      if Accepts(f, available[0], accept) {
        AbsorbFirst(c, [Content(f.base.objectClass, available[0])] + rest);
      } else {
        assert [] + rest == rest;
      }
    }
  }

  /** What an opening makes of its client: Closed for a Snapshot stream, Opened otherwise. */
  lemma AbsorbOpening(c: Client, f: Filter, cb: OpenCallback)
    ensures var sent := StreamProtocol.OpenStream(f, cb).sent;
            NoIssues(sent)
            && Absorb(c, sent) == c.(state := if f.base.kind == Snapshot then Closed else Opened, snapshotDone := true)
  {
    var opening := StateResponse(Opened, Empty);
    var offers := Offered(f, cb.available, cb.accept);
    var c' := c.(state := Opened);
    AbsorbOffers(c', f, cb.available, cb.accept);
    AbsorbFirst(c, [opening] + offers);
    AbsorbOne(c, [opening] + offers, StateResponse(Done, Empty));
    AbsorbOne(c, [opening] + offers + [StateResponse(Done, Empty)], StateResponse(Closed, Empty));
  }

  // ---------------------------------------------------------------- steps of the distributor

  lemma CloseRead(k: Key, cls: Class, s: System, cb: OpenCallback)
    requires Inv(cls, s) && (Closing(s) || Reopening(s))
    ensures Inv(cls, Act(k, cls, s, DistributorReceives(cb)))
  {
    var s' := Act(k, cls, s, DistributorReceives(cb));
    assert s.toClient + [] == s.toClient;
    UnreadDropped(s.client.state, s.registration.Some?, s.toClient);
    if Closing(s) {
      assert s'.toDistributor == [];
    } else {
      assert s'.toDistributor == Requests(s'.client.filter) == Requests(s'.client.filter)[0..];
      assert Opening(s', 0);
    }
  }

  /** One opening message is read while the distributor is paused, or finds the key without its
      filter: it has no effect and is lost. */
  lemma OpeningIgnored(cls: Class, s: System, n: nat, s': System)
    requires Inv(cls, s) && Opening(s, n)
    requires s' == s.(toDistributor := s.toDistributor[1..], lost := true)
    ensures Inv(cls, s')
  {
    if n == |s.client.filter.objects| {
      assert s'.toDistributor == [];
      AbsorbQuiet(s.client, s.toClient);
    } else {
      assert s'.toDistributor == Requests(s'.client.filter)[n + 1..];
      assert Opening(s', n + 1);
    }
  }

  /** The registration with the opening message that comes next. */
  function Grown(cls: Class, f: Filter, r: Option<Filter>, n: nat): Filter
    requires n <= |f.objects| && (n > 0 ==> r.Some?)
  {
    if n == 0 then Filter(cls, f.base, []) else r.value.(objects := r.value.objects + [f.objects[n - 1]])
  }

  /** What an opening message does: nothing while the distributor is paused or has lost the filter. */
  lemma OpeningStep(k: Key, cls: Class, f: Filter, r: Option<Filter>, running: bool, n: nat, cb: OpenCallback)
    requires n <= |f.objects| && f.cls == cls && (n == 0 ==> r.None?)
    requires n > 0 && r.Some? ==> r.value.cls == cls && |r.value.objects| < r.value.base.size
    ensures var o := KeyStep(k, r, running, RequestEvent(k, cls, Requests(f)[n], cb));
            if !running || (n > 0 && r.None?) then o == Outcome(r, [])
            else
              var g := Grown(cls, f, r, n);
              o == if IsOpen(g) then StreamProtocol.OpenStream(g, cb) else Outcome(Some(g), [])
  {
  }

  lemma OpeningRead(k: Key, cls: Class, s: System, n: nat, cb: OpenCallback)
    requires Inv(cls, s) && Opening(s, n)
    ensures Inv(cls, Act(k, cls, s, DistributorReceives(cb)))
  {
    var f := s.client.filter;
    assert s.toDistributor[0] == Requests(f)[n];
    OpeningStep(k, cls, f, s.registration, s.running, n, cb);
    var s' := Act(k, cls, s, DistributorReceives(cb));
    var o := KeyStep(k, s.registration, s.running, RequestEvent(k, cls, Requests(f)[n], cb));
    assert s.toClient + [] == s.toClient;
    if !s.running || (n > 0 && s.registration.None?) {
      OpeningIgnored(cls, s, n, s');
    } else {
      var g := Grown(cls, f, s.registration, n);
      GrownObjects(cls, f, s.registration, n, s.lost);
      OpeningAccepted(k, cls, s, n, g, cb, s');
    }
  }

  lemma GrownObjects(cls: Class, f: Filter, r: Option<Filter>, n: nat, lost: bool)
    requires n <= |f.objects| && (n > 0 ==> r.Some?)
    requires n > 0 && !lost ==> r.value.objects == f.objects[..n - 1]
    ensures !lost ==> Grown(cls, f, r, n).objects == f.objects[..n]
  {
  }

  lemma OpeningAccepted(k: Key, cls: Class, s: System, n: nat, g: Filter, cb: OpenCallback, s': System)
    requires Inv(cls, s) && Opening(s, n)
    requires g.cls == cls && g.base == s.client.filter.base && |g.objects| <= n && |g.objects| <= g.base.size
    requires !s.lost ==> g.objects == s.client.filter.objects[..n]
    requires var o := if IsOpen(g) then StreamProtocol.OpenStream(g, cb) else Outcome(Some(g), []);
             s' == s.(toDistributor := s.toDistributor[1..], registration := o.registration, toClient := s.toClient + o.sent)
    ensures Inv(cls, s')
  {
    var f := s.client.filter;
    if n < |f.objects| {
      assert s'.toDistributor == Requests(f)[n + 1..];
      assert s.toClient + [] == s.toClient;
      QuietUnread(Pending, true, s.toClient);
      assert Opening(s', n + 1);
    } else {
      assert s'.toDistributor == [];
      AbsorbQuiet(s.client, s.toClient);
      if IsOpen(g) {
        var sent := StreamProtocol.OpenStream(g, cb).sent;
        OpeningUnread(s.toClient, g, cb);
        AbsorbOpening(Absorb(s.client, s.toClient), g, cb);
        AbsorbConcat(s.client, s.toClient, sent);
      } else {
        assert s.toClient + [] == s.toClient;
        QuietUnread(Pending, true, s.toClient);
      }
    }
  }

  lemma OpeningUnread(before: seq<Response>, g: Filter, cb: OpenCallback)
    requires Quiet(before)
    ensures var o := StreamProtocol.OpenStream(g, cb);
            Unread(Pending, o.registration.Some?, before + o.sent)
  {
    var offers := Offered(g, cb.available, cb.accept);
    var opening, done, closed := [StateResponse(Opened, Empty)], [StateResponse(Done, Empty)], [StateResponse(Closed, Empty)];
    OffersQuiet(g, cb.available, cb.accept);
    assert opening + offers + done == opening + (offers + done) + [];
    assert opening + offers + done + closed == opening + (offers + done) + closed;
    UnreadOpening(before, offers + done, if g.base.kind == Snapshot then closed else [], g.base.kind != Snapshot);
  }

  lemma {:induction false} OffersQuiet(f: Filter, available: seq<int>, accept: Predicate)
    ensures Quiet(Offered(f, available, accept))
    decreases |available|
  {
    if available != [] {
      OffersQuiet(f, available[1..], accept);
    }
  }

  lemma ClientReads(k: Key, cls: Class, s: System)
    requires Inv(cls, s) && s.toClient != []
    ensures Inv(cls, Act(k, cls, s, ClientReceives))
  {
    var s' := Act(k, cls, s, ClientReceives);
    AbsorbFirst(s.client, s.toClient);
    UnreadNext(s.client, s.registration.Some?, s.toClient);
    if s.toDistributor != [] {
      if Closing(s) {
        assert Closing(s');
      } else {
        QuietRest(s.toClient);
        if Reopening(s) {
          assert Reopening(s');
        } else {
          var n :| Opening(s, n);
          assert Opening(s', n);
        }
      }
    }
  }

  /** What an event that is not this stream's own does to it: nothing, or one message to an open
      stream, which is an object or the news of its end. */
  lemma Bystander(k: Key, r: Option<Filter>, running: bool, e: Event)
    requires !((e.Collect? || e.ExternalAction?) && e.key == k)
    ensures var o := KeyStep(k, r, running, e);
            o == Outcome(r, []) || (|o.sent| == 1 && Passing(r, o.sent[0], o.registration))
  {
  }

  predicate Passing(r: Option<Filter>, sent: Response, r': Option<Filter>) {
    && r.Some? && IsOpen(r.value)
    && (sent.Content? ==> r' == r)
    && (sent.StateResponse? ==> sent == StateResponse(Failed, Empty) && r' == None)
  }

  lemma Untouched(cls: Class, s: System, s': System)
    requires Inv(cls, s) && s' == s.(running := s'.running)
    ensures Inv(cls, s')
  {
    if s.toDistributor != [] {
      if Closing(s) {
        assert Closing(s');
      } else if Reopening(s) {
        assert Reopening(s');
      } else {
        var n :| Opening(s, n);
        assert Opening(s', n);
      }
    }
  }

  lemma OneSent(cls: Class, s: System, x: Response, s': System)
    requires Inv(cls, s) && Passing(s.registration, x, s'.registration)
    requires s' == s.(registration := s'.registration, running := s'.running, toClient := s.toClient + [x])
    ensures Inv(cls, s')
  {
    AbsorbOne(s.client, s.toClient, x);
    UnreadMore(s.client.state, s.toClient, x, s'.registration.Some?);
    if s.toDistributor != [] {
      assert Closing(s);
      assert Closing(s');
    }
  }

  lemma OthersAct(k: Key, cls: Class, s: System, e: Event)
    requires Inv(cls, s) && Patient(k, s, Distributes(e))
    ensures Inv(cls, Act(k, cls, s, Distributes(e)))
  {
    var s' := Act(k, cls, s, Distributes(e));
    var o := KeyStep(k, s.registration, s.running, e);
    Bystander(k, s.registration, s.running, e);
    if o.sent == [] {
      assert s.toClient + [] == s.toClient;
      Untouched(cls, s, s');
    } else {
      assert o.sent == [o.sent[0]];
      OneSent(cls, s, o.sent[0], s');
    }
  }

  lemma ActKeepsInv(k: Key, cls: Class, s: System, a: Action)
    requires Inv(cls, s) && Patient(k, s, a)
    ensures Inv(cls, Act(k, cls, s, a))
  {
    if ByClient(a) {
      ClientActs(k, cls, s, a);
    } else if a.Distributes? {
      OthersAct(k, cls, s, a.event);
    } else if a.ClientReceives? {
      if s.toClient != [] {
        ClientReads(k, cls, s);
      }
    } else if s.toDistributor != [] {
      if Closing(s) || Reopening(s) {
        CloseRead(k, cls, s, a.callback);
      } else {
        var n :| Opening(s, n);
        OpeningRead(k, cls, s, n, a.callback);
      }
    }
  }

  lemma {:induction false} RunKeepsInv(k: Key, cls: Class, s: System, actions: seq<Action>)
    requires Inv(cls, s) && PatientRun(k, cls, s, actions)
    ensures Inv(cls, RunActions(k, cls, s, actions))
    decreases |actions|
  {
    if actions != [] {
      ActKeepsInv(k, cls, s, actions[0]);
      RunKeepsInv(k, cls, Act(k, cls, s, actions[0]), actions[1..]);
    }
  }

  /** What a patient client has besides what `StreamCrossing` says of every client. No message ever
      reports an issue; and whenever both channels are empty, it is Opened exactly when the
      distributor holds an open registration for it; if at rest it is not registered; and unless an
      opening message was discarded by a paused distributor, it is at rest exactly when it is not
      registered. */
  lemma Agreement(k: Key, cls: Class, connection: int, actions: seq<Action>)
    requires PatientRun(k, cls, Initial(cls, connection), actions)
    ensures var s := RunActions(k, cls, Initial(cls, connection), actions);
            && NoIssues(s.toClient)
            && (Quiescent(s) ==>
                  && (s.client.state == Opened <==> s.registration.Some? && IsOpen(s.registration.value))
                  && (s.client.state == Opened ==> s.client.snapshotDone)
                  && (AtRest(s.client.state) ==> s.registration.None?)
                  && (!s.lost ==> (AtRest(s.client.state) <==> s.registration.None?))
                  && (AtRest(s.client.state) || Active(s.client.state)))
  {
    var s0 := Initial(cls, connection);
    assert Absorb(s0.client, []) == s0.client;
    RunKeepsInv(k, cls, s0, actions);
    var s := RunActions(k, cls, s0, actions);
    assert Absorb(s.client, []) == s.client;
  }

  lemma RunFirst(k: Key, cls: Class, s: System, a: Action, rest: seq<Action>)
    ensures RunActions(k, cls, s, [a] + rest) == RunActions(k, cls, Act(k, cls, s, a), rest)
  {
  }
}
