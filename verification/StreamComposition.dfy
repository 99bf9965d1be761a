/** The containers of a distributor and the system of one of its clients, run together. */
module StreamComposition {
  import opened Options
  import opened StreamProtocol
  import opened StreamClient
  import opened StreamAgreement
  import opened StreamCrossing
  import opened DistributorModel
  import StreamRuns

  /** What an action is to the distributor, to which `requests` are on their way. */
  function EventOf(k: Key, cls: Class, requests: seq<Request>, a: Action): seq<Event> {
    match a
    case DistributorReceives(cb) => if requests == [] then [] else [RequestEvent(k, cls, requests[0], cb)]
    case Distributes(e) => [e]
    case _ => []
  }

  function EventsOf(k: Key, cls: Class, s: System, actions: seq<Action>): seq<Event>
    decreases |actions|
  {
    if actions == [] then []
    else EventOf(k, cls, s.toDistributor, actions[0]) + EventsOf(k, cls, Act(k, cls, s, actions[0]), actions[1..])
  }

  function ReadOne(s: System, a: Action): seq<Response> {
    if a.ClientReceives? && s.toClient != [] then [s.toClient[0]] else []
  }

  /** What the client reads. */
  function ReadBy(k: Key, cls: Class, s: System, actions: seq<Action>): seq<Response>
    decreases |actions|
  {
    if actions == [] then []
    else ReadOne(s, actions[0]) + ReadBy(k, cls, Act(k, cls, s, actions[0]), actions[1..])
  }

  /** The system stands where the run of its key stands after `past`; `read` is what the client has
      read so far. */
  ghost predicate InStep(k: Key, past: seq<Event>, s: System, read: seq<Response>) {
    var v := StreamRuns.Run(k, true, past);
    && s.registration == v.registration && s.running == v.running
    && StreamRuns.Responses(v.trace) == read + s.toClient
  }

  lemma Regroup<T>(a: seq<T>, b: seq<T>, c: seq<T>)
    ensures a + b + c == a + (b + c)
    ensures a + [] == a
  {
  }

  /** An event of the distributor. */
  lemma EventInStep(k: Key, past: seq<Event>, s: System, read: seq<Response>, e: Event, s': System)
    requires InStep(k, past, s, read)
    requires var o := KeyStep(k, s.registration, s.running, e);
             && s'.registration == o.registration && s'.running == NextRunning(s.running, e)
             && s'.toClient == s.toClient + o.sent
    ensures InStep(k, past + [e], s', read)
  {
    StreamRuns.RunStep(k, true, past, e);
    Regroup(read, s.toClient, KeyStep(k, s.registration, s.running, e).sent);
  }

  /** A step that is none of the distributor's. */
  lemma OwnInStep(k: Key, past: seq<Event>, s: System, read: seq<Response>, more: seq<Response>, s': System)
    requires InStep(k, past, s, read)
    requires s'.registration == s.registration && s'.running == s.running && s.toClient == more + s'.toClient
    ensures InStep(k, past, s', read + more)
  {
    Regroup(read, more, s'.toClient);
  }

  lemma StepInStep(k: Key, cls: Class, past: seq<Event>, s: System, read: seq<Response>, a: Action)
    requires InStep(k, past, s, read)
    ensures InStep(k, past + EventOf(k, cls, s.toDistributor, a), Act(k, cls, s, a), read + ReadOne(s, a))
  {
    var s' := Act(k, cls, s, a);
    Regroup(past, [], []);
    if (a.DistributorReceives? && s.toDistributor != []) || a.Distributes? {
      var e := EventOf(k, cls, s.toDistributor, a)[0];
      Regroup(read, [], []);
      EventInStep(k, past, s, read, e, s');
    } else {
      OwnInStep(k, past, s, read, ReadOne(s, a), s');
    }
  }

  lemma {:induction false} RunInStep(k: Key, cls: Class, past: seq<Event>, s: System, read: seq<Response>, actions: seq<Action>)
    requires InStep(k, past, s, read)
    ensures InStep(k, past + EventsOf(k, cls, s, actions), RunActions(k, cls, s, actions), read + ReadBy(k, cls, s, actions))
    decreases |actions|
  {
    if actions == [] {
      Regroup(past, [], []);
      Regroup(read, [], []);
    } else {
      var a, rest := actions[0], actions[1..];
      var s' := Act(k, cls, s, a);
      StepInStep(k, cls, past, s, read, a);
      RunInStep(k, cls, past + EventOf(k, cls, s.toDistributor, a), s', read + ReadOne(s, a), rest);
      Regroup(past, EventOf(k, cls, s.toDistributor, a), EventsOf(k, cls, s', rest));
      Regroup(read, ReadOne(s, a), ReadBy(k, cls, s', rest));
    }
  }

  /** A client of a distributor with its containers, amid all its other clients: whatever history
      the containers have that holds the client's events among the others, they hold the
      registration of the system and have sent what the client has read and has still to read. So
      once both channels are empty, the client is Opened exactly when the containers hold it open,
      unless a close has crossed; and a patient client is besides at rest exactly when they do not
      hold it at all. */
  lemma ContainersAgree(k: Key, cls: Class, connection: int, actions: seq<Action>,
                        registry: map<Key, Filter>, running: bool, sent: seq<Packet>)
    requires AllApart(k, actions)
    requires StreamRuns.Follows(true, EventsOf(k, cls, Initial(cls, connection), actions), registry, running, sent)
    ensures Agrees(k, cls, connection, actions, registry, sent)
  {
    var s0 := Initial(cls, connection);
    RunInStep(k, cls, [], s0, [], actions);
    var events := EventsOf(k, cls, s0, actions);
    assert [] + events == events && [] + ReadBy(k, cls, s0, actions) == ReadBy(k, cls, s0, actions);
    var v := StreamRuns.Run(k, true, events);
    assert Lookup(registry, k) == v.registration && ToKey(sent, k) == StreamRuns.Responses(v.trace);
    SystemAgrees(k, cls, connection, actions, registry, sent);
  }

  lemma SystemAgrees(k: Key, cls: Class, connection: int, actions: seq<Action>, registry: map<Key, Filter>, sent: seq<Packet>)
    requires AllApart(k, actions)
    requires var s := RunActions(k, cls, Initial(cls, connection), actions);
             && Lookup(registry, k) == s.registration
             && ToKey(sent, k) == ReadBy(k, cls, Initial(cls, connection), actions) + s.toClient
    ensures Agrees(k, cls, connection, actions, registry, sent)
  {
    AgreementExact(k, cls, connection, actions);
    if PatientRun(k, cls, Initial(cls, connection), actions) {
      Agreement(k, cls, connection, actions);
    }
  }

  /** What the registrations and messages of a distributor have to do with a run of the system. */
  ghost predicate Agrees(k: Key, cls: Class, connection: int, actions: seq<Action>,
                         registry: map<Key, Filter>, sent: seq<Packet>) {
    var s0 := Initial(cls, connection);
    var s := RunActions(k, cls, s0, actions);
    && Lookup(registry, k) == s.registration
    && ToKey(sent, k) == ReadBy(k, cls, s0, actions) + s.toClient
    && (Quiescent(s) ==>
          && ((s.client.state == Opened <==> k in registry && IsOpen(registry[k]))
              <==> !Crossed(k, cls, s0, false, actions))
          && (PatientRun(k, cls, s0, actions) ==>
                && (s.client.state == Opened <==> k in registry && IsOpen(registry[k]))
                && (AtRest(s.client.state) ==> k !in registry)
                && (!s.lost && k !in registry ==> AtRest(s.client.state))))
  }

  // ---------------------------------------------------------------- histories of a distributor

  /** One event, as the operation of the distributor that it stands for. */
  method PlayOne(d: Distributor, e: Event)
    requires d.Valid()
    modifies d
    ensures d.Valid() && Steps(old(d.Registry()), old(d.running), old(d.sent), e, d.Registry(), d.running, d.sent)
  {
    match e {
      case Collect(key, cls, request, cb) => d.Collect(key, cls, request, cb);
      case ExternalAction(key, state) => d.StreamExternalAction(key, state);
      case NewObject(objectClass, content, accept) => d.SendNewObject(objectClass, content, accept);
      case Stop => d.Stop();
      case SetRunning(running) => d.SetRunning(running);
    }
  }

  lemma NothingFollows(running: bool)
    ensures StreamRuns.Follows(running, [], map[], running, [])
  {
  }

  /** Every history can be played on a new distributor, and its containers follow it. */
  method Play(running: bool, events: seq<Event>) returns (d: Distributor)
    ensures fresh(d) && d.Valid()
    ensures StreamRuns.Follows(running, events, d.Registry(), d.running, d.sent)
  {
    d := new Distributor(running);
    NothingFollows(running);
    for i := 0 to |events|
      invariant fresh(d) && d.Valid()
      invariant StreamRuns.Follows(running, events[..i], d.Registry(), d.running, d.sent)
    {
      ghost var r, current, sent := d.Registry(), d.running, d.sent;
      PlayOne(d, events[i]);
      StreamRuns.StepFollows(running, events[..i], events[i], r, current, sent, d.Registry(), d.running, d.sent);
      assert events[..i] + [events[i]] == events[..i + 1];
    }
    assert events[..|events|] == events;
  }

  // ---------------------------------------------------------------- both sides together

  lemma {:induction false} RunLast(k: Key, cls: Class, s: System, actions: seq<Action>, a: Action)
    ensures RunActions(k, cls, s, actions + [a]) == Act(k, cls, RunActions(k, cls, s, actions), a)
    ensures ReadBy(k, cls, s, actions + [a])
            == ReadBy(k, cls, s, actions) + ReadOne(RunActions(k, cls, s, actions), a)
    decreases |actions|
  {
    if actions == [] {
      assert [] + [a] == [a] && [a][1..] == [];
    } else {
      assert (actions + [a])[1..] == actions[1..] + [a];
      RunLast(k, cls, Act(k, cls, s, actions[0]), actions[1..], a);
    }
  }

  /** What the client does of its own accord, and what it sends by it. */
  method ClientDoes(c: Stream, a: Action) returns (sent: seq<Request>)
    requires ByClient(a) && (a.ClientSetFilter? ==> a.objectClass == c.objectClass)
    modifies c
    ensures var r := match a
                     case ClientSetFilter(kind, objectClass, objects) =>
                       SetFilter(old(c.Model()), Filter(c.cls, FilterBase(kind, |objects|, objectClass), objects))
                     case ClientOpen => StreamClient.Open(old(c.Model()))
                     case _ => StreamClient.Close(old(c.Model()));
            c.Model() == r.client && sent == r.sent
  {
    var n := |c.sent|;
    if a.ClientSetFilter? {
      c.ChangeFilter(a.kind, a.objects);
    } else if a.ClientOpen? {
      var _ := c.OpenStream();
    } else {
      c.CloseStream();
    }
    sent := c.sent[n..];
  }

  /** What the distributor does on an event, and what it sends to `k` by it. */
  method DistributorDoes(d: Distributor, k: Key, e: Event) returns (sent: seq<Response>)
    requires d.Valid()
    modifies d
    ensures var o := KeyStep(k, old(Lookup(d.Registry(), k)), old(d.running), e);
            && d.Valid() && Lookup(d.Registry(), k) == o.registration && d.running == NextRunning(old(d.running), e)
            && sent == o.sent && ToKey(d.sent, k) == old(ToKey(d.sent, k)) + sent
  {
    var n := |ToKey(d.sent, k)|;
    PlayOne(d, e);
    sent := ToKey(d.sent, k)[n..];
  }

  /** The classes stand where the system stands. */
  ghost predicate Stands(c: Stream, d: Distributor, k: Key, requests: seq<Request>, responses: seq<Response>, s: System)
    reads c, d
  {
    && c.Model() == s.client && d.Valid()
    && Lookup(d.Registry(), k) == s.registration && d.running == s.running
    && requests == s.toDistributor && responses == s.toClient
  }

  /** One action of the system, by the methods of the client's stream and of the distributor. */
  method Perform(c: Stream, d: Distributor, k: Key, a: Action, requests: seq<Request>, responses: seq<Response>,
                 ghost read: seq<Response>, ghost s: System)
    returns (requests': seq<Request>, responses': seq<Response>)
    requires Stands(c, d, k, requests, responses, s) && ToKey(d.sent, k) == read + responses
    requires a.ClientSetFilter? ==> a.objectClass == c.objectClass
    modifies c, d
    ensures Stands(c, d, k, requests', responses', Act(k, c.cls, s, a))
    ensures ToKey(d.sent, k) == read + ReadOne(s, a) + responses'
  {
    Regroup(read, [], []);
    requests', responses' := requests, responses;
    if ByClient(a) {
      var sent := ClientDoes(c, a);
      requests' := requests + sent;
      assert requests + [] == requests;
    } else if a.ClientReceives? {
      if responses != [] {
        if responses[0].StateResponse? {
          c.CollectStreamState(responses[0]);
        }
        responses' := responses[1..];
        assert responses == [responses[0]] + responses';
        Regroup(read, [responses[0]], responses');
      }
    } else {
      responses' := Receives(d, k, EventOf(k, c.cls, requests, a), responses, read);
      if a.DistributorReceives? && requests != [] {
        requests' := requests[1..];
      }
    }
  }

  /** The distributor's events in one action: one, or none. */
  method Receives(d: Distributor, k: Key, events: seq<Event>, responses: seq<Response>, ghost read: seq<Response>)
    returns (responses': seq<Response>)
    requires d.Valid() && |events| <= 1 && ToKey(d.sent, k) == read + responses
    modifies d
    ensures d.Valid() && ToKey(d.sent, k) == read + responses'
    ensures if events == [] then
              responses' == responses && d.running == old(d.running) && Lookup(d.Registry(), k) == old(Lookup(d.Registry(), k))
            else
              var o := KeyStep(k, old(Lookup(d.Registry(), k)), old(d.running), events[0]);
              && Lookup(d.Registry(), k) == o.registration && d.running == NextRunning(old(d.running), events[0])
              && responses' == responses + o.sent
  {
    responses' := responses;
    if events != [] {
      var sent := DistributorDoes(d, k, events[0]);
      Regroup(read, responses, sent);
      responses' := responses + sent;
    }
  }

  method Connect(k: Key, cls: Class, objectClass: Class, connection: int) returns (c: Stream, d: Distributor)
    ensures fresh(c) && fresh(d) && c.cls == cls && c.objectClass == objectClass
    ensures Stands(c, d, k, [], [], Initial(cls, connection)) && ToKey(d.sent, k) == []
  {
    c := new Stream(k.id, cls, objectClass);
    c.SetConnection(connection);
    d := new Distributor(true);
  }

  /** A stream, a distributor and two queues, run together from the beginning, do what the system
      does: client and containers agree exactly if no close has crossed. */
  method PerformAll(k: Key, cls: Class, objectClass: Class, connection: int, actions: seq<Action>)
    returns (c: Stream, d: Distributor)
    requires AllApart(k, actions)
    requires forall i :: 0 <= i < |actions| && actions[i].ClientSetFilter? ==> actions[i].objectClass == objectClass
    ensures d.Valid() && c.Model() == RunActions(k, cls, Initial(cls, connection), actions).client
    ensures Agrees(k, cls, connection, actions, d.Registry(), d.sent)
  {
    c, d := Connect(k, cls, objectClass, connection);
    var requests: seq<Request>, responses: seq<Response> := [], [];
    ghost var s0 := Initial(cls, connection);
    ghost var s, read: seq<Response> := s0, [];
    for i := 0 to |actions|
      invariant fresh(c) && fresh(d) && c.cls == cls && c.objectClass == objectClass
      invariant s == RunActions(k, cls, s0, actions[..i]) && read == ReadBy(k, cls, s0, actions[..i])
      invariant Stands(c, d, k, requests, responses, s) && ToKey(d.sent, k) == read + responses
    {
      requests, responses := Perform(c, d, k, actions[i], requests, responses, read, s);
      RunLast(k, cls, s0, actions[..i], actions[i]);
      assert actions[..i] + [actions[i]] == actions[..i + 1];
      s, read := Act(k, cls, s, actions[i]), read + ReadOne(s, actions[i]);
    }
    assert actions[..|actions|] == actions;
    SystemAgrees(k, cls, connection, actions, d.Registry(), d.sent);
  }
}
