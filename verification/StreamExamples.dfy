/** Two runs in which a close crosses Opened. */
module StreamExamples {
  import opened Options
  import opened StreamProtocol
  import opened StreamClient
  import opened StreamAgreement
  import opened StreamCrossing
  import opened StreamCloses

  /** The client never closes, nor changes its filter, while it is Pending. */
  ghost predicate ClosesInTime(k: Key, cls: Class, s: System, actions: seq<Action>)
    decreases |actions|
  {
    actions != [] ==>
      && (actions[0].ClientClose? || actions[0].ClientSetFilter? ==> s.client.state != Pending)
      && ClosesInTime(k, cls, Act(k, cls, s, actions[0]), actions[1..])
  }

  lemma {:induction false} InTimeConcat(k: Key, cls: Class, s: System, a: seq<Action>, b: seq<Action>)
    ensures RunActions(k, cls, s, a + b) == RunActions(k, cls, RunActions(k, cls, s, a), b)
    ensures ClosesInTime(k, cls, s, a + b) <==>
            ClosesInTime(k, cls, s, a) && ClosesInTime(k, cls, RunActions(k, cls, s, a), b)
    decreases |a|
  {
    if a == [] {
      assert a + b == b;
    } else {
      assert (a + b)[1..] == a[1..] + b;
      InTimeConcat(k, cls, Act(k, cls, s, a[0]), a[1..], b);
    }
  }

  lemma Three(k: Key, cls: Class, s: System, a: Action, b: Action, c: Action)
    ensures var s1 := Act(k, cls, s, a);
            var s2 := Act(k, cls, s1, b);
            && RunActions(k, cls, s, [a, b, c]) == Act(k, cls, s2, c)
            && (ClosesInTime(k, cls, s, [a, b, c]) <==>
                && (a.ClientClose? || a.ClientSetFilter? ==> s.client.state != Pending)
                && (b.ClientClose? || b.ClientSetFilter? ==> s1.client.state != Pending)
                && (c.ClientClose? || c.ClientSetFilter? ==> s2.client.state != Pending))
  {
    var s1 := Act(k, cls, s, a);
    assert [a, b, c][1..] == [b, c] && [b, c][1..] == [c] && [c][1..] == [];
    assert RunActions(k, cls, Act(k, cls, s1, b), [c]) == Act(k, cls, Act(k, cls, s1, b), c);
    assert RunActions(k, cls, s1, [b, c]) == RunActions(k, cls, Act(k, cls, s1, b), [c]);
    assert ClosesInTime(k, cls, Act(k, cls, s1, b), [c]) <==>
           (c.ClientClose? || c.ClientSetFilter? ==> Act(k, cls, s1, b).client.state != Pending);
    assert ClosesInTime(k, cls, s1, [b, c]) <==>
           (b.ClientClose? || b.ClientSetFilter? ==> s1.client.state != Pending)
           && ClosesInTime(k, cls, Act(k, cls, s1, b), [c]);
  }

  /** The system of a client with connection 1 and a filter of this kind, which declares nothing. */
  function At(cls: Class, kind: StreamType, state: State, done: bool, open: bool,
              toDistributor: seq<Request>, toClient: seq<Response>): System {
    var f := Filter(cls, FilterBase(kind, 0, 0), []);
    System(Client(1, state, done, true, f), if open then Some(f) else None, true, toDistributor, toClient, false)
  }

  function Header(cls: Class, kind: StreamType): Request {
    FilterHeader(cls, FilterBase(kind, 0, 0))
  }

  const OPENED := StateResponse(Opened, Empty)
  const DONE := StateResponse(Done, Empty)
  const CLOSED := StateResponse(Closed, Empty)

  lemma Asks(k: Key, cls: Class, kind: StreamType, state: State, done: bool, requests: seq<Request>, responses: seq<Response>)
    requires !Active(state)
    ensures Act(k, cls, At(cls, kind, state, done, false, requests, responses), ClientOpen)
            == At(cls, kind, Pending, done, false, requests + [Header(cls, kind)], responses)
  {
    var f := Filter(cls, FilterBase(kind, 0, 0), []);
    assert Requests(f) == [Header(cls, kind)];
  }

  lemma Answers(k: Key, cls: Class, kind: StreamType, state: State, done: bool, requests: seq<Request>,
                responses: seq<Response>, cb: OpenCallback)
    requires cb.available == [] && (kind == Snapshot || kind == SnapshotAndLive)
    ensures Act(k, cls, At(cls, kind, state, done, false, [Header(cls, kind)] + requests, responses), DistributorReceives(cb))
            == At(cls, kind, state, done, kind != Snapshot, requests,
                  responses + if kind == Snapshot then [OPENED, DONE, CLOSED] else [OPENED, DONE])
  {
    var all := [Header(cls, kind)] + requests;
    assert all[0] == Header(cls, kind) && all[1..] == requests;
    var f := Filter(cls, FilterBase(kind, 0, 0), []);
    assert KeyStep(k, None, true, Collect(k, cls, all[0], cb)) == OpenStream(f, cb);
    assert OpenStream(f, cb).sent == if kind == Snapshot then [OPENED, DONE, CLOSED] else [OPENED, DONE];
  }

  lemma HeadOff<T>(x: T, rest: seq<T>)
    ensures ([x] + rest)[0] == x && ([x] + rest)[1..] == rest
  {
  }

  lemma Reads(k: Key, cls: Class, kind: StreamType, state: State, done: bool, open: bool, requests: seq<Request>,
              r: Response, rest: seq<Response>)
    requires r == OPENED || r == DONE || r == CLOSED
    ensures Act(k, cls, At(cls, kind, state, done, open, requests, [r] + rest), ClientReceives)
            == At(cls, kind, if r == DONE then state else r.state, done || r == DONE, open, requests, rest)
  {
    HeadOff(r, rest);
  }

  /** A close that is read: the registration, if any, is gone. */
  lemma Forgets(k: Key, cls: Class, kind: StreamType, state: State, done: bool, open: bool, requests: seq<Request>,
                responses: seq<Response>, cb: OpenCallback)
    ensures Act(k, cls, At(cls, kind, state, done, open, [StateAction(Closed)] + requests, responses), DistributorReceives(cb))
            == At(cls, kind, state, done, false, requests, responses)
  {
    HeadOff(StateAction(Closed), requests);
    assert responses + [] == responses;
  }

  /** A snapshot is asked for and sent. */
  function AskSnapshot(cb: OpenCallback): seq<Action> {
    [ClientSetFilter(Snapshot, 0, []), ClientOpen, DistributorReceives(cb)]
  }

  lemma SnapshotAsked(k: Key, cls: Class, cb: OpenCallback)
    requires cb.available == []
    ensures ClosesInTime(k, cls, Initial(cls, 1), AskSnapshot(cb))
    ensures RunActions(k, cls, Initial(cls, 1), AskSnapshot(cb))
            == At(cls, Snapshot, Pending, false, false, [], [OPENED, DONE, CLOSED])
  {
    var s0 := Initial(cls, 1);
    Three(k, cls, s0, ClientSetFilter(Snapshot, 0, []), ClientOpen, DistributorReceives(cb));
    assert [] + [Header(cls, Snapshot)] == [Header(cls, Snapshot)] + [];
    assert [] + [OPENED, DONE, CLOSED] == [OPENED, DONE, CLOSED];
    Asks(k, cls, Snapshot, Undefined, false, [], []);
    Answers(k, cls, Snapshot, Pending, false, [], [], cb);
  }

  /** With Done and Closed still to read, it is asked for again. */
  const AskAgain: seq<Action> := [ClientReceives, ClientClose, ClientOpen]

  lemma SnapshotAskedAgain(k: Key, cls: Class)
    ensures var s := At(cls, Snapshot, Pending, false, false, [], [OPENED, DONE, CLOSED]);
            && ClosesInTime(k, cls, s, AskAgain)
            && RunActions(k, cls, s, AskAgain)
               == At(cls, Snapshot, Pending, false, false, [StateAction(Closed), Header(cls, Snapshot)], [DONE, CLOSED])
  {
    var s := At(cls, Snapshot, Pending, false, false, [], [OPENED, DONE, CLOSED]);
    Three(k, cls, s, ClientReceives, ClientClose, ClientOpen);
    assert [OPENED, DONE, CLOSED] == [OPENED] + [DONE, CLOSED];
    Reads(k, cls, Snapshot, Pending, false, false, [], OPENED, [DONE, CLOSED]);
    assert [] + [StateAction(Closed)] == [StateAction(Closed)];
    assert Act(k, cls, At(cls, Snapshot, Opened, false, false, [], [DONE, CLOSED]), ClientClose)
        == At(cls, Snapshot, Closed, false, false, [StateAction(Closed)], [DONE, CLOSED]);
    Asks(k, cls, Snapshot, Closed, false, [StateAction(Closed)], [DONE, CLOSED]);
    assert [StateAction(Closed)] + [Header(cls, Snapshot)] == [StateAction(Closed), Header(cls, Snapshot)];
  }

  function SendAgain(cb: OpenCallback): seq<Action> {
    [DistributorReceives(cb), DistributorReceives(cb), ClientReceives]
  }

  lemma SnapshotSentAgain(k: Key, cls: Class, cb: OpenCallback)
    requires cb.available == []
    ensures var s := At(cls, Snapshot, Pending, false, false, [StateAction(Closed), Header(cls, Snapshot)], [DONE, CLOSED]);
            && ClosesInTime(k, cls, s, SendAgain(cb))
            && RunActions(k, cls, s, SendAgain(cb))
               == At(cls, Snapshot, Pending, true, false, [], [CLOSED, OPENED, DONE, CLOSED])
  {
    var s := At(cls, Snapshot, Pending, false, false, [StateAction(Closed), Header(cls, Snapshot)], [DONE, CLOSED]);
    Three(k, cls, s, DistributorReceives(cb), DistributorReceives(cb), ClientReceives);
    assert [StateAction(Closed), Header(cls, Snapshot)] == [StateAction(Closed)] + [Header(cls, Snapshot)];
    Forgets(k, cls, Snapshot, Pending, false, false, [Header(cls, Snapshot)], [DONE, CLOSED], cb);
    assert [Header(cls, Snapshot)] == [Header(cls, Snapshot)] + [];
    Answers(k, cls, Snapshot, Pending, false, [], [DONE, CLOSED], cb);
    assert [DONE, CLOSED] + [OPENED, DONE, CLOSED] == [DONE] + [CLOSED, OPENED, DONE, CLOSED];
    Reads(k, cls, Snapshot, Pending, false, false, [], DONE, [CLOSED, OPENED, DONE, CLOSED]);
  }

  /** The old Closed is taken for the end of the new stream: live objects are asked for. */
  const AskLive: seq<Action> := [ClientReceives, ClientSetFilter(SnapshotAndLive, 0, []), ClientOpen]

  lemma LiveAsked(k: Key, cls: Class)
    ensures var s := At(cls, Snapshot, Pending, true, false, [], [CLOSED, OPENED, DONE, CLOSED]);
            && ClosesInTime(k, cls, s, AskLive)
            && RunActions(k, cls, s, AskLive)
               == At(cls, SnapshotAndLive, Pending, false, false, [Header(cls, SnapshotAndLive)], [OPENED, DONE, CLOSED])
  {
    var s := At(cls, Snapshot, Pending, true, false, [], [CLOSED, OPENED, DONE, CLOSED]);
    var rest := [OPENED, DONE, CLOSED];
    Three(k, cls, s, ClientReceives, ClientSetFilter(SnapshotAndLive, 0, []), ClientOpen);
    assert [CLOSED, OPENED, DONE, CLOSED] == [CLOSED] + rest;
    Reads(k, cls, Snapshot, Pending, true, false, [], CLOSED, rest);
    assert Act(k, cls, At(cls, Snapshot, Closed, true, false, [], rest), ClientSetFilter(SnapshotAndLive, 0, []))
        == At(cls, SnapshotAndLive, Closed, false, false, [], rest);
    Asks(k, cls, SnapshotAndLive, Closed, false, [], rest);
    assert [] + [Header(cls, SnapshotAndLive)] == [Header(cls, SnapshotAndLive)];
  }

  /** The old Opened is taken for that of the new stream, which is closed before it opens. */
  function CloseLive(cb: OpenCallback): seq<Action> {
    [ClientReceives, ClientClose, DistributorReceives(cb)]
  }

  lemma LiveClosed(k: Key, cls: Class, cb: OpenCallback)
    requires cb.available == []
    ensures var s := At(cls, SnapshotAndLive, Pending, false, false, [Header(cls, SnapshotAndLive)], [OPENED, DONE, CLOSED]);
            && ClosesInTime(k, cls, s, CloseLive(cb))
            && RunActions(k, cls, s, CloseLive(cb))
               == At(cls, SnapshotAndLive, Closed, false, true, [StateAction(Closed)], [DONE, CLOSED, OPENED, DONE])
  {
    var header := [Header(cls, SnapshotAndLive)];
    var s := At(cls, SnapshotAndLive, Pending, false, false, header, [OPENED, DONE, CLOSED]);
    Three(k, cls, s, ClientReceives, ClientClose, DistributorReceives(cb));
    assert [OPENED, DONE, CLOSED] == [OPENED] + [DONE, CLOSED];
    Reads(k, cls, SnapshotAndLive, Pending, false, false, header, OPENED, [DONE, CLOSED]);
    assert Act(k, cls, At(cls, SnapshotAndLive, Opened, false, false, header, [DONE, CLOSED]), ClientClose)
        == At(cls, SnapshotAndLive, Closed, false, false, header + [StateAction(Closed)], [DONE, CLOSED]);
    Answers(k, cls, SnapshotAndLive, Closed, false, [StateAction(Closed)], [DONE, CLOSED], cb);
    assert [DONE, CLOSED] + [OPENED, DONE] == [DONE, CLOSED, OPENED, DONE];
  }

  lemma OpenedLast(c: Client, before: seq<Response>)
    ensures Absorb(c, before + [OPENED, DONE]).state == Opened
  {
    assert before + [OPENED, DONE] == (before + [OPENED]) + [DONE];
    AbsorbOne(c, before, OPENED);
    AbsorbOne(c, before + [OPENED], DONE);
  }

  /** The client closes before it has read that it is Opened. */
  function ImpatientRun(cb: OpenCallback): seq<Action> {
    [ClientSetFilter(SnapshotAndLive, 0, []), ClientOpen, DistributorReceives(cb)]
    + ([ClientClose] + ([DistributorReceives(cb)] + Reading(2)))
  }

  /** A close while Pending that leaves the client Opened without a registration. */
  lemma ImpatientCloseDisagrees(k: Key, cls: Class, cb: OpenCallback)
    requires cb.available == []
    ensures var s := RunActions(k, cls, Initial(cls, 1), ImpatientRun(cb));
            Quiescent(s) && s.client.state == Opened && s.registration.None? && !s.lost
  {
    var s0 := Initial(cls, 1);
    var rest := [DistributorReceives(cb)] + Reading(2);
    Three(k, cls, s0, ClientSetFilter(SnapshotAndLive, 0, []), ClientOpen, DistributorReceives(cb));
    assert [] + [Header(cls, SnapshotAndLive)] == [Header(cls, SnapshotAndLive)] + [];
    assert [] + [OPENED, DONE] == [OPENED, DONE];
    Asks(k, cls, SnapshotAndLive, Undefined, false, [], []);
    Answers(k, cls, SnapshotAndLive, Pending, false, [], [], cb);
    InTimeConcat(k, cls, s0, [ClientSetFilter(SnapshotAndLive, 0, []), ClientOpen, DistributorReceives(cb)], [ClientClose] + rest);
    var s1 := At(cls, SnapshotAndLive, Pending, false, true, [], [OPENED, DONE]);
    var s2 := Act(k, cls, s1, ClientClose);
    assert s2.toDistributor == [StateAction(Closed)] && s2.toClient == [] + [OPENED, DONE];
    RunFirst(k, cls, s1, ClientClose, rest);
    OpenedLast(s2.client, []);
    CrossedReads(k, cls, s2, cb);
  }

  function HastyStart(cb: OpenCallback): seq<Action> {
    AskSnapshot(cb) + (AskAgain + (SendAgain(cb) + (AskLive + CloseLive(cb))))
  }

  lemma HastilyClosed(k: Key, cls: Class, cb: OpenCallback)
    requires cb.available == []
    ensures ClosesInTime(k, cls, Initial(cls, 1), HastyStart(cb))
    ensures RunActions(k, cls, Initial(cls, 1), HastyStart(cb))
            == At(cls, SnapshotAndLive, Closed, false, true, [StateAction(Closed)], [DONE, CLOSED, OPENED, DONE])
  {
    var s0 := Initial(cls, 1);
    var s1 := RunActions(k, cls, s0, AskSnapshot(cb));
    var s2 := RunActions(k, cls, s1, AskAgain);
    var s3 := RunActions(k, cls, s2, SendAgain(cb));
    SnapshotAsked(k, cls, cb);
    SnapshotAskedAgain(k, cls);
    SnapshotSentAgain(k, cls, cb);
    LiveAsked(k, cls);
    LiveClosed(k, cls, cb);
    InTimeConcat(k, cls, s3, AskLive, CloseLive(cb));
    InTimeConcat(k, cls, s2, SendAgain(cb), AskLive + CloseLive(cb));
    InTimeConcat(k, cls, s1, AskAgain, SendAgain(cb) + (AskLive + CloseLive(cb)));
    InTimeConcat(k, cls, s0, AskSnapshot(cb), AskAgain + (SendAgain(cb) + (AskLive + CloseLive(cb))));
  }

  function HastyRun(cb: OpenCallback): seq<Action> {
    HastyStart(cb) + ([DistributorReceives(cb)] + Reading(4))
  }

  /** A client that closes only when it is Opened, as it believes: it has opened again with messages
      of its last stream unread, and taken them for messages of the new one. */
  lemma HastyOpenDisagrees(k: Key, cls: Class, cb: OpenCallback)
    requires cb.available == []
    ensures ClosesInTime(k, cls, Initial(cls, 1), HastyRun(cb))
    ensures var s := RunActions(k, cls, Initial(cls, 1), HastyRun(cb));
            Quiescent(s) && s.client.state == Opened && s.registration.None? && !s.lost
  {
    var s := At(cls, SnapshotAndLive, Closed, false, true, [StateAction(Closed)], [DONE, CLOSED, OPENED, DONE]);
    var rest := [DistributorReceives(cb)] + Reading(4);
    HastilyClosed(k, cls, cb);
    assert s.toClient == [DONE, CLOSED] + [OPENED, DONE];
    OpenedLast(s.client, [DONE, CLOSED]);
    CrossedReads(k, cls, s, cb);
    NoClose(k, cls, s, rest);
    InTimeConcat(k, cls, Initial(cls, 1), HastyStart(cb), rest);
  }

  lemma {:induction false} NoClose(k: Key, cls: Class, s: System, actions: seq<Action>)
    requires forall i :: 0 <= i < |actions| ==> !ByClient(actions[i])
    ensures ClosesInTime(k, cls, s, actions)
    decreases |actions|
  {
    if actions != [] {
      NoClose(k, cls, Act(k, cls, s, actions[0]), actions[1..]);
    }
  }
}
