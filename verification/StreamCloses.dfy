/** A client that closes, whatever is on its way: what becomes of it. */
module StreamCloses {
  import opened Options
  import opened StreamProtocol
  import opened StreamClient
  import opened StreamAgreement
  import opened StreamCrossing

  /** No client action, and nothing the distributor does on its own account for this stream. */
  ghost predicate LeftAlone(k: Key, actions: seq<Action>) {
    forall i :: 0 <= i < |actions| ==> !ByClient(actions[i]) && Apart(k, actions[i])
  }

  predicate IsClose(a: Action) {
    a.ClientClose? || a.ClientSetFilter?
  }

  /** The last request is read while the client is, or is about to become, Opened. */
  predicate ReadWhileOpened(k: Key, cls: Class, s: System, actions: seq<Action>)
    decreases |actions|
  {
    actions != []
    && if |s.toDistributor| == 1 && actions[0].DistributorReceives? then Will(s) == Opened
       else ReadWhileOpened(k, cls, Act(k, cls, s, actions[0]), actions[1..])
  }

  /** The last request finds the stream open, or finds what an earlier close has left. */
  predicate CloseFinds(k: Key, cls: Class, s: System, crossed: bool, actions: seq<Action>)
    decreases |actions|
  {
    actions != []
    && if |s.toDistributor| == 1 && actions[0].DistributorReceives? then IsOpened(s.registration) || crossed
       else CloseFinds(k, cls, Act(k, cls, s, actions[0]), CrossedBy(k, cls, s, crossed, actions[0]), actions[1..])
  }

  // ---------------------------------------------------------------- behind the close

  /** Everything has been read by the distributor: what the client will become is settled. */
  predicate Heard(s: System, state: State) {
    s.toDistributor == [] && s.registration.None? && Will(s) == state
  }

  lemma {:induction false} HeardStays(k: Key, cls: Class, s: System, state: State, actions: seq<Action>)
    requires Heard(s, state) && LeftAlone(k, actions)
    ensures Heard(RunActions(k, cls, s, actions), state)
    decreases |actions|
  {
    if actions != [] {
      var a := actions[0];
      assert s.toClient + [] == s.toClient;
      if a.ClientReceives? && s.toClient != [] {
        AbsorbFirst(s.client, s.toClient);
      } else if a.Distributes? {
        Bystander(k, s.registration, s.running, a.event);
      }
      HeardStays(k, cls, Act(k, cls, s, a), state, actions[1..]);
    }
  }

  /** The client's close is the last request. */
  predicate EndsWithClose(s: System) {
    s.toDistributor != [] && s.toDistributor[|s.toDistributor| - 1] == StateAction(Closed)
  }

  lemma LastRead(k: Key, cls: Class, s: System, cb: OpenCallback)
    requires EndsWithClose(s) && |s.toDistributor| == 1
    ensures Heard(Act(k, cls, s, DistributorReceives(cb)), Will(s))
  {
    assert s.toDistributor == [StateAction(Closed)];
    assert s.toClient + [] == s.toClient;
  }

  lemma {:induction false} CloseRuns(k: Key, cls: Class, s: System, actions: seq<Action>)
    requires EndsWithClose(s) && LeftAlone(k, actions)
    ensures var s' := RunActions(k, cls, s, actions);
            s'.toDistributor == [] ==>
              s'.registration.None? && (Will(s') == Opened <==> ReadWhileOpened(k, cls, s, actions))
    decreases |actions|
  {
    if actions != [] {
      var a, rest := actions[0], actions[1..];
      if |s.toDistributor| == 1 && a.DistributorReceives? {
        LastRead(k, cls, s, a.callback);
        HeardStays(k, cls, Act(k, cls, s, a), Will(s), rest);
      } else {
        CloseRuns(k, cls, Act(k, cls, s, a), rest);
      }
    }
  }

  lemma ClosesLast(k: Key, cls: Class, s: System, close: Action)
    requires Active(s.client.state) && IsClose(close)
    ensures var s' := Act(k, cls, s, close);
            && s'.client.state == Closed && s'.toDistributor == s.toDistributor + [StateAction(Closed)]
            && s'.registration == s.registration && s'.running == s.running && s'.toClient == s.toClient
  {
  }

  /** A close of an active client, in whatever state the two sides are, and then nothing but reading
      and what goes on elsewhere: the registration is gone, and the client is left Opened exactly if
      the close was read while it was to be Opened. */
  lemma CloseSettles(k: Key, cls: Class, s: System, close: Action, actions: seq<Action>)
    requires Active(s.client.state) && IsClose(close) && LeftAlone(k, actions)
    ensures var s1 := Act(k, cls, s, close);
            var s' := RunActions(k, cls, s1, actions);
            Quiescent(s') ==>
              s'.registration.None? && (s'.client.state == Opened <==> ReadWhileOpened(k, cls, s1, actions))
  {
    var s1 := Act(k, cls, s, close);
    ClosesLast(k, cls, s, close);
    CloseRuns(k, cls, s1, actions);
    var s' := RunActions(k, cls, s1, actions);
    assert Absorb(s'.client, []) == s'.client;
  }

  /** With all requests read and the close read next, this is whether a Pending client would have
      become Opened by what it had still to read. */
  lemma PendingCloseAtOnce(k: Key, cls: Class, s: System, close: Action, cb: OpenCallback, actions: seq<Action>)
    requires s.client.state == Pending && IsClose(close) && s.toDistributor == [] && LeftAlone(k, actions)
    ensures var s' := RunActions(k, cls, Act(k, cls, s, close), [DistributorReceives(cb)] + actions);
            Quiescent(s') ==> s'.registration.None? && (s'.client.state == Opened <==> Will(s) == Opened)
  {
    var s1 := Act(k, cls, s, close);
    CloseSettles(k, cls, s, close, [DistributorReceives(cb)] + actions);
    ClosesLast(k, cls, s, close);
    WillOpen(s.client, s1.client, s.toClient);
  }

  /** A close read while the client is to be Opened: once it has read the rest, it is Opened for good
      without a registration. */
  lemma CrossedForGood(k: Key, cls: Class, s: System, cb: OpenCallback, actions: seq<Action>)
    requires s.toDistributor == [StateAction(Closed)] && Will(s) == Opened && LeftAlone(k, actions)
    ensures var s' := RunActions(k, cls, s, [DistributorReceives(cb)] + actions);
            Quiescent(s') ==> s'.client.state == Opened && s'.registration.None?
  {
    LastRead(k, cls, s, cb);
    RunFirst(k, cls, s, DistributorReceives(cb), actions);
    HeardStays(k, cls, Act(k, cls, s, DistributorReceives(cb)), Opened, actions);
    var s' := RunActions(k, cls, s, [DistributorReceives(cb)] + actions);
    assert Absorb(s'.client, []) == s'.client;
  }

  function Reading(n: nat): seq<Action> {
    seq(n, _ => ClientReceives)
  }

  lemma {:induction false} ReadsAll(k: Key, cls: Class, s: System, n: nat)
    requires |s.toClient| == n
    ensures var s' := RunActions(k, cls, s, Reading(n));
            s'.toClient == [] && s'.toDistributor == s.toDistributor && s'.lost == s.lost
    decreases n
  {
    if n > 0 {
      assert Reading(n)[0] == ClientReceives && Reading(n)[1..] == Reading(n - 1);
      ReadsAll(k, cls, Act(k, cls, s, ClientReceives), n - 1);
    }
  }

  /** So both channels may be empty, and the two sides disagree. */
  lemma CrossedReads(k: Key, cls: Class, s: System, cb: OpenCallback)
    requires s.toDistributor == [StateAction(Closed)] && Will(s) == Opened
    ensures var s' := RunActions(k, cls, s, [DistributorReceives(cb)] + Reading(|s.toClient|));
            Quiescent(s') && s'.client.state == Opened && s'.registration.None? && s'.lost == s.lost
  {
    var s1 := Act(k, cls, s, DistributorReceives(cb));
    LastRead(k, cls, s, cb);
    assert s.toClient + [] == s.toClient;
    RunFirst(k, cls, s, DistributorReceives(cb), Reading(|s.toClient|));
    ReadsAll(k, cls, s1, |s.toClient|);
    CrossedForGood(k, cls, s, cb, Reading(|s.toClient|));
  }

  // ---------------------------------------------------------------- with and without the close

  /** `t` is the system had the client not closed. */
  predicate Beside(t: System, s: System) {
    && s.registration == t.registration && s.running == t.running && s.toClient == t.toClient
    && s.toDistributor == t.toDistributor + [StateAction(Closed)]
    && (s.client.state == Opened <==> t.client.state == Opened)
  }

  lemma BesideStep(k: Key, cls: Class, t: System, s: System, crossed: bool, a: Action)
    requires Beside(t, s) && !ByClient(a) && (a.DistributorReceives? ==> t.toDistributor != [])
    ensures Beside(Act(k, cls, t, a), Act(k, cls, s, a))
    ensures CrossedBy(k, cls, t, crossed, a) == CrossedBy(k, cls, s, crossed, a)
  {
    WillOpen(t.client, s.client, t.toClient);
    if a.DistributorReceives? {
      assert s.toDistributor[0] == t.toDistributor[0];
      assert s.toDistributor[1..] == t.toDistributor[1..] + [StateAction(Closed)];
    }
  }

  lemma {:induction false} BesideRuns(k: Key, cls: Class, t: System, s: System, crossed: bool, actions: seq<Action>)
    requires Beside(t, s) && Told(t, crossed) && LeftAlone(k, actions)
    ensures ReadWhileOpened(k, cls, s, actions) <==> CloseFinds(k, cls, s, crossed, actions)
    decreases |actions|
  {
    if actions != [] {
      var a := actions[0];
      if |s.toDistributor| == 1 && a.DistributorReceives? {
        WillOpen(t.client, s.client, t.toClient);
      } else {
        BesideStep(k, cls, t, s, crossed, a);
        StepTold(k, cls, t, crossed, a);
        BesideRuns(k, cls, Act(k, cls, t, a), Act(k, cls, s, a), CrossedBy(k, cls, t, crossed, a), actions[1..]);
      }
    }
  }

  // ---------------------------------------------------------------- how it ends

  predicate Legal(r: Response) {
    r.StateResponse? ==> r.state == Opened || r.state == Done || Ended(r.state)
  }

  ghost predicate AllLegal(responses: seq<Response>) {
    forall i :: 0 <= i < |responses| ==> Legal(responses[i])
  }

  lemma {:induction false} OffersLegal(f: Filter, available: seq<int>, accept: Predicate)
    ensures AllLegal(Offered(f, available, accept))
    decreases |available|
  {
    if available != [] {
      OffersLegal(f, available[1..], accept);
    }
  }

  lemma SentLegal(k: Key, r: Option<Filter>, running: bool, e: Event)
    ensures AllLegal(KeyStep(k, r, running, e).sent)
  {
    if e.Collect? {
      var f := if e.request.FilterObject? && r.Some? then r.value.(objects := r.value.objects + [e.request.content])
               else Filter(e.cls, if e.request.FilterHeader? then e.request.base else FilterBase(UndefinedType, 0, 0), []);
      OffersLegal(f, e.callback.available, e.callback.accept);
    }
  }

  lemma {:induction false} RunLegal(k: Key, cls: Class, s: System, actions: seq<Action>)
    requires AllLegal(s.toClient)
    ensures AllLegal(RunActions(k, cls, s, actions).toClient)
    decreases |actions|
  {
    if actions != [] {
      var a := actions[0];
      if a.Distributes? {
        SentLegal(k, s.registration, s.running, a.event);
      } else if a.DistributorReceives? && s.toDistributor != [] {
        SentLegal(k, s.registration, s.running, RequestEvent(k, cls, s.toDistributor[0], a.callback));
      }
      RunLegal(k, cls, Act(k, cls, s, a), actions[1..]);
    }
  }

  /** A client that has closed is Opened again, or has ended. */
  lemma {:induction false} EndsOrOpened(k: Key, cls: Class, s: System, actions: seq<Action>)
    requires AllLegal(s.toClient) && (s.client.state == Opened || Ended(s.client.state)) && LeftAlone(k, actions)
    ensures var state := RunActions(k, cls, s, actions).client.state; state == Opened || Ended(state)
    decreases |actions|
  {
    if actions != [] {
      var a := actions[0];
      assert RunActions(k, cls, Act(k, cls, s, a), []) == Act(k, cls, s, a);
      RunLegal(k, cls, s, [a]);
      assert [a][1..] == [];
      assert RunActions(k, cls, s, [a]) == Act(k, cls, s, a);
      EndsOrOpened(k, cls, Act(k, cls, s, a), actions[1..]);
    }
  }

  /** A close while Pending, or a filter set then, in any run, whatever is unread on either side and
      whatever goes on until both channels are empty: the registration is gone, and the client has
      ended, unless the close found the stream open or one that an earlier close had crossed. In
      that case, and in no other, it is left Opened. */
  lemma PendingClose(k: Key, cls: Class, connection: int, past: seq<Action>, close: Action, actions: seq<Action>)
    requires AllApart(k, past) && LeftAlone(k, actions) && IsClose(close)
    requires RunActions(k, cls, Initial(cls, connection), past).client.state == Pending
    ensures var s0 := Initial(cls, connection);
            var s1 := Act(k, cls, RunActions(k, cls, s0, past), close);
            var s' := RunActions(k, cls, s1, actions);
            Quiescent(s') ==>
              && s'.registration.None?
              && (s'.client.state == Opened <==> CloseFinds(k, cls, s1, Crossed(k, cls, s0, false, past), actions))
              && (s'.client.state != Opened ==> Ended(s'.client.state))
  {
    var s0 := Initial(cls, connection);
    var s := RunActions(k, cls, s0, past);
    var s1 := Act(k, cls, s, close);
    assert Absorb(s0.client, []) == s0.client;
    RunTold(k, cls, s0, false, past);
    ClosesLast(k, cls, s, close);
    CloseSettles(k, cls, s, close, actions);
    BesideRuns(k, cls, s, s1, Crossed(k, cls, s0, false, past), actions);
    RunLegal(k, cls, s0, past);
    EndsOrOpened(k, cls, s1, actions);
  }

  // ---------------------------------------------------------------- after a history without crossing

  /** The close, which is the last message of the client, finds the stream open. */
  predicate CloseFindsOpen(k: Key, cls: Class, s: System, actions: seq<Action>)
    decreases |actions|
  {
    actions != []
    && if s.toDistributor == [StateAction(Closed)] && actions[0].DistributorReceives? then IsOpened(s.registration)
       else CloseFindsOpen(k, cls, Act(k, cls, s, actions[0]), actions[1..])
  }

  /** The close is the only one on its way. */
  predicate OneClose(s: System) {
    EndsWithClose(s) && StateAction(Closed) !in s.toDistributor[..|s.toDistributor| - 1]
  }

  /** If no earlier close is on its way or has crossed, it only matters whether the close finds the
      stream open. */
  lemma {:induction false} FindsOpen(k: Key, cls: Class, s: System, actions: seq<Action>)
    requires OneClose(s) && LeftAlone(k, actions)
    ensures CloseFinds(k, cls, s, false, actions) <==> CloseFindsOpen(k, cls, s, actions)
    decreases |actions|
  {
    if actions != [] {
      var a := actions[0];
      if |s.toDistributor| == 1 && a.DistributorReceives? {
        assert s.toDistributor == [StateAction(Closed)];
      } else {
        var s' := Act(k, cls, s, a);
        if a.DistributorReceives? {
          assert s.toDistributor[0] in s.toDistributor[..|s.toDistributor| - 1];
          assert s'.toDistributor[..|s'.toDistributor| - 1] == s.toDistributor[..|s.toDistributor| - 1][1..];
        }
        FindsOpen(k, cls, s', actions[1..]);
      }
    }
  }

  /** A client that has opened again behind a close, with nothing but Done and objects to read. */
  ghost predicate ClosesAgain(f: Filter, s: System) {
    && s.toDistributor == [StateAction(Closed)] + (Requests(f) + [StateAction(Closed)])
    && s.registration.None? && Quiet(s.toClient) && s.client.state == Closed
  }

  lemma RequestsOpen(f: Filter)
    ensures StateAction(Closed) !in Requests(f)
  {
  }

  lemma FirstCloseRead(k: Key, cls: Class, f: Filter, s: System, crossed: bool, cb: OpenCallback)
    requires ClosesAgain(f, s)
    ensures OneClose(Act(k, cls, s, DistributorReceives(cb)))
    ensures !CrossedBy(k, cls, s, crossed, DistributorReceives(cb))
  {
    var rest := Requests(f) + [StateAction(Closed)];
    assert s.toDistributor[1..] == rest && rest[..|rest| - 1] == Requests(f);
    RequestsOpen(f);
    AbsorbQuiet(s.client, s.toClient);
  }

  lemma {:induction false} AgainFindsOpen(k: Key, cls: Class, f: Filter, s: System, crossed: bool, actions: seq<Action>)
    requires ClosesAgain(f, s) && LeftAlone(k, actions)
    ensures CloseFinds(k, cls, s, crossed, actions) <==> CloseFindsOpen(k, cls, s, actions)
    decreases |actions|
  {
    assert |s.toDistributor| > 1;
    if actions != [] {
      var a := actions[0];
      var s' := Act(k, cls, s, a);
      if a.DistributorReceives? {
        FirstCloseRead(k, cls, f, s, crossed, a.callback);
        FindsOpen(k, cls, s', actions[1..]);
      } else {
        if a.Distributes? {
          Bystander(k, s.registration, s.running, a.event);
          assert s.toClient + [] == s.toClient;
        }
        AgainFindsOpen(k, cls, f, s', crossed, actions[1..]);
      }
    }
  }

  /** A patient client's close while Pending finds nothing of an earlier one. */
  lemma PatientFindsOpen(k: Key, cls: Class, s: System, crossed: bool, close: Action, actions: seq<Action>)
    requires Inv(cls, s) && Told(s, crossed) && s.client.state == Pending && IsClose(close) && LeftAlone(k, actions)
    ensures var s1 := Act(k, cls, s, close);
            CloseFinds(k, cls, s1, crossed, actions) <==> CloseFindsOpen(k, cls, s1, actions)
  {
    var s1 := Act(k, cls, s, close);
    ClosesLast(k, cls, s, close);
    var f := s.client.filter;
    RequestsOpen(f);
    if Reopening(s) {
      assert s1.toDistributor == [StateAction(Closed)] + (Requests(f) + [StateAction(Closed)]);
      AgainFindsOpen(k, cls, f, s1, crossed, actions);
    } else {
      if s.toDistributor != [] {
        var n :| Opening(s, n);
        AbsorbQuiet(s.client, s.toClient);
      }
      assert s1.toDistributor[..|s1.toDistributor| - 1] == s.toDistributor;
      FindsOpen(k, cls, s1, actions);
    }
  }

  lemma {:induction false} PatientApart(k: Key, cls: Class, s: System, actions: seq<Action>)
    requires PatientRun(k, cls, s, actions)
    ensures AllApart(k, actions)
    decreases |actions|
  {
    if actions != [] {
      PatientApart(k, cls, Act(k, cls, s, actions[0]), actions[1..]);
    }
  }

  /** For a client that was patient before, it only matters whether the close found the stream open. */
  lemma PatientPendingClose(k: Key, cls: Class, connection: int, past: seq<Action>, close: Action, actions: seq<Action>)
    requires PatientRun(k, cls, Initial(cls, connection), past) && LeftAlone(k, actions) && IsClose(close)
    requires RunActions(k, cls, Initial(cls, connection), past).client.state == Pending
    ensures var s1 := Act(k, cls, RunActions(k, cls, Initial(cls, connection), past), close);
            var s' := RunActions(k, cls, s1, actions);
            Quiescent(s') ==> (s'.client.state == Opened <==> CloseFindsOpen(k, cls, s1, actions))
  {
    var s0 := Initial(cls, connection);
    var s := RunActions(k, cls, s0, past);
    PatientApart(k, cls, s0, past);
    assert Absorb(s0.client, []) == s0.client;
    RunTold(k, cls, s0, false, past);
    RunKeepsInv(k, cls, s0, past);
    PendingClose(k, cls, connection, past, close, actions);
    PatientFindsOpen(k, cls, s, Crossed(k, cls, s0, false, past), close, actions);
  }
}
