/** Agreement of client and distributor in every run, whatever the client does: exactly when it
    fails. */
module StreamCrossing {
  import opened Options
  import opened StreamProtocol
  import opened StreamClient
  import opened StreamAgreement

  predicate IsOpened(r: Option<Filter>) {
    r.Some? && IsOpen(r.value)
  }

  /** The state the client will have once it has read all that is on its way to it. */
  function Will(s: System): State {
    Absorb(s.client, s.toClient).state
  }

  /** A close crosses Opened if it is read while the client is about to become Opened, or is so: what
      the client was told last is then no longer true. Any answer to a later request makes up for
      it. */
  function CrossedBy(k: Key, cls: Class, s: System, crossed: bool, a: Action): bool {
    if !a.DistributorReceives? || s.toDistributor == [] then crossed
    else if s.toDistributor[0] == StateAction(Closed) then Will(s) == Opened
    else
      crossed && KeyStep(k, s.registration, s.running, RequestEvent(k, cls, s.toDistributor[0], a.callback)).sent == []
  }

  function Crossed(k: Key, cls: Class, s: System, crossed: bool, actions: seq<Action>): bool
    decreases |actions|
  {
    if actions == [] then crossed
    else Crossed(k, cls, Act(k, cls, s, actions[0]), CrossedBy(k, cls, s, crossed, actions[0]), actions[1..])
  }

  /** Nothing the distributor does on its own account is addressed to this stream. */
  ghost predicate AllApart(k: Key, actions: seq<Action>) {
    forall i :: 0 <= i < |actions| ==> Apart(k, actions[i])
  }

  predicate ClosePending(s: System) {
    StateAction(Closed) in s.toDistributor
  }

  predicate Counted(r: Option<Filter>) {
    r.Some? ==> |r.value.objects| <= r.value.base.size
  }

  /** While no close is on its way: what the client will be agrees with its registration, unless
      a close has crossed. */
  predicate Told(s: System, crossed: bool) {
    && Counted(s.registration)
    && (!ClosePending(s) ==>
          && (crossed <==> Will(s) == Opened && !IsOpened(s.registration))
          && (IsOpened(s.registration) ==> Will(s) == Opened))
  }

  // ---------------------------------------------------------------- steps

  /** Whether a client becomes Opened depends on no more than whether it is. */
  lemma {:induction false} WillOpen(c: Client, d: Client, responses: seq<Response>)
    requires c.state == Opened <==> d.state == Opened
    ensures Absorb(c, responses).state == Opened <==> Absorb(d, responses).state == Opened
    decreases |responses|
  {
    if responses != [] {
      WillOpen(c, d, responses[..|responses| - 1]);
    }
  }

  lemma ClientTold(k: Key, cls: Class, s: System, crossed: bool, a: Action)
    requires Told(s, crossed) && ByClient(a)
    ensures Told(Act(k, cls, s, a), crossed)
  {
    var s' := Act(k, cls, s, a);
    if !ClosePending(s') {
      assert forall r :: r in s.toDistributor ==> r in s'.toDistributor;
      assert StateAction(Closed) in [StateAction(Closed)];
      WillOpen(s.client, s'.client, s.toClient);
    }
  }

  lemma ReadingTold(k: Key, cls: Class, s: System, crossed: bool)
    requires Told(s, crossed)
    ensures Told(Act(k, cls, s, ClientReceives), crossed)
    ensures Will(Act(k, cls, s, ClientReceives)) == Will(s)
  {
    if s.toClient != [] {
      AbsorbFirst(s.client, s.toClient);
    }
  }

  lemma OthersTold(k: Key, cls: Class, s: System, crossed: bool, e: Event)
    requires Told(s, crossed) && Apart(k, Distributes(e))
    ensures Told(Act(k, cls, s, Distributes(e)), crossed)
  {
    var o := KeyStep(k, s.registration, s.running, e);
    Bystander(k, s.registration, s.running, e);
    if o.sent == [] {
      assert s.toClient + [] == s.toClient;
    } else {
      assert o.sent == [o.sent[0]];
      AbsorbOne(s.client, s.toClient, o.sent[0]);
    }
  }

  /** A request is not answered, refused, or it opens the stream. */
  lemma ThreeAnswers(k: Key, cls: Class, r: Option<Filter>, running: bool, request: Request, cb: OpenCallback)
    returns (f: Filter)
    requires Counted(r) && request != StateAction(Closed)
    ensures var o := KeyStep(k, r, running, RequestEvent(k, cls, request, cb));
            || (o.sent == [] && Counted(o.registration) && (IsOpened(o.registration) <==> IsOpened(r)))
            || (o.registration.None? && exists issue :: o.sent == [StateResponse(Failed, issue)])
            || (IsOpen(f) && o == StreamProtocol.OpenStream(f, cb))
  {
    f := if request.FilterObject? && r.Some? then r.value.(objects := r.value.objects + [request.content])
         else Filter(cls, if request.FilterHeader? then request.base else FilterBase(UndefinedType, 0, 0), []);
  }

  /** An answer tells the client whether it has an open registration. */
  lemma Answer(k: Key, cls: Class, r: Option<Filter>, running: bool, request: Request, cb: OpenCallback, c: Client)
    requires Counted(r) && request != StateAction(Closed)
    ensures var o := KeyStep(k, r, running, RequestEvent(k, cls, request, cb));
            && Counted(o.registration)
            && (o.sent == [] ==> (IsOpened(o.registration) <==> IsOpened(r)))
            && (o.sent != [] ==> (IsOpened(o.registration) <==> Absorb(c, o.sent).state == Opened))
  {
    var f := ThreeAnswers(k, cls, r, running, request, cb);
    var o := KeyStep(k, r, running, RequestEvent(k, cls, request, cb));
    if o.sent != [] {
      if IsOpen(f) && o == StreamProtocol.OpenStream(f, cb) {
        AbsorbOpening(c, f, cb);
      } else {
        assert o.sent == [] + [o.sent[0]];
        AbsorbOne(c, [], o.sent[0]);
      }
    }
  }

  lemma RequestTold(k: Key, cls: Class, s: System, crossed: bool, cb: OpenCallback)
    requires Told(s, crossed) && s.toDistributor != []
    ensures Told(Act(k, cls, s, DistributorReceives(cb)), CrossedBy(k, cls, s, crossed, DistributorReceives(cb)))
  {
    var request, s' := s.toDistributor[0], Act(k, cls, s, DistributorReceives(cb));
    assert s.toDistributor == [request] + s'.toDistributor;
    assert s.toClient + [] == s.toClient;
    if request != StateAction(Closed) {
      var o := KeyStep(k, s.registration, s.running, RequestEvent(k, cls, request, cb));
      Answer(k, cls, s.registration, s.running, request, cb, Absorb(s.client, s.toClient));
      AbsorbConcat(s.client, s.toClient, o.sent);
    }
  }

  lemma StepTold(k: Key, cls: Class, s: System, crossed: bool, a: Action)
    requires Told(s, crossed) && Apart(k, a)
    ensures Told(Act(k, cls, s, a), CrossedBy(k, cls, s, crossed, a))
  {
    if ByClient(a) {
      ClientTold(k, cls, s, crossed, a);
    } else if a.ClientReceives? {
      ReadingTold(k, cls, s, crossed);
    } else if a.Distributes? {
      OthersTold(k, cls, s, crossed, a.event);
    } else if s.toDistributor != [] {
      RequestTold(k, cls, s, crossed, a.callback);
    }
  }

  lemma {:induction false} RunTold(k: Key, cls: Class, s: System, crossed: bool, actions: seq<Action>)
    requires Told(s, crossed) && AllApart(k, actions)
    ensures Told(RunActions(k, cls, s, actions), Crossed(k, cls, s, crossed, actions))
    decreases |actions|
  {
    if actions != [] {
      StepTold(k, cls, s, crossed, actions[0]);
      RunTold(k, cls, Act(k, cls, s, actions[0]), CrossedBy(k, cls, s, crossed, actions[0]), actions[1..]);
    }
  }

  // ---------------------------------------------------------------- agreement

  /** In every run, whatever the client does and whenever: once both channels are empty, client and
      distributor agree exactly if no close has crossed. Otherwise the client is Opened, and the
      distributor holds nothing open for it. */
  lemma AgreementExact(k: Key, cls: Class, connection: int, actions: seq<Action>)
    requires AllApart(k, actions)
    ensures var s0 := Initial(cls, connection);
            var s := RunActions(k, cls, s0, actions);
            Quiescent(s) ==>
              && ((s.client.state == Opened <==> IsOpened(s.registration)) <==> !Crossed(k, cls, s0, false, actions))
              && (IsOpened(s.registration) ==> s.client.state == Opened)
  {
    var s0 := Initial(cls, connection);
    assert Absorb(s0.client, []) == s0.client;
    RunTold(k, cls, s0, false, actions);
    var s := RunActions(k, cls, s0, actions);
    assert Absorb(s.client, []) == s.client;
  }

  /** The client never closes, nor changes its filter, while it is active. */
  ghost predicate NeverCloses(k: Key, cls: Class, s: System, actions: seq<Action>)
    decreases |actions|
  {
    actions != [] ==>
      && (actions[0].ClientClose? || actions[0].ClientSetFilter? ==> !Active(s.client.state))
      && NeverCloses(k, cls, Act(k, cls, s, actions[0]), actions[1..])
  }

  lemma {:induction false} NothingCrosses(k: Key, cls: Class, s: System, actions: seq<Action>)
    requires NeverCloses(k, cls, s, actions) && !ClosePending(s)
    ensures !Crossed(k, cls, s, false, actions)
    decreases |actions|
  {
    if actions != [] {
      var a := actions[0];
      var s' := Act(k, cls, s, a);
      if a.DistributorReceives? && s.toDistributor != [] {
        assert s.toDistributor == [s.toDistributor[0]] + s'.toDistributor;
      }
      NothingCrosses(k, cls, s', actions[1..]);
    }
  }

  /** However early it opens again, a client that never closes agrees with its distributor. */
  lemma OpeningsDoNoHarm(k: Key, cls: Class, connection: int, actions: seq<Action>)
    requires AllApart(k, actions) && NeverCloses(k, cls, Initial(cls, connection), actions)
    ensures var s := RunActions(k, cls, Initial(cls, connection), actions);
            Quiescent(s) ==> (s.client.state == Opened <==> IsOpened(s.registration))
  {
    NothingCrosses(k, cls, Initial(cls, connection), actions);
    AgreementExact(k, cls, connection, actions);
  }
}
