/** The distributor of object streams with its three containers.

    `streams` and `filters` are keyed by {stream id, connection}; `active` indexes the open
    streams that take new objects by the class of those objects. Multimaps are maps to the
    sequence of their values in insertion order. */
module DistributorContainers {
  import opened StreamProtocol

  datatype StreamData =
    StreamData(connection: int, kind: StreamType, open: bool, objectClass: Class, filterSize: nat)

  type Streams = map<Key, StreamData>
  type Filters = map<Key, seq<Filter>>
  type Index = map<Class, seq<Key>>

  function At<K, V>(m: map<K, seq<V>>, k: K): seq<V> {
    if k in m then m[k] else []
  }

  ghost predicate NoDuplicates<T>(s: seq<T>) {
    forall i, j :: 0 <= i < j < |s| ==> s[i] != s[j]
  }

  /** The stream data of `k` describes the filter `f` registered for `k`. */
  predicate Describes(k: Key, d: StreamData, f: Filter) {
    && d.connection == k.connection
    && d.kind == f.base.kind
    && d.objectClass == f.base.objectClass
    && d.filterSize == f.base.size
  }

  /** Both keyed containers hold the same keys, with one matching filter for each. */
  ghost predicate KeysAgree(streams: Streams, filters: Filters) {
    && streams.Keys == filters.Keys
    && forall k :: k in streams ==> |filters[k]| == 1 && Describes(k, streams[k], filters[k][0])
  }

  predicate Indexed(k: Key, streams: Streams, c: Class) {
    k in streams && streams[k].open && streams[k].kind != Snapshot && streams[k].objectClass == c
  }

  /** The index lists, under its own class and once, each open stream that takes new objects
      apart from those in `except`, and nothing else. */
  ghost predicate IndexAgrees(active: Index, streams: Streams, except: set<Key>) {
    && (forall c :: NoDuplicates(At(active, c)))
    && forall c, k :: k in At(active, c) <==> k !in except && Indexed(k, streams, c)
  }

  /** No more objects than declared have arrived, and the stream is open exactly when all have. */
  predicate Counted(d: StreamData, f: Filter) {
    && |f.objects| <= f.base.size
    && (d.open <==> IsOpen(f))
  }

  ghost predicate CountsAgree(streams: Streams, filters: Filters, except: set<Key>)
    requires KeysAgree(streams, filters)
  {
    forall k :: k in streams && k !in except ==> Counted(streams[k], filters[k][0])
  }

  ghost function Registered(filters: Filters): map<Key, Filter> {
    map k | k in filters && filters[k] != [] :: filters[k][0]
  }

  lemma EraseAt<T>(s: seq<T>, i: nat)
    requires NoDuplicates(s) && i < |s|
    ensures var r := s[..i] + s[i + 1..];
            NoDuplicates(r) && forall x :: x in r <==> x in s && x != s[i]
  {
    var r := s[..i] + s[i + 1..];
    forall x
      ensures x in r <==> x in s && x != s[i]
    {
      if x in s && x != s[i] {
        var j :| 0 <= j < |s| && s[j] == x;
        assert if j < i then r[j] == x else r[j - 1] == x;
      }
    }
  }

  /** Erasing the first match of `k` under its class keeps the index in step with `streams`
        once `k` is forgotten. */
  lemma IndexErase(active: Index, streams: Streams, k: Key, i: nat, active': Index)
    requires IndexAgrees(active, streams, {}) && k in streams
    requires var range := At(active, streams[k].objectClass);
             && i <= |range| && k !in range[..i] && (i < |range| ==> range[i] == k)
             && active' == if i < |range|
                           then active[streams[k].objectClass := range[..i] + range[i + 1..]]
                           else active
    ensures IndexAgrees(active', streams - {k}, {})
  {
    var range := At(active, streams[k].objectClass);
    if i < |range| {
      EraseAt(range, i);
    } else {
      assert range[..i] == range;
    }
    forall c
      ensures NoDuplicates(At(active', c))
      ensures forall x :: x in At(active', c) <==> x in At(active, c) && x != k
    {
      if c != streams[k].objectClass {
        assert k in At(active, c) <==> Indexed(k, streams, c);
      }
    }
    forall c, x
      ensures x in At(active', c) <==> Indexed(x, streams - {k}, c)
    {
      assert x in At(active, c) <==> Indexed(x, streams, c);
    }
  }

  lemma IndexInsert(active: Index, streams: Streams, k: Key, active': Index)
    requires IndexAgrees(active, streams, {k}) && k in streams && streams[k].open
    requires active' == if streams[k].kind == Snapshot then active
                        else active[streams[k].objectClass := At(active, streams[k].objectClass) + [k]]
    ensures IndexAgrees(active', streams, {})
  {
    forall c, x
      ensures x in At(active', c) <==> Indexed(x, streams, c)
    {
      assert x in At(active, c) <==> x != k && Indexed(x, streams, c);
    }
    forall c
      ensures NoDuplicates(At(active', c))
    {
      assert k !in At(active, c);
    }
  }

  /** Marking `k` open and, unless it is of Snapshot type, indexing it makes all three
      containers agree on every key. */
  lemma MarkOpen(streams: Streams, filters: Filters, active: Index, k: Key, streams': Streams, active': Index)
    requires KeysAgree(streams, filters) && IndexAgrees(active, streams, {k}) && CountsAgree(streams, filters, {k})
    requires k in streams && IsOpen(filters[k][0])
    requires streams' == streams[k := streams[k].(open := true)]
    requires active' == if streams[k].kind == Snapshot then active
                        else active[streams[k].objectClass := At(active, streams[k].objectClass) + [k]]
    ensures KeysAgree(streams', filters) && IndexAgrees(active', streams', {}) && CountsAgree(streams', filters, {})
  {
    forall c, x
      ensures x in At(active, c) <==> x != k && Indexed(x, streams', c)
    {
      assert x in At(active, c) <==> x != k && Indexed(x, streams, c);
    }
    IndexInsert(active, streams', k, active');
  }

  /** Registering a new key leaves the index as it was, without that key. */
  lemma Enter(streams: Streams, filters: Filters, active: Index, k: Key, d: StreamData, f: Filter)
    requires KeysAgree(streams, filters) && IndexAgrees(active, streams, {}) && CountsAgree(streams, filters, {})
    requires k !in streams && Describes(k, d, f) && f.objects == [] && (d.open <==> f.base.size == 0)
    ensures KeysAgree(streams[k := d], filters[k := [f]]) && CountsAgree(streams[k := d], filters[k := [f]], {})
    ensures IndexAgrees(active, streams[k := d], {k})
    ensures !d.open ==> IndexAgrees(active, streams[k := d], {})
    ensures Registered(filters[k := [f]]) == Registered(filters)[k := f]
    ensures Registered(filters[k := [f]]) - {k} == Registered(filters) - {k}
  {
    forall c, x
      ensures x in At(active, c) <==> x != k && Indexed(x, streams[k := d], c)
    {
      assert x in At(active, c) <==> Indexed(x, streams, c);
    }
  }

  /** Storing one more filter object keeps the three containers in step, except that `k` now
      holds `f`. */
  lemma Receive(streams: Streams, filters: Filters, active: Index, k: Key, f: Filter)
    requires KeysAgree(streams, filters) && IndexAgrees(active, streams, {}) && CountsAgree(streams, filters, {})
    requires k in streams && f.base == filters[k][0].base
    requires |f.objects| == |filters[k][0].objects| + 1
    ensures var filters' := filters[k := filters[k][0 := f]];
            && KeysAgree(streams, filters') && CountsAgree(streams, filters', {k})
            && (|f.objects| < f.base.size ==> CountsAgree(streams, filters', {}))
            && (|f.objects| == f.base.size ==> IndexAgrees(active, streams, {k}))
            && Registered(filters') == Registered(filters)[k := f]
            && Registered(filters') - {k} == Registered(filters) - {k}
  {
    if |f.objects| == f.base.size {
      forall c, x
        ensures x in At(active, c) <==> x != k && Indexed(x, streams, c)
      {
        assert x in At(active, c) <==> Indexed(x, streams, c);
      }
    }
  }

  function PacketsTo(k: Key, responses: seq<Response>): (packets: seq<Packet>)
    ensures |packets| == |responses|
  {
    seq(|responses|, i requires 0 <= i < |responses| => Packet(k.connection, k.id, responses[i]))
  }

  lemma {:induction false} ToKeyConcat(a: seq<Packet>, b: seq<Packet>, k: Key)
    ensures ToKey(a + b, k) == ToKey(a, k) + ToKey(b, k)
    decreases |b|
  {
    if b == [] {
      assert a + b == a;
    } else {
      ToKeyConcat(a, b[..|b| - 1], k);
      assert (a + b)[..|a + b| - 1] == a + b[..|b| - 1];
    }
  }

  lemma {:induction false} ToKeyPackets(k: Key, responses: seq<Response>, k': Key)
    ensures ToKey(PacketsTo(k, responses), k') == if k == k' then responses else []
    decreases |responses|
  {
    if responses != [] {
      var n := |responses| - 1;
      ToKeyPackets(k, responses[..n], k');
      assert PacketsTo(k, responses)[..n] == PacketsTo(k, responses[..n]);
      assert responses[..n] + [responses[n]] == responses;
    }
  }

  /** Sending `responses` to `k` adds them to what reaches `k` and to nothing else. */
  lemma SentTo(sent: seq<Packet>, k: Key, responses: seq<Response>)
    ensures forall k' ::
              ToKey(sent + PacketsTo(k, responses), k')
              == ToKey(sent, k') + if k == k' then responses else []
  {
    forall k'
      ensures ToKey(sent + PacketsTo(k, responses), k')
              == ToKey(sent, k') + if k == k' then responses else []
    {
      ToKeyConcat(sent, PacketsTo(k, responses), k');
      ToKeyPackets(k, responses, k');
    }
  }

  lemma PacketsToConcat(k: Key, a: seq<Response>, b: seq<Response>)
    ensures PacketsTo(k, a + b) == PacketsTo(k, a) + PacketsTo(k, b)
  {
  }

  /** `at` are the places of the old objects that pass: all of them if the filter is empty, else those
      that the application accepts. They ascend. */
  ghost predicate Passing(f: Filter, available: seq<int>, accept: Predicate, at: seq<nat>) {
    && (forall i, j :: 0 <= i < j < |at| ==> at[i] < at[j])
    && (forall i :: i in at ==> i < |available| && (f.base.size == 0 || accept(f, available[i])))
    && (forall i :: 0 <= i < |available| && (f.base.size == 0 || accept(f, available[i])) ==> i in at)
  }

  /** The places `rest` one further on, behind the first place if that is taken. */
  predicate OneOn(first: bool, rest: seq<nat>, at: seq<nat>) {
    var n := if first then 1 else 0;
    && |at| == n + |rest| && (first ==> at[0] == 0)
    && forall j :: 0 <= j < |rest| ==> at[n + j] == rest[j] + 1
  }

  lemma PassingNext(f: Filter, available: seq<int>, accept: Predicate, first: bool, rest: seq<nat>, at: seq<nat>)
    requires available != [] && Passing(f, available[1..], accept, rest) && OneOn(first, rest, at)
    requires first == (f.base.size == 0 || accept(f, available[0]))
    ensures Passing(f, available, accept, at)
  {
    var n := |at| - |rest|;
    forall i, j | 0 <= i < j < |at|
      ensures at[i] < at[j]
    {
      assert at[j] == rest[j - n] + 1;
      assert i >= n ==> at[i] == rest[i - n] + 1;
    }
    forall i | i in at
      ensures i < |available| && (f.base.size == 0 || accept(f, available[i]))
    {
      var j :| 0 <= j < |at| && at[j] == i;
      if j >= n {
        assert rest[j - n] in rest;
      }
    }
    forall i | 0 <= i < |available| && (f.base.size == 0 || accept(f, available[i]))
      ensures i in at
    {
      if i == 0 {
        assert at[0] == 0;
      } else {
        assert available[1..][i - 1] == available[i];
        var j :| 0 <= j < |rest| && rest[j] == i - 1;
        assert at[n + j] == i;
      }
    }
  }

  /** The objects at these places, as messages. */
  predicate SentAt(f: Filter, available: seq<int>, at: seq<nat>, offered: seq<Response>) {
    && |offered| == |at|
    && forall j :: 0 <= j < |at| ==>
         at[j] < |available| && offered[j] == Content(f.base.objectClass, available[at[j]])
  }

  lemma SentNext(f: Filter, available: seq<int>, first: bool, rest: seq<nat>, offered: seq<Response>) returns (at: seq<nat>)
    requires available != [] && SentAt(f, available[1..], rest, offered)
    ensures OneOn(first, rest, at)
    ensures SentAt(f, available, at, (if first then [Content(f.base.objectClass, available[0])] else []) + offered)
  {
    at := (if first then [0] else []) + seq(|rest|, j requires 0 <= j < |rest| => rest[j] + 1);
  }

  lemma OfferedHead(f: Filter, available: seq<int>, accept: Predicate)
    requires available != []
    ensures Offered(f, available, accept)
            == (if f.base.size == 0 || accept(f, available[0]) then [Content(f.base.objectClass, available[0])] else [])
               + Offered(f, available[1..], accept)
  {
  }

  /** An opening offers the old objects that pass, in order. */
  lemma {:induction false} OfferedInOrder(f: Filter, available: seq<int>, accept: Predicate) returns (at: seq<nat>)
    ensures Passing(f, available, accept, at) && SentAt(f, available, at, Offered(f, available, accept))
    decreases |available|
  {
    at := [];
    if available != [] {
      var rest := OfferedInOrder(f, available[1..], accept);
      var first := f.base.size == 0 || accept(f, available[0]);
      at := SentNext(f, available, first, rest, Offered(f, available[1..], accept));
      PassingNext(f, available, accept, first, rest, at);
      OfferedHead(f, available, accept);
    }
  }

  lemma {:induction false} OfferedLast(f: Filter, objects: seq<int>, last: int, accept: Predicate)
    ensures Offered(f, objects + [last], accept) == Offered(f, objects, accept) + Offered(f, [last], accept)
    decreases |objects|
  {
    if objects != [] {
      OfferedLast(f, objects[1..], last, accept);
      assert (objects + [last])[1..] == objects[1..] + [last];
    }
  }

  /** Only key `k` changes its registration and is sent messages, as `outcome` says. */
  ghost predicate Changes(r: map<Key, Filter>, sent: seq<Packet>, k: Key, outcome: Outcome,
                          r': map<Key, Filter>, sent': seq<Packet>)
  {
    && Lookup(r', k) == outcome.registration
    && r' - {k} == r - {k}
    && sent' == sent + PacketsTo(k, outcome.sent)
  }

  lemma Forget(filters: Filters, k: Key)
    ensures Registered(filters - {k}) == Registered(filters) - {k}
  {
  }

  lemma SameElsewhere(r: map<Key, Filter>, r': map<Key, Filter>, k: Key, k': Key)
    requires r - {k} == r' - {k} && k' != k
    ensures Lookup(r, k') == Lookup(r', k')
  {
    assert k' in r <==> k' in r - {k};
    assert k' in r' <==> k' in r' - {k};
    if k' in r {
      assert (r - {k})[k'] == r[k'];
      assert (r' - {k})[k'] == r'[k'];
    }
  }

  /** An event that concerns key `k` alone is a step of all keys. */
  lemma ChangesSteps(r: map<Key, Filter>, running: bool, sent: seq<Packet>, k: Key, e: Event,
                     r': map<Key, Filter>, sent': seq<Packet>)
    requires (e.Collect? && e.key == k) || (e.ExternalAction? && e.key == k)
    requires Changes(r, sent, k, KeyStep(k, Lookup(r, k), running, e), r', sent')
    ensures Steps(r, running, sent, e, r', running, sent')
  {
    SentTo(sent, k, KeyStep(k, Lookup(r, k), running, e).sent);
    forall k'
      ensures Lookup(r', k') == KeyStep(k', Lookup(r, k'), running, e).registration
      ensures ToKey(sent', k') == ToKey(sent, k') + KeyStep(k', Lookup(r, k'), running, e).sent
    {
      if k' != k {
        SameElsewhere(r, r', k, k');
      }
    }
  }
}

/** The reference reading of the two operations that concern all keys at once. */
module DistributorScans {
  import opened StreamProtocol
  import opened DistributorContainers

  /** `sent'` is `sent` and one copy of `r` for each of `keys` whose filter accepts it. */
  ghost predicate Delivered(sent: seq<Packet>, sent': seq<Packet>, filters: Filters, keys: seq<Key>,
                            r: Response, accept: Predicate)
    requires r.Content?
  {
    forall k ::
      ToKey(sent', k) == ToKey(sent, k)
      + if k in keys && k in filters && filters[k] != [] && Accepts(filters[k][0], r.content, accept)
        then [r] else []
  }

  lemma DeliverNext(sent: seq<Packet>, sent': seq<Packet>, filters: Filters, range: seq<Key>, i: nat,
                    r: Response, accept: Predicate)
    requires r.Content? && i < |range| && NoDuplicates(range)
    requires range[i] in filters && filters[range[i]] != []
    requires Delivered(sent, sent', filters, range[..i], r, accept)
    ensures if Accepts(filters[range[i]][0], r.content, accept)
            then Delivered(sent, sent' + [Packet(range[i].connection, range[i].id, r)], filters, range[..i + 1], r, accept)
            else Delivered(sent, sent', filters, range[..i + 1], r, accept)
  {
    var k := range[i];
    SentTo(sent', k, [r]);
    assert PacketsTo(k, [r]) == [Packet(k.connection, k.id, r)];
    InPrefix(range, i);
    if Accepts(filters[k][0], r.content, accept) {
      forall k'
        ensures ToKey(sent' + [Packet(k.connection, k.id, r)], k') == ToKey(sent, k')
                + if k' in range[..i + 1] && k' in filters && filters[k'] != [] && Accepts(filters[k'][0], r.content, accept)
                  then [r] else []
      {
        if k' == k {
          assert ToKey(sent', k') == ToKey(sent, k') + [];
        }
      }
    }
  }

  lemma InPrefix(range: seq<Key>, i: nat)
    requires i < |range| && NoDuplicates(range)
    ensures range[i] !in range[..i]
    ensures forall k :: k in range[..i + 1] <==> k in range[..i] || k == range[i]
  {
    assert range[..i + 1] == range[..i] + [range[i]];
  }

  /** Delivery to the keys the index lists is delivery to the keys a scan finds subscribed. */
  lemma IndexIsScan(active: Index, streams: Streams, filters: Filters, cls: Class, sent: seq<Packet>,
                    sent': seq<Packet>, content: int, accept: Predicate, running: bool)
    requires KeysAgree(streams, filters) && IndexAgrees(active, streams, {}) && CountsAgree(streams, filters, {})
    requires Delivered(sent, sent', filters, At(active, cls), Content(cls, content), accept)
    ensures Steps(Registered(filters), running, sent, Event.NewObject(cls, content, accept),
                  Registered(filters), running, sent')
  {
    forall k
      ensures ToKey(sent', k) == ToKey(sent, k)
              + KeyStep(k, Lookup(Registered(filters), k), running, Event.NewObject(cls, content, accept)).sent
    {
      assert k in At(active, cls) <==> Indexed(k, streams, cls);
    }
  }

  /** What a new object makes of every key: one copy for each stream that is complete, takes live
      objects of its class, and has an empty filter or one that accepts it; nothing for the others. */
  lemma NewObjectReaches(r: map<Key, Filter>, running: bool, sent: seq<Packet>, cls: Class, content: int,
                         accept: Predicate, sent': seq<Packet>, k: Key)
    requires Steps(r, running, sent, Event.NewObject(cls, content, accept), r, running, sent')
    ensures ToKey(sent', k) == ToKey(sent, k)
            + if k in r && |r[k].objects| == r[k].base.size && r[k].base.kind != Snapshot && r[k].base.objectClass == cls
                 && (r[k].base.size == 0 || accept(r[k], content))
              then [Content(cls, content)] else []
  {
    assert ToKey(sent', k)
        == ToKey(sent, k) + KeyStep(k, Lookup(r, k), running, Event.NewObject(cls, content, accept)).sent;
  }

  ghost predicate Reported(sent: seq<Packet>, sent': seq<Packet>, gone: set<Key>) {
    forall k :: ToKey(sent', k) == ToKey(sent, k) + if k in gone then [StateResponse(Failed, Empty)] else []
  }

  lemma ReportNext(sent: seq<Packet>, sent': seq<Packet>, gone: set<Key>, k: Key)
    requires Reported(sent, sent', gone) && k !in gone
    ensures Reported(sent, sent' + [Packet(k.connection, k.id, StateResponse(Failed, Empty))], gone + {k})
  {
    SentTo(sent', k, [StateResponse(Failed, Empty)]);
    assert PacketsTo(k, [StateResponse(Failed, Empty)]) == [Packet(k.connection, k.id, StateResponse(Failed, Empty))];
  }

  lemma AgreeWithout(streams: Streams, filters: Filters, gone: set<Key>, k: Key)
    requires KeysAgree(streams, filters)
    ensures KeysAgree(streams - gone, filters - gone)
    ensures streams - gone - {k} == streams - (gone + {k})
    ensures filters - gone - {k} == filters - (gone + {k})
  {
  }

  lemma KeyStopped(streams: Streams, filters: Filters, gone: set<Key>, sent: seq<Packet>, sent': seq<Packet>,
                   running: bool, k: Key)
    requires KeysAgree(streams, filters) && CountsAgree(streams, filters, {})
    requires forall k :: k in gone <==> k in streams && streams[k].open
    requires Reported(sent, sent', gone)
    ensures Lookup(Registered(filters - gone), k)
            == KeyStep(k, Lookup(Registered(filters), k), running, Event.Stop).registration
    ensures ToKey(sent', k) == ToKey(sent, k) + KeyStep(k, Lookup(Registered(filters), k), running, Event.Stop).sent
  {
    assert k in gone <==> k in streams && IsOpen(filters[k][0]);
  }

  lemma Stopped(streams: Streams, filters: Filters, gone: set<Key>, sent: seq<Packet>, sent': seq<Packet>, running: bool)
    requires KeysAgree(streams, filters) && CountsAgree(streams, filters, {})
    requires forall k :: k in gone <==> k in streams && streams[k].open
    requires Reported(sent, sent', gone)
    ensures Steps(Registered(filters), running, sent, Event.Stop, Registered(filters - gone), running, sent')
    ensures KeysAgree(streams - gone, filters - gone) && CountsAgree(streams - gone, filters - gone, {})
  {
    forall k
      ensures Lookup(Registered(filters - gone), k)
              == KeyStep(k, Lookup(Registered(filters), k), running, Event.Stop).registration
      ensures ToKey(sent', k) == ToKey(sent, k) + KeyStep(k, Lookup(Registered(filters), k), running, Event.Stop).sent
    {
      KeyStopped(streams, filters, gone, sent, sent', running, k);
    }
  }
}

module DistributorModel {
  import opened DistributorScans
  import opened StreamProtocol
  import opened DistributorContainers

  class Distributor {
    var running: bool
    var streams: Streams
    var filters: Filters
    var active: Index
    var sent: seq<Packet>

    ghost predicate Valid()
      reads this
    {
      && KeysAgree(streams, filters)
      && IndexAgrees(active, streams, {})
      && CountsAgree(streams, filters, {})
    }

    /** The filter registered for each key: the state that the protocol talks about. */
    ghost function Registry(): map<Key, Filter>
      reads this
    {
      Registered(filters)
    }

    constructor (running: bool)
      ensures Valid() && Registry() == map[] && sent == [] && this.running == running
    {
      this.running := running;
      streams, filters, active, sent := map[], map[], map[], [];
    }

    method Send(connection: int, id: int, response: Response)
      modifies this`sent
      ensures sent == old(sent) + [Packet(connection, id, response)]
    {
      sent := sent + [Packet(connection, id, response)];
    }

    method RemoveInformationAboutStream(k: Key)
      requires KeysAgree(streams, filters) && IndexAgrees(active, streams, {})
      modifies this`streams, this`filters, this`active
      ensures IndexAgrees(active, streams, {})
      ensures streams == old(streams) - {k} && filters == old(filters) - {k}
    {
      if k !in streams {
        return;
      }
      var c := streams[k].objectClass;
      var range := At(active, c);
      var current := 0;
      while current < |range| && range[current] != k
        invariant 0 <= current <= |range|
        invariant k !in range[..current]
      {
        current := current + 1;
      }
      if current < |range| {
        active := active[c := range[..current] + range[current + 1..]];
      }
      IndexErase(old(active), streams, k, current, active);
      streams := streams - {k};
      filters := filters - {k};
    }

    method SendFailed(k: Key, issue: Issue)
      requires KeysAgree(streams, filters) && IndexAgrees(active, streams, {})
      requires CountsAgree(streams, filters, {k})
      modifies this`streams, this`filters, this`active, this`sent
      ensures Valid()
      ensures Changes(old(Registry()), old(sent), k, Fail(Lookup(old(Registry()), k), issue), Registry(), sent)
    {
      Forget(filters, k);
      if k !in streams {
        return;
      }
      Send(streams[k].connection, k.id, StateResponse(Failed, issue));
      RemoveInformationAboutStream(k);
    }

    /** Whether one of the filters of `k` is empty or lets the object through. */
    method LetsThrough(k: Key, content: int, accept: Predicate) returns (send: bool)
      ensures send <==> exists i :: 0 <= i < |At(filters, k)|
                                    && (At(filters, k)[i].base.size == 0 || accept(At(filters, k)[i], content))
    {
      send := false;
      var range := At(filters, k);
      var current := 0;
      while current < |range| && !send
        invariant 0 <= current <= |range|
        invariant send <==> exists i :: 0 <= i < current && (range[i].base.size == 0 || accept(range[i], content))
      {
        if Accepts(range[current], content, accept) {
          send := true;
        }
        current := current + 1;
      }
    }

    method SendToStream(k: Key, data: StreamData, content: int, accept: Predicate)
      requires k in filters && |filters[k]| == 1 && Describes(k, data, filters[k][0])
      modifies this`sent
      ensures sent == old(sent) + PacketsTo(k, Offered(filters[k][0], [content], accept))
      ensures sent == old(sent)
                      + if filters[k][0].base.size == 0 || accept(filters[k][0], content)
                        then [Packet(k.connection, k.id, Content(filters[k][0].base.objectClass, content))] else []
    {
      var send := LetsThrough(k, content, accept);
      assert send <==> At(filters, k)[0].base.size == 0 || accept(At(filters, k)[0], content);
      if send {
        Send(data.connection, k.id, Content(data.objectClass, content));
      }
    }

    method SendOldObjects(k: Key, data: StreamData, objects: seq<int>, accept: Predicate)
      requires k in filters && |filters[k]| == 1 && Describes(k, data, filters[k][0])
      modifies this`sent
      ensures sent == old(sent) + PacketsTo(k, Offered(filters[k][0], objects, accept))
    {
      for i := 0 to |objects|
        invariant sent == old(sent) + PacketsTo(k, Offered(filters[k][0], objects[..i], accept))
      {
        OfferedLast(filters[k][0], objects[..i], objects[i], accept);
        assert objects[..i] + [objects[i]] == objects[..i + 1];
        PacketsToConcat(k, Offered(filters[k][0], objects[..i], accept), Offered(filters[k][0], [objects[i]], accept));
        SendToStream(k, data, objects[i], accept);
      }
      assert objects[..|objects|] == objects;
    }

    /** Announces the stream, lets the application offer its old objects, and reports Done. A
        stream of Snapshot type is closed at once; any other one enters the index. */
    method Open(k: Key, cb: OpenCallback)
      requires KeysAgree(streams, filters) && IndexAgrees(active, streams, {k})
      requires CountsAgree(streams, filters, {k})
      requires k in streams && IsOpen(filters[k][0])
      modifies this`streams, this`filters, this`active, this`sent
      ensures Valid()
      ensures Changes(old(Registry()), old(sent), k, OpenStream(old(Registry()[k]), cb), Registry(), sent)
    {
      streams := streams[k := streams[k].(open := true)];
      var data := streams[k];
      var onlySnapshot := data.kind == Snapshot;
      if !onlySnapshot {
        active := active[data.objectClass := At(active, data.objectClass) + [k]];
      }
      MarkOpen(old(streams), filters, old(active), k, streams, active);
      Announce(k, data, cb);
      if onlySnapshot {
        Send(data.connection, k.id, StateResponse(Closed, Empty));
        Forget(filters, k);
        RemoveInformationAboutStream(k);
      }
    }

    /** The messages of an opening up to Done. */
    method Announce(k: Key, data: StreamData, cb: OpenCallback)
      requires k in filters && |filters[k]| == 1 && Describes(k, data, filters[k][0])
      modifies this`sent
      ensures sent == old(sent)
                      + PacketsTo(k, [StateResponse(Opened, Empty)] + Offered(filters[k][0], cb.available, cb.accept)
                                     + [StateResponse(Done, Empty)])
    {
      Send(data.connection, k.id, StateResponse(Opened, Empty));
      SendOldObjects(k, data, cb.available, cb.accept);
      Send(data.connection, k.id, StateResponse(Done, Empty));
    }

    /** The first branch of `Collect`: the filter itself. */
    method CollectFilter(k: Key, cls: Class, base: FilterBase, cb: OpenCallback)
      requires Valid()
      modifies this`streams, this`filters, this`active, this`sent
      ensures Valid()
      ensures Changes(old(Registry()), old(sent), k,
                      Collected(Lookup(old(Registry()), k), cls, FilterHeader(cls, base), cb),
                      Registry(), sent)
    {
      if k in filters {
        SendFailed(k, NotUniqueFilter);
        return;
      }
      var data := StreamData(k.connection, base.kind, base.size == 0, base.objectClass, base.size);
      if k !in streams {
        streams := streams[k := data];
      }
      assert At(filters, k) + [Filter(cls, base, [])] == [Filter(cls, base, [])];
      filters := filters[k := At(filters, k) + [Filter(cls, base, [])]];
      Enter(old(streams), old(filters), active, k, data, Filter(cls, base, []));
      if streams[k].open {
        Open(k, cb);
      }
    }

    /** The second branch of `Collect`: one object of the filter. */
    method CollectFilterObject(k: Key, cls: Class, content: int, cb: OpenCallback)
      requires Valid()
      modifies this`streams, this`filters, this`active, this`sent
      ensures Valid()
      ensures Changes(old(Registry()), old(sent), k,
                      Collected(Lookup(old(Registry()), k), cls, FilterObject(cls, content), cb),
                      Registry(), sent)
    {
      if k !in filters {
        SendFailed(k, ReservedFilterObjectWithoutFilter);
        return;
      }
      // One filter per key: the search among several filters of a key is never entered.
      if |filters[k]| > 1 {
        assert false;
      }
      if filters[k][0].cls != cls {
        SendFailed(k, UnknownFilterObjectHash);
        return;
      }
      var f := filters[k][0].(objects := filters[k][0].objects + [content]);
      filters := filters[k := filters[k][0 := f]];
      Receive(streams, old(filters), active, k, f);
      if f.base.size == |f.objects| {
        Open(k, cb);
      } else if f.base.size < |f.objects| {
        SendFailed(k, ExtraFilterObject);
      }
    }

    method Collect(k: Key, cls: Class, request: Request, cb: OpenCallback)
      requires Valid()
      modifies this`streams, this`filters, this`active, this`sent
      ensures Valid()
      ensures Steps(old(Registry()), old(running), old(sent), Event.Collect(k, cls, request, cb),
                    Registry(), running, sent)
    {
      ghost var e := Event.Collect(k, cls, request, cb);
      if running {
        if request.FilterHeader? && request.cls == cls {
          CollectFilter(k, cls, request.base, cb);
        } else if request.FilterObject? && request.cls == cls {
          CollectFilterObject(k, cls, request.content, cb);
        } else {
          SendFailed(k, UnknownHash);
        }
      }
      ChangesSteps(old(Registry()), running, old(sent), k, e, Registry(), sent);
    }

    method StreamExternalAction(k: Key, state: State)
      requires Valid()
      modifies this`streams, this`filters, this`active
      ensures Valid()
      ensures Steps(old(Registry()), old(running), old(sent), ExternalAction(k, state), Registry(), running, sent)
    {
      if state == Closed && k in streams {
        Forget(filters, k);
        RemoveInformationAboutStream(k);
      }
      ChangesSteps(old(Registry()), running, sent, k, ExternalAction(k, state), Registry(), sent);
    }

    /** Looks the subscribers of `cls` up in the index. What every key then receives, by `Steps`,
        is what a scan of all registrations would send it. */
    method SendNewObject(cls: Class, content: int, accept: Predicate)
      requires Valid()
      modifies this`sent
      ensures Steps(old(Registry()), old(running), old(sent), Event.NewObject(cls, content, accept),
                    Registry(), running, sent)
      ensures forall k :: ToKey(sent, k) == old(ToKey(sent, k))
                + if k in Registry() && |Registry()[k].objects| == Registry()[k].base.size
                     && Registry()[k].base.kind != Snapshot && Registry()[k].base.objectClass == cls
                     && (Registry()[k].base.size == 0 || accept(Registry()[k], content))
                  then [Content(cls, content)] else []
    {
      var range := At(active, cls);
      var current := 0;
      while current < |range|
        invariant 0 <= current <= |range|
        invariant Delivered(old(sent), sent, filters, range[..current], Content(cls, content), accept)
      {
        var k := range[current];
        assert Indexed(k, streams, cls);
        var send := LetsThrough(k, content, accept);
        assert send <==> At(filters, k)[0].base.size == 0 || accept(At(filters, k)[0], content);
        if send {
          if k in streams {
            DeliverNext(old(sent), sent, filters, range, current, Content(cls, content), accept);
            Send(streams[k].connection, k.id, Content(streams[k].objectClass, content));
          }
        } else {
          DeliverNext(old(sent), sent, filters, range, current, Content(cls, content), accept);
        }
        current := current + 1;
      }
      assert range[..current] == range;
      IndexIsScan(active, streams, filters, cls, old(sent), sent, content, accept, running);
      forall k {
        NewObjectReaches(Registry(), running, old(sent), cls, content, accept, sent, k);
      }
    }

    /** Reports Failed to every open stream and forgets it. Streams that still wait for filter
        objects stay registered. The order in which the streams are visited does not matter. */
    method Stop()
      requires Valid()
      modifies this`streams, this`filters, this`active, this`sent
      ensures Valid()
      ensures Steps(old(Registry()), old(running), old(sent), Event.Stop, Registry(), running, sent)
    {
      var copy := streams;
      var rest := copy.Keys;
      ghost var gone: set<Key> := {};
      while rest != {}
        invariant rest <= copy.Keys
        invariant forall k :: k in gone <==> k in copy && k !in rest && copy[k].open
        invariant IndexAgrees(active, streams, {})
        invariant streams == copy - gone && filters == old(filters) - gone
        invariant Reported(old(sent), sent, gone)
      {
        var k :| k in rest;
        if copy[k].open {
          ReportNext(old(sent), sent, gone, k);
          AgreeWithout(copy, old(filters), gone, k);
          Send(copy[k].connection, k.id, StateResponse(Failed, Empty));
          RemoveInformationAboutStream(k);
          gone := gone + {k};
        }
        rest := rest - {k};
      }
      Stopped(copy, old(filters), gone, old(sent), sent, running);
    }

    method SetRunning(value: bool)
      requires Valid()
      modifies this`running
      ensures Valid()
      ensures Steps(old(Registry()), old(running), old(sent), Event.SetRunning(value), Registry(), running, sent)
    {
      running := value;
    }
  }
}
