/** The object stream protocol as seen by one stream key {stream id, connection}.

    A distributor serves many keys at once, but each of its operations acts on every key
    separately. This module gives that per-key reading: what a registration is, and how one
    event changes it and which messages it makes the distributor send to the key. It knows
    nothing of the three containers of the implementation (see `Distributor.dfy`). */
module StreamProtocol {
  import opened Options

  datatype StreamType = UndefinedType | Snapshot | SnapshotAndLive

  datatype State = Undefined | Pending | Opened | Done | Failed | Closed | Removed

  datatype Issue =
    | UndefinedIssue
    | Empty
    | NotUniqueFilter
    | ReservedFilterObjectWithoutFilter
    | UnknownFilterObjectHash
    | UnknownHash
    | BadVariantAccess
    | ExtraFilterObject

  /** A C++ class that can be a filter or stream object; its number stands for
      `typeid(T).hash_code()`. */
  type Class = nat

  datatype Key = Key(id: int, connection: int)

  /** The part of a filter that travels in its own message. */
  datatype FilterBase = FilterBase(kind: StreamType, size: nat, objectClass: Class)

  /** A filter for objects of class `cls`, holding the filter objects received so far. */
  datatype Filter = Filter(cls: Class, base: FilterBase, objects: seq<int>)

  /** What a client sends to a distributor. */
  datatype Request =
    | FilterHeader(cls: Class, base: FilterBase)
    | FilterObject(cls: Class, content: int)
    | StateAction(state: State)

  /** What a distributor sends to a client. */
  datatype Response =
    | StateResponse(state: State, issue: Issue)
    | Content(objectClass: Class, content: int)

  /** The decision of the distributor's application whether a filter lets an object through. */
  type Predicate = (Filter, int) -> bool

  /** What the application does when a stream opens: it offers these old objects. */
  datatype OpenCallback = OpenCallback(available: seq<int>, accept: Predicate)

  datatype Event =
    | Collect(key: Key, cls: Class, request: Request, callback: OpenCallback)
    | ExternalAction(key: Key, state: State)
    | NewObject(objectClass: Class, content: int, accept: Predicate)
    | Stop
    | SetRunning(running: bool)

  /** A registration is open once it has received as many filter objects as it declared. */
  predicate IsOpen(f: Filter) {
    |f.objects| == f.base.size
  }

  predicate Accepts(f: Filter, content: int, accept: Predicate) {
    f.base.size == 0 || accept(f, content)
  }

  /** The old objects that pass the filter, in order. */
  function Offered(f: Filter, available: seq<int>, accept: Predicate): seq<Response> {
    if available == [] then []
    else
      (if Accepts(f, available[0], accept) then [Content(f.base.objectClass, available[0])] else [])
      + Offered(f, available[1..], accept)
  }

  /** A stream receives new objects of its class while it is open and not of Snapshot type. */
  predicate Subscribed(f: Filter, objectClass: Class) {
    IsOpen(f) && f.base.kind != Snapshot && f.base.objectClass == objectClass
  }

  datatype Outcome = Outcome(registration: Option<Filter>, sent: seq<Response>)

  function OpenStream(f: Filter, cb: OpenCallback): Outcome {
    var opening := [StateResponse(Opened, Empty)] + Offered(f, cb.available, cb.accept) + [StateResponse(Done, Empty)];
    if f.base.kind == Snapshot
    then Outcome(None, opening + [StateResponse(Closed, Empty)])
    else Outcome(Some(f), opening)
  }

  /** A failure is reported only for a registered key, and ends the registration. */
  function Fail(r: Option<Filter>, issue: Issue): Outcome {
    if r.None? then Outcome(None, []) else Outcome(None, [StateResponse(Failed, issue)])
  }

  function Collected(r: Option<Filter>, cls: Class, request: Request, cb: OpenCallback): Outcome {
    match request
    case FilterHeader(c, base) =>
      if c != cls then Fail(r, UnknownHash)
      else if r.Some? then Fail(r, NotUniqueFilter)
      else if base.size == 0 then OpenStream(Filter(cls, base, []), cb)
      else Outcome(Some(Filter(cls, base, [])), [])
    case FilterObject(c, content) =>
      if c != cls then Fail(r, UnknownHash)
      else if r.None? then Fail(r, ReservedFilterObjectWithoutFilter)
      else if r.value.cls != cls then Fail(r, UnknownFilterObjectHash)
      else
        var f := r.value.(objects := r.value.objects + [content]);
        if |f.objects| == f.base.size then OpenStream(f, cb)
        else if |f.objects| > f.base.size then Fail(r, ExtraFilterObject)
        else Outcome(Some(f), [])
    case StateAction(_) => Fail(r, UnknownHash)
  }

  /** One event, seen from key `k` whose registration is `r`. */
  function KeyStep(k: Key, r: Option<Filter>, running: bool, e: Event): Outcome {
    match e
    case Collect(key, cls, request, cb) =>
      if key == k && running then Collected(r, cls, request, cb) else Outcome(r, [])
    case ExternalAction(key, state) =>
      if key == k && state == Closed then Outcome(None, []) else Outcome(r, [])
    case NewObject(objectClass, content, accept) =>
      if r.Some? && Subscribed(r.value, objectClass) && Accepts(r.value, content, accept)
      then Outcome(r, [Content(objectClass, content)])
      else Outcome(r, [])
    case Stop =>
      if r.Some? && IsOpen(r.value) then Fail(r, Empty) else Outcome(r, [])
    case SetRunning(_) => Outcome(r, [])
  }

  function NextRunning(running: bool, e: Event): bool {
    if e.SetRunning? then e.running else running
  }

  /** A message on its way to a client. */
  datatype Packet = Packet(connection: int, id: int, response: Response)

  /** The messages among `packets` that reach key `k`, in order. */
  function ToKey(packets: seq<Packet>, k: Key): seq<Response> {
    if packets == [] then []
    else
      var last := packets[|packets| - 1];
      ToKey(packets[..|packets| - 1], k)
      + (if last.connection == k.connection && last.id == k.id then [last.response] else [])
  }

  function Lookup<V>(m: map<Key, V>, k: Key): Option<V> {
    if k in m then Some(m[k]) else None
  }

  /** Going from the registrations `r` to `r'` while the messages sent grow from `sent` to
      `sent'` is, for every key, what event `e` does to that key. */
  ghost predicate Steps(r: map<Key, Filter>, running: bool, sent: seq<Packet>, e: Event,
                        r': map<Key, Filter>, running': bool, sent': seq<Packet>)
  {
    && running' == NextRunning(running, e)
    && forall k ::
         && Lookup(r', k) == KeyStep(k, Lookup(r, k), running, e).registration
         && ToKey(sent', k) == ToKey(sent, k) + KeyStep(k, Lookup(r, k), running, e).sent
  }
}
