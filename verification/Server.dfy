/** The connection books of a server, and what one entry more or less does to them. */
module ConnectionBooks {
  import opened Lists

  type Id = int
  type Socket = int
  type Ip = string

  datatype Info = Info(connection: Socket, ip: Ip, port: int, needReconnection: bool)

  /** Accepted connections and the sockets with a known address are the same; `owner` says whose a
      socket is. */
  ghost predicate Owned(accepted: map<Id, Socket>, ips: map<Socket, Ip>, owner: map<Socket, Id>) {
    && (forall s :: s in ips <==> s in owner)
    && (forall s :: s in owner ==> owner[s] in accepted && accepted[owner[s]] == s)
    && (forall id :: id in accepted ==> accepted[id] in owner && owner[accepted[id]] == id)
  }

  /** The lists of the addresses partition the accepted connections, none beyond the limit. */
  ghost predicate Partition(accepted: map<Id, Socket>, ips: map<Socket, Ip>, lists: map<Ip, seq<Id>>, limit: nat) {
    && (forall ip :: ip in lists ==> Distinct(lists[ip]) && |lists[ip]| <= limit)
    && (forall ip, id :: ip in lists && id in lists[ip] ==>
          id in accepted && accepted[id] in ips && ips[accepted[id]] == ip)
    && (forall id :: id in accepted ==>
          accepted[id] in ips && ips[accepted[id]] in lists && id in lists[ips[accepted[id]]])
  }

  /** Outgoing connections have their own ids and sockets. */
  ghost predicate Apart(accepted: map<Id, Socket>, ips: map<Socket, Ip>, infos: map<Id, Info>) {
    && (forall id :: id in infos ==> id !in accepted && infos[id].connection !in ips)
    && (forall a, b :: a in infos && b in infos && a != b ==> infos[a].connection != infos[b].connection)
  }

  /** The books agree, and no connection is lost: each counts once. */
  ghost predicate Books(accepted: map<Id, Socket>, ips: map<Socket, Ip>, owner: map<Socket, Id>, lists: map<Ip, seq<Id>>,
                        limit: nat, infos: map<Id, Info>, counter: int) {
    && Owned(accepted, ips, owner)
    && Partition(accepted, ips, lists, limit)
    && Apart(accepted, ips, infos)
    && counter == |accepted| + |infos|
  }

  ghost predicate Unused(s: Socket, ips: map<Socket, Ip>, infos: map<Id, Info>) {
    s !in ips && forall id :: id in infos ==> infos[id].connection != s
  }

  lemma EnteredApart(accepted: map<Id, Socket>, ips: map<Socket, Ip>, infos: map<Id, Info>, id: Id, info: Info)
    requires Apart(accepted, ips, infos) && id !in infos && Unused(info.connection, ips, infos)
    ensures Apart(accepted, ips, infos[id := info]) <==> id !in accepted
  {
    if id in accepted {
      assert id in infos[id := info];
    } else {
      StillApart(accepted, ips, infos, id, info);
    }
  }

  lemma StillApart(accepted: map<Id, Socket>, ips: map<Socket, Ip>, infos: map<Id, Info>, id: Id, info: Info)
    requires Apart(accepted, ips, infos) && id !in accepted && id !in infos && Unused(info.connection, ips, infos)
    ensures Apart(accepted, ips, infos[id := info])
  {
  }

  /** A new outgoing connection keeps the books in agreement exactly if no accepted one has its id. */
  lemma Entered(accepted: map<Id, Socket>, ips: map<Socket, Ip>, owner: map<Socket, Id>, lists: map<Ip, seq<Id>>,
                limit: nat, infos: map<Id, Info>, counter: int, id: Id, info: Info)
    requires Books(accepted, ips, owner, lists, limit, infos, counter)
    requires id !in infos && Unused(info.connection, ips, infos)
    ensures Books(accepted, ips, owner, lists, limit, infos[id := info], counter + 1) <==> id !in accepted
  {
    EnteredApart(accepted, ips, infos, id, info);
    CountAdd(infos, id, info);
  }

  lemma OwnerIsAccepted(accepted: map<Id, Socket>, ips: map<Socket, Ip>, owner: map<Socket, Id>, s: Socket)
    requires Owned(accepted, ips, owner) && s in owner
    ensures owner[s] in accepted
  {
  }

  /** An accepted connection that loses its id leaves a socket that nobody owns. */
  lemma Lost(accepted: map<Id, Socket>, ips: map<Socket, Ip>, owner: map<Socket, Id>, lists: map<Ip, seq<Id>>,
             limit: nat, infos: map<Id, Info>, counter: int, id: Id)
    requires Books(accepted, ips, owner, lists, limit, infos, counter)
    ensures Books(accepted - {id}, ips, owner, lists, limit, infos, counter) <==> id !in accepted
  {
    if id in accepted {
      var s := accepted[id];
      assert s in owner && owner[s] == id;
      if Owned(accepted - {id}, ips, owner) {
        OwnerIsAccepted(accepted - {id}, ips, owner, s);
      }
    } else {
      assert accepted - {id} == accepted;
    }
  }

  lemma AcceptApart(accepted: map<Id, Socket>, ips: map<Socket, Ip>, infos: map<Id, Info>, id: Id, s: Socket, ip: Ip)
    requires Apart(accepted, ips, infos) && id !in accepted && id !in infos && Unused(s, ips, infos)
    ensures Apart(accepted[id := s], ips[s := ip], infos) && |accepted[id := s]| == |accepted| + 1
  {
    CountAdd(accepted, id, s);
  }

  lemma TakenBack(accepted: map<Id, Socket>, ips: map<Socket, Ip>, id: Id, s: Socket, ip: Ip)
    requires id !in accepted && s !in ips
    ensures accepted[id := s] - {id} == accepted && ips[s := ip] - {s} == ips
  {
  }

  function Others(lists: map<Ip, seq<Id>>, ip: Ip): seq<Id> {
    if ip in lists then lists[ip] else []
  }

  lemma Accept(accepted: map<Id, Socket>, ips: map<Socket, Ip>, owner: map<Socket, Id>, lists: map<Ip, seq<Id>>,
               limit: nat, id: Id, s: Socket, ip: Ip)
    requires Owned(accepted, ips, owner) && Partition(accepted, ips, lists, limit)
    requires id !in accepted && s !in ips && |Others(lists, ip)| < limit
    ensures Owned(accepted[id := s], ips[s := ip], owner[s := id])
    ensures Partition(accepted[id := s], ips[s := ip], lists[ip := Others(lists, ip) + [id]], limit)
  {
    var lists' := lists[ip := Others(lists, ip) + [id]];
    assert id !in Others(lists, ip);
    assert id in lists'[ip];
    forall i | 0 <= i < |Others(lists, ip)|
      ensures Others(lists, ip)[i] != id
    {
      assert Others(lists, ip)[i] in Others(lists, ip);
    }
  }

  lemma Remove(accepted: map<Id, Socket>, ips: map<Socket, Ip>, owner: map<Socket, Id>, lists: map<Ip, seq<Id>>,
               limit: nat, id: Id)
    requires Owned(accepted, ips, owner) && Partition(accepted, ips, lists, limit) && id in accepted
    ensures var s := accepted[id];
            && s in ips && ips[s] in lists
            && Owned(accepted - {id}, ips - {s}, owner - {s})
            && Partition(accepted - {id}, ips - {s}, lists[ips[s] := Erased(lists[ips[s]], id)], limit)
  {
    var s := accepted[id];
    var ip := ips[s];
    ErasedElements(lists[ip], id);
  }

  lemma AcceptBooks(accepted: map<Id, Socket>, ips: map<Socket, Ip>, owner: map<Socket, Id>, lists: map<Ip, seq<Id>>,
                    limit: nat, infos: map<Id, Info>, counter: int, id: Id, s: Socket, ip: Ip)
    requires Books(accepted, ips, owner, lists, limit, infos, counter)
    requires id !in accepted && id !in infos && Unused(s, ips, infos) && |Others(lists, ip)| < limit
    ensures Books(accepted[id := s], ips[s := ip], owner[s := id], lists[ip := Others(lists, ip) + [id]],
                  limit, infos, counter + 1)
  {
    Accept(accepted, ips, owner, lists, limit, id, s, ip);
    AcceptApart(accepted, ips, infos, id, s, ip);
  }

  /** What one entry more or less does to a count. */
  lemma CountAdd<V>(m: map<Id, V>, id: Id, v: V)
    requires id !in m
    ensures |m[id := v]| == |m| + 1
  {
    assert m[id := v].Keys == m.Keys + {id};
  }

  lemma CountDrop<V>(m: map<Id, V>, id: Id)
    requires id in m
    ensures |m - {id}| == |m| - 1
  {
    assert (m - {id}).Keys == m.Keys - {id};
  }
}

/** The server itself. Sockets are made and broken by the system: what it does is a parameter. */
module ServerModel {
  import opened Options
  import opened Lists
  import opened ConnectionBooks

  datatype State = Initialization | Running | Stopped

  /** What becomes of an attempt to connect: the socket, if a connection comes about before the
      attempts run out, and whether its thread could be created. */
  datatype Attempt = Attempt(socket: Option<Socket>, threadCreated: bool)

  class Server {
    const limit: nat      // connections from one address
    const backlog: nat    // connections at all
    var state: State
    var connectionToId: map<Id, Socket>
    var ipToConnection: map<Socket, Ip>
    var connectionsToIp: map<Ip, seq<Id>>
    var infoToConnection: map<Id, Info>
    var counter: int
    var nextId: int
    ghost var owner: map<Socket, Id>

    /** Conservation of connections, and the books in agreement. */
    ghost predicate Valid()
      reads this
    {
      Books(connectionToId, ipToConnection, owner, connectionsToIp, Bound(), infoToConnection, counter)
    }

    /** The first connection from an address is always admitted. */
    function Bound(): nat {
      if limit == 0 then 1 else limit
    }

    /** No address has more connections than the limit, or one. */
    lemma WithinLimit(ip: Ip)
      requires Valid() && ip in connectionsToIp
      ensures |connectionsToIp[ip]| <= if limit == 0 then 1 else limit
    {
    }

    /** Each accepted connection stands in the list of its address, and is counted once. */
    lemma Listed(id: Id)
      requires Valid() && id in connectionToId
      ensures connectionToId[id] in ipToConnection
      ensures var ip := ipToConnection[connectionToId[id]]; ip in connectionsToIp && id in connectionsToIp[ip]
      ensures id !in infoToConnection && counter == |connectionToId| + |infoToConnection|
    {
    }

    /** A socket that the system may give out. */
    ghost predicate Free(s: Socket)
      reads this
    {
      Unused(s, ipToConnection, infoToConnection)
    }

    constructor (limit: nat, backlog: nat)
      ensures Valid() && connectionToId == map[] && infoToConnection == map[] && counter == 0
      ensures this.limit == limit && this.backlog == backlog && state == Initialization
    {
      this.limit, this.backlog := limit, backlog;
      state := Initialization;
      connectionToId, ipToConnection, connectionsToIp, infoToConnection, owner := map[], map[], map[], map[], map[];
      counter, nextId := 0, 0;
    }

    /** Starts the server, once; `listening` tells whether the listening socket could be set up. If
        it could not, the server is stopped for good. */
    method Start(listening: bool)
      requires Valid()
      modifies this
      ensures Valid()
      ensures old(state) == Initialization ==> state == if listening then Running else Stopped
      ensures old(state) == Initialization && !listening ==> connectionToId == map[] && infoToConnection == map[]
      ensures old(state) != Initialization ==> state == old(state)
      ensures old(state) != Initialization || listening ==>
                && connectionToId == old(connectionToId) && infoToConnection == old(infoToConnection)
                && ipToConnection == old(ipToConnection) && connectionsToIp == old(connectionsToIp)
                && counter == old(counter)
    {
      if state != Initialization {
        return;
      }
      if !listening {
        Stop();
        return;
      }
      state := Running;
    }

    /** The next id that no connection has. */
    method FreshId() returns (id: Id)
      modifies this`nextId
      ensures id !in connectionToId && id !in infoToConnection
      ensures old(nextId) <= id < nextId
    {
      id := nextId;
      nextId := nextId + 1;
      ghost var taken := connectionToId.Keys + infoToConnection.Keys;
      ghost var left := taken;
      while id in connectionToId || id in infoToConnection
        invariant old(nextId) <= id && nextId == id + 1
        invariant left <= taken && forall x :: x in taken && x >= id ==> x in left
        decreases left
      {
        left := left - {id};
        id := nextId;
        nextId := nextId + 1;
      }
    }

    /** Admission by address; an admitted connection is entered in the list of its address. */
    method IsConnectionAllowed(id: Id, ip: Ip) returns (allowed: bool)
      modifies this`connectionsToIp
      ensures allowed <==> |Others(old(connectionsToIp), ip)| < (if limit == 0 then 1 else limit)
      ensures connectionsToIp == if allowed then old(connectionsToIp)[ip := Others(old(connectionsToIp), ip) + [id]]
                                 else old(connectionsToIp)
    {
      if ip !in connectionsToIp || |connectionsToIp[ip]| == 0 {
        assert Others(connectionsToIp, ip) + [id] == [id];
        connectionsToIp := connectionsToIp[ip := [id]];
        return true;
      }
      if |connectionsToIp[ip]| >= limit {
        return false;
      }
      connectionsToIp := connectionsToIp[ip := connectionsToIp[ip] + [id]];
      allowed := true;
    }

    /** Enters a new connection in the books, if its address is allowed another one. */
    method Admit(id: Id, connection: Socket, ip: Ip) returns (allowed: bool)
      requires Valid() && id !in connectionToId && id !in infoToConnection && Free(connection)
      modifies this`connectionToId, this`ipToConnection, this`connectionsToIp, this`counter, this`owner
      ensures Valid() && (allowed <==> |Others(old(connectionsToIp), ip)| < (if limit == 0 then 1 else limit))
      ensures allowed ==> connectionToId == old(connectionToId)[id := connection]
                          && ipToConnection == old(ipToConnection)[connection := ip] && counter == old(counter) + 1
      ensures !allowed ==> connectionToId == old(connectionToId) && ipToConnection == old(ipToConnection)
                           && connectionsToIp == old(connectionsToIp) && counter == old(counter)
    {
      ghost var accepted, ips, lists := connectionToId, ipToConnection, connectionsToIp;
      connectionToId := connectionToId[id := connection];
      ipToConnection := ipToConnection[connection := ip];
      allowed := IsConnectionAllowed(id, ip);
      if !allowed {
        connectionToId := connectionToId - {id};
        ipToConnection := ipToConnection - {connection};
        TakenBack(accepted, ips, id, connection, ip);
        return;
      }
      AcceptBooks(accepted, ips, owner, lists, Bound(), infoToConnection, counter, id, connection, ip);
      owner := owner[connection := id];
      counter := counter + 1;
    }

    /** One turn of the accepting loop with a new socket. If its thread cannot be created the
        connection is closed again. */
    method AcceptStep(connection: Socket, ip: Ip, threadCreated: bool) returns (id: Id, allowed: bool)
      requires Valid() && state == Running && Free(connection)
      modifies this
      ensures Valid() && state == old(state) && infoToConnection == old(infoToConnection)
      ensures id !in old(connectionToId) && id !in old(infoToConnection)
      ensures allowed <==> old(counter) < backlog && |Others(old(connectionsToIp), ip)| < (if limit == 0 then 1 else limit)
      ensures allowed && threadCreated ==>
                connectionToId == old(connectionToId)[id := connection] && counter == old(counter) + 1
                && ipToConnection == old(ipToConnection)[connection := ip]
      ensures !(allowed && threadCreated) ==>
                connectionToId == old(connectionToId) && counter == old(counter) && ipToConnection == old(ipToConnection)
    {
      id := FreshId();
      allowed := false;
      if counter >= backlog {
        return;
      }
      ghost var accepted, ips := connectionToId, ipToConnection;
      allowed := Admit(id, connection, ip);
      if allowed && !threadCreated {
        CloseAccepted(id, connection);
        assert connectionToId == accepted && ipToConnection == ips;
      }
    }

    /** `Close` for an accepted connection: off the books and off the list of its address. */
    method CloseAccepted(id: Id, connection: Socket)
      requires Valid() && id in connectionToId && connectionToId[id] == connection
      modifies this`connectionToId, this`ipToConnection, this`connectionsToIp, this`counter, this`owner
      ensures Valid() && connectionToId == old(connectionToId) - {id} && ipToConnection == old(ipToConnection) - {connection}
      ensures counter == old(counter) - 1
      ensures forall ip :: ip in old(connectionsToIp) && ip != old(ipToConnection[connection]) ==>
                ip in connectionsToIp && connectionsToIp[ip] == old(connectionsToIp[ip])
    {
      Remove(connectionToId, ipToConnection, owner, connectionsToIp, Bound(), id);
      CountDrop(connectionToId, id);
      connectionToId := connectionToId - {id};
      var ip := ipToConnection[connection];
      counter := counter - 1;
      if ip in connectionsToIp {
        connectionsToIp := connectionsToIp[ip := Erased(connectionsToIp[ip], id)];
      }
      ipToConnection := ipToConnection - {connection};
      owner := owner - {connection};
    }

    /** `Close` for an outgoing connection, before any reconnecting; says whether to reconnect. */
    method CloseOutgoing(id: Id) returns (needReconnection: bool)
      requires Valid() && id in infoToConnection
      modifies this`infoToConnection, this`counter
      ensures Valid() && infoToConnection == old(infoToConnection) - {id} && counter == old(counter) - 1
      ensures needReconnection == old(infoToConnection[id].needReconnection)
    {
      needReconnection := infoToConnection[id].needReconnection;
      counter := counter - 1;
      CountDrop(infoToConnection, id);
      infoToConnection := infoToConnection - {id};
    }

    /** Whether a connection comes about that is entered under `id`. */
    predicate Enters(id: Id, attempt: Attempt)
      reads this
    {
      state != Stopped && attempt.socket.Some? && counter < backlog && id !in infoToConnection
    }

    /** Connects to an address. The books stay in agreement exactly unless an accepted connection has
        the id, which nobody looks for; if the thread is not created it even loses it. */
    method OpenConnect(id: Id, ip: Ip, port: int, attempt: Attempt, needReconnection: bool) returns (ok: bool)
      requires Valid()
      requires attempt.socket.Some? ==> Free(attempt.socket.value)
      modifies this`infoToConnection, this`counter, this`connectionToId
      ensures Valid() <==> !(old(Enters(id, attempt)) && id in old(connectionToId))
      ensures ok <==> old(Enters(id, attempt)) && attempt.threadCreated
      ensures ok ==> infoToConnection
                     == old(infoToConnection)[id := Info(attempt.socket.value, ip, port, needReconnection)]
                     && counter == old(counter) + 1
      ensures !ok ==> infoToConnection == old(infoToConnection) && counter == old(counter)
      ensures connectionToId
              == if old(Enters(id, attempt)) && !attempt.threadCreated then old(connectionToId) - {id}
                 else old(connectionToId)
    {
      ok := false;
      if state == Stopped || attempt.socket.None? || counter >= backlog || id in infoToConnection {
        return;
      }
      var info := Info(attempt.socket.value, ip, port, needReconnection);
      ghost var infos := infoToConnection;
      Entered(connectionToId, ipToConnection, owner, connectionsToIp, Bound(), infos, counter, id, info);
      Lost(connectionToId, ipToConnection, owner, connectionsToIp, Bound(), infos, counter, id);
      infoToConnection := infoToConnection[id := info];
      counter := counter + 1;
      if !attempt.threadCreated {
        infoToConnection := infoToConnection[id := info.(needReconnection := false)];
        Abandon(id);
        assert infoToConnection == infos;
        return;
      }
      ok := true;
    }

    /** `Close` for a connection whose thread was not created. */
    method Abandon(id: Id)
      requires id in infoToConnection
      modifies this`infoToConnection, this`counter, this`connectionToId
      ensures infoToConnection == old(infoToConnection) - {id} && counter == old(counter) - 1
      ensures connectionToId == old(connectionToId) - {id}
    {
      connectionToId := connectionToId - {id};
      counter := counter - 1;
      infoToConnection := infoToConnection - {id};
    }

    /** Closes a connection. An outgoing one that asks for it is opened anew, with the same id, unless
        the server has stopped; `attempt` is what comes of that. */
    method Close(id: Id, connection: Socket, attempt: Attempt)
      requires Valid()
      requires connection in ipToConnection ==> id in connectionToId && connectionToId[id] == connection
      requires connection !in ipToConnection ==> id !in connectionToId
      requires attempt.socket.Some? ==> Free(attempt.socket.value)
      modifies this
      ensures Valid() && state == old(state)
      ensures connection in old(ipToConnection) ==>
                connectionToId == old(connectionToId) - {id} && infoToConnection == old(infoToConnection)
      ensures connection !in old(ipToConnection) ==> connectionToId == old(connectionToId) && ipToConnection == old(ipToConnection)
      ensures connection !in old(ipToConnection) && id !in old(infoToConnection) ==> infoToConnection == old(infoToConnection)
      ensures connection !in old(ipToConnection) && id in old(infoToConnection) ==>
                var info := old(infoToConnection[id]);
                infoToConnection ==
                  if info.needReconnection && state != Stopped && attempt.socket.Some? && attempt.threadCreated
                     && old(counter) - 1 < backlog
                  then old(infoToConnection)[id := Info(attempt.socket.value, info.ip, info.port, true)]
                  else old(infoToConnection) - {id}
    {
      if connection in ipToConnection {
        CloseAccepted(id, connection);
        return;
      }
      if id !in infoToConnection {
        return;
      }
      var info := infoToConnection[id];
      var needReconnection := CloseOutgoing(id);
      if needReconnection {
        var back := OpenConnect(id, info.ip, info.port, attempt, true);
        if back {
          Reopened(old(infoToConnection), id, Info(attempt.socket.value, info.ip, info.port, true));
        }
      }
    }

    /** Closes an outgoing connection for good. */
    method CloseConnect(id: Id)
      requires Valid()
      modifies this
      ensures Valid() && state == old(state) && connectionToId == old(connectionToId)
      ensures infoToConnection == old(infoToConnection) - {id}
    {
      if id !in infoToConnection {
        assert infoToConnection - {id} == infoToConnection;
        return;
      }
      ghost var infos := infoToConnection;
      infoToConnection := infoToConnection[id := infoToConnection[id].(needReconnection := false)];
      assert infoToConnection.Keys == infos.Keys;
      Close(id, infoToConnection[id].connection, Attempt(None, false));
      assert infoToConnection == infos - {id};
    }

    /** Stops the server: every connection is closed, nothing is reconnected. */
    method Stop()
      requires Valid()
      modifies this
      ensures Valid() && state == Stopped
      ensures old(state) != Stopped ==>
                && connectionToId == map[] && infoToConnection == map[] && ipToConnection == map[] && counter == 0
                && forall ip :: ip in connectionsToIp ==> connectionsToIp[ip] == []
    {
      if state == Stopped {
        return;
      }
      state := Stopped;
      while connectionToId != map[]
        invariant Valid() && state == Stopped
        decreases |connectionToId|
      {
        var item :| item in connectionToId.Items;
        CountDrop(connectionToId, item.0);
        Close(item.0, item.1, Attempt(None, false));
      }
      while infoToConnection != map[]
        invariant Valid() && state == Stopped && connectionToId == map[]
        decreases |infoToConnection|
      {
        var item :| item in infoToConnection.Items;
        CountDrop(infoToConnection, item.0);
        CloseConnect(item.0);
      }
      NothingLeft(ipToConnection, owner, connectionsToIp, Bound());
    }
  }

  lemma Reopened(infos: map<Id, Info>, id: Id, info: Info)
    ensures (infos - {id})[id := info] == infos[id := info]
  {
  }

  lemma SomeSocket(ips: map<Socket, Ip>) returns (s: Socket)
    requires ips != map[]
    ensures s in ips
  {
    var item :| item in ips.Items;
    s := item.0;
  }

  lemma ListedIsAccepted(accepted: map<Id, Socket>, ips: map<Socket, Ip>, lists: map<Ip, seq<Id>>, limit: nat, ip: Ip, id: Id)
    requires Partition(accepted, ips, lists, limit) && ip in lists && id in lists[ip]
    ensures id in accepted
  {
  }

  lemma NothingLeft(ips: map<Socket, Ip>, owner: map<Socket, Id>, lists: map<Ip, seq<Id>>, limit: nat)
    requires Owned(map[], ips, owner) && Partition(map[], ips, lists, limit)
    ensures ips == map[] && forall ip :: ip in lists ==> lists[ip] == []
  {
    if ips != map[] {
      var s := SomeSocket(ips);
      assert false;
    }
    forall ip | ip in lists
      ensures lists[ip] == []
    {
      if lists[ip] != [] {
        ListedIsAccepted(map[], ips, lists, limit, ip, lists[ip][0]);
        assert false;
      }
    }
  }
}
