/** The in-page WebSocket stand-in of js/setup.js: a hub that maps
    normalised server ids to running local servers, and the local server
    with its start/stop life cycle and its connection-id counter. Sockets
    themselves are not modelled; a connection is its id. */
module Hub {
  import opened Wrappers
  import opened ServerId

  const EmptyIdError: string := "server id is empty"
  const IdInUseError: string := "server id is already in use"
  const AlreadyRunningError: string := "server is already running"
  const NotRunningError: string := "server is not running"

  /** Strictly increasing connection ids. */
  predicate Increasing(ids: seq<nat>)
  {
    forall a, b :: 0 <= a < b < |ids| ==> ids[a] < ids[b]
  }

  /** The ids with `x` taken out. */
  function Without(ids: seq<nat>, x: nat): (r: seq<nat>)
    ensures forall y :: y in r <==> y in ids && y != x
    ensures |r| <= |ids|
  {
    if |ids| == 0 then []
    else if ids[0] == x then Without(ids[1..], x)
    else [ids[0]] + Without(ids[1..], x)
  }

  /** Taking an id out of an increasing list leaves it increasing. */
  lemma {:induction false} WithoutKeepsIncreasing(ids: seq<nat>, x: nat)
    requires Increasing(ids)
    ensures Increasing(Without(ids, x))
  {
    if |ids| > 0 {
      WithoutKeepsIncreasing(ids[1..], x);
      var rest := Without(ids[1..], x);
      forall y | y in rest
        ensures ids[0] < y
      {
        var k :| 0 <= k < |ids[1..]| && ids[1..][k] == y;
        assert ids[k + 1] == y;
      }
      if ids[0] != x {
        var r := [ids[0]] + rest;
        forall a, b | 0 <= a < b < |r|
          ensures r[a] < r[b]
        {
          assert r[b] == rest[b - 1];
          if a > 0 {
            assert r[a] == rest[a - 1];
          } else {
            assert rest[b - 1] in rest;
          }
        }
      }
    }
  }

  class LocalHub {
    var registry: map<string, LocalServer>

    constructor ()
      ensures registry == map[]
    {
      registry := map[];
    }

    /** register(id, server): refused when the normalised id is empty or
        already bound; otherwise the id is bound to the server. The result
        holds the key that the returned unregister function removes. */
    method Register(id: string, server: LocalServer) returns (r: Result<string>)
      modifies this
      ensures Normalize(id) == "" ==> r == Err(EmptyIdError) && registry == old(registry)
      ensures Normalize(id) != "" && Normalize(id) in old(registry) ==>
                r == Err(IdInUseError) && registry == old(registry)
      ensures Normalize(id) != "" && Normalize(id) !in old(registry) ==>
                r == Ok(Normalize(id)) && registry == old(registry)[Normalize(id) := server]
    {
      var key := Normalize(id);
      if key == "" {
        return Err(EmptyIdError);
      }
      if key in registry {
        return Err(IdInUseError);
      }
      registry := registry[key := server];
      return Ok(key);
    }

    /** The unregister function register returns, for `key` and `server`:
        the key is removed only while it is still bound to that server. */
    method Unregister(key: string, server: LocalServer)
      modifies this
      ensures key in old(registry) && old(registry)[key] == server ==> registry == old(registry) - {key}
      ensures !(key in old(registry) && old(registry)[key] == server) ==> registry == old(registry)
    {
      if key in registry && registry[key] == server {
        registry := registry - {key};
      }
    }

    /** connect(id): the server bound to the normalised id opens a
        connection, whose id is returned; None when no server is bound or
        the bound server refuses because it is stopped. Only the bound
        server changes; the registry and every other server are left
        alone. */
    method Connect(id: string) returns (conn: Option<nat>)
      requires forall k :: k in registry ==> registry[k].Valid()
      modifies if Normalize(id) in registry then {registry[Normalize(id)]} else {}
      ensures Normalize(id) !in registry ==> conn.None?
      ensures Normalize(id) in registry ==>
                var s := registry[Normalize(id)];
                && s.Valid() && s.registeredKey == old(s.registeredKey)
                && (old(s.registeredKey).None? ==>
                      conn.None? && s.connections == old(s.connections)
                      && s.nextConnectionId == old(s.nextConnectionId))
                && (old(s.registeredKey).Some? ==>
                      conn == Some(old(s.nextConnectionId))
                      && s.connections == old(s.connections) + [old(s.nextConnectionId)]
                      && s.nextConnectionId == old(s.nextConnectionId) + 1)
    {
      var key := Normalize(id);
      if key !in registry {
        return None;
      }
      var server := registry[key];
      var r := server.CreateConnection();
      if r.Err? {
        return None;
      }
      return Some(r.value);
    }
  }

  class LocalServer {
    const id: string
    const hub: LocalHub
    /** The key the pending unregister function removes; None while
        stopped. */
    var registeredKey: Option<string>
    /** Open connections, in the order they were made. */
    var connections: seq<nat>
    var nextConnectionId: nat

    /** Connection ids are issued from a counter starting at 1 and are
        listed in increasing order, all below the counter. */
    ghost predicate Valid()
      reads this
    {
      && nextConnectionId >= 1
      && Increasing(connections)
      && (forall c :: c in connections ==> 1 <= c < nextConnectionId)
    }

    /** isRunning: the server holds an unregister function. */
    predicate IsRunning()
      reads this
    {
      registeredKey.Some?
    }

    constructor (id: string, hub: LocalHub)
      ensures Valid()
      ensures this.id == id && this.hub == hub
      ensures registeredKey == None && connections == [] && nextConnectionId == 1
    {
      this.id := id;
      this.hub := hub;
      registeredKey := None;
      connections := [];
      nextConnectionId := 1;
    }

    /** start: refused while running; otherwise the server registers under
        its id and runs, or the hub's refusal is passed on and it stays
        stopped. `err` is None on success. */
    method Start() returns (err: Option<string>)
      modifies this, hub
      ensures connections == old(connections) && nextConnectionId == old(nextConnectionId)
      ensures old(registeredKey).Some? ==>
                err == Some(AlreadyRunningError) && registeredKey == old(registeredKey)
                && hub.registry == old(hub.registry)
      ensures old(registeredKey).None? && (Normalize(id) == "" || Normalize(id) in old(hub.registry)) ==>
                err.Some? && registeredKey.None? && hub.registry == old(hub.registry)
      ensures old(registeredKey).None? && Normalize(id) != "" && Normalize(id) !in old(hub.registry) ==>
                err.None? && registeredKey == Some(Normalize(id))
                && hub.registry == old(hub.registry)[Normalize(id) := this]
    {
      if registeredKey.Some? {
        return Some(AlreadyRunningError);
      }
      var r := hub.Register(id, this);
      if r.Err? {
        return Some(r.message);
      }
      registeredKey := Some(r.value);
      return None;
    }

    /** stop: nothing to do while stopped; otherwise every connection is
        dropped and the server unregisters. */
    method Stop()
      modifies this, hub
      ensures nextConnectionId == old(nextConnectionId)
      ensures old(registeredKey).None? ==>
                registeredKey == old(registeredKey) && connections == old(connections)
                && hub.registry == old(hub.registry)
      ensures old(registeredKey).Some? ==>
                var key := old(registeredKey).value;
                && registeredKey.None? && connections == []
                && (key in old(hub.registry) && old(hub.registry)[key] == this ==>
                      hub.registry == old(hub.registry) - {key})
                && (!(key in old(hub.registry) && old(hub.registry)[key] == this) ==>
                      hub.registry == old(hub.registry))
    {
      if registeredKey.None? {
        return;
      }
      connections := [];
      var key := registeredKey.value;
      registeredKey := None;
      hub.Unregister(key, this);
    }

    /** createConnection: refused while stopped; otherwise a connection
        with the next id is opened and its id returned. */
    method CreateConnection() returns (r: Result<nat>)
      requires Valid()
      modifies this
      ensures Valid()
      ensures registeredKey == old(registeredKey)
      ensures old(registeredKey).None? ==>
                r == Err(NotRunningError) && connections == old(connections)
                && nextConnectionId == old(nextConnectionId)
      ensures old(registeredKey).Some? ==>
                && r == Ok(old(nextConnectionId))
                && connections == old(connections) + [old(nextConnectionId)]
                && nextConnectionId == old(nextConnectionId) + 1
    {
      if registeredKey.None? {
        return Err(NotRunningError);
      }
      var cid := nextConnectionId;
      NewConnectionIdIsFresh(connections, cid);
      nextConnectionId := nextConnectionId + 1;
      connections := connections + [cid];
      return Ok(cid);
    }

    /** The close listener of a connection: a connection still listed is
        removed from the list. */
    method ConnectionClosed(cid: nat)
      requires Valid()
      modifies this
      ensures Valid()
      ensures connections == Without(old(connections), cid)
      ensures registeredKey == old(registeredKey) && nextConnectionId == old(nextConnectionId)
    {
      WithoutKeepsIncreasing(connections, cid);
      connections := Without(connections, cid);
    }
  }

  /** A new connection id is above every id already issued, so ids never
      repeat while the server lives. */
  lemma NewConnectionIdIsFresh(connections: seq<nat>, next: nat)
    requires Increasing(connections) && forall c :: c in connections ==> c < next
    ensures Increasing(connections + [next])
    ensures next !in connections
  {
    var r := connections + [next];
    forall a, b | 0 <= a < b < |r|
      ensures r[a] < r[b]
    {
      assert r[a] == connections[a];
      if b == |connections| {
        assert connections[a] in connections;
      } else {
        assert r[b] == connections[b];
      }
    }
  }
}
