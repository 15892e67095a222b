/**
 One process's hub as it runs: the map of connections, the bounded queue of each
 connection, and the administrative service that commits to the store before it
 pokes the hub. Each critical section is proved against its step in HubSystem.
 */
module Hub {
  import opened StationTables
  import opened Wrappers
  import HubSystem
  import Outbox
  import StationStore

  const CONFIGURATION_CHANGED := "configuration_changed"

  lemma KeyOf<K, V>(m: map<K, V>, v: V) returns (k: K)
    requires v in m.Values
    ensures k in m && m[k] == v
  {
    k :| k in m && m[k] == v;
  }

  class ControlConnection {
    const id: string
    const stationId: int
    var locationId: int
    var closeRequested: bool
    var send: seq<string>
    var inHand: Option<string>
    ghost var offered: seq<string>
    ghost var written: seq<string>

    constructor (id: string, stationId: int, locationId: int)
      ensures this.id == id && this.stationId == stationId && this.locationId == locationId
      ensures Box() == Outbox.FRESH
    {
      this.id, this.stationId, this.locationId := id, stationId, locationId;
      closeRequested, send, inHand := false, [], None;
      offered, written := [], [];
    }

    ghost function Box(): Outbox.Box
      reads this
    {
      Outbox.Box(offered, written, inHand, send, closeRequested)
    }

    method CloseSocket()
      modifies this`closeRequested
      ensures Box() == Outbox.RequestClose(old(Box()))
    {
      closeRequested := true;
    }

    method Enqueue(message: string)
      modifies this`send, this`offered, this`closeRequested
      ensures Box() == Outbox.Offer(old(Box()), message)
    {
      offered := offered + [message];
      if |send| < Outbox.CONTROL_BUFFER {
        send := send + [message];
      } else {
        CloseSocket();
      }
    }

    /** The message case of the write loop's select; `delivered` is whether the socket write succeeded. */
    method WriteNext(delivered: bool)
      requires inHand == None && send != []
      modifies this`send, this`inHand, this`written
      ensures Box() == if delivered then Outbox.Write(Outbox.Receive(old(Box()))) else Outbox.Receive(old(Box()))
    {
      inHand := Some(send[0]);
      send := send[1..];
      if delivered {
        written := written + [inHand.value];
        inHand := None;
      }
    }
  }

  class Hub {
    var conns: map<int, ControlConnection>
    var closed: bool

    /** Every connection is filed under its own station, and a closed hub has none. */
    ghost predicate Valid()
      reads this
    {
      && (closed ==> conns == map[])
      && forall station :: station in conns ==> conns[station].stationId == station
    }

    lemma Filed()
      requires Valid()
      ensures forall c :: c in conns.Values ==> c.stationId in conns && conns[c.stationId] == c
    {
      forall c | c in conns.Values ensures c.stationId in conns && conns[c.stationId] == c {
        var station := KeyOf(conns, c);
        assert conns[station].stationId == station;
      }
    }

    ghost function View(): HubSystem.HubState
      reads this
    {
      HubSystem.HubState(map station | station in conns :: conns[station].id, closed)
    }

    constructor ()
      ensures Valid() && View() == HubSystem.HubState(map[], false)
    {
      conns, closed := map[], false;
    }

    method Register(connection: ControlConnection) returns (ok: bool)
      requires Valid()
      modifies this`conns, conns.Values`closeRequested
      ensures Valid() && ok == !old(closed)
      ensures ok ==> View() == HubSystem.Install(old(View()), connection.stationId, connection.id)
      ensures ok ==> conns == old(conns)[connection.stationId := connection]
      ensures ok && connection.stationId in old(conns) ==> old(conns)[connection.stationId].closeRequested
      ensures forall c :: c in old(conns).Values && (!ok || c.stationId != connection.stationId) ==>
        c.closeRequested == old(c.closeRequested)
      ensures !ok ==> conns == old(conns)
    {
      if closed {
        return false;
      }
      var known := connection.stationId in conns;
      if known {
        var previous := conns[connection.stationId];
        conns := conns[connection.stationId := connection];
        previous.CloseSocket();
      } else {
        conns := conns[connection.stationId := connection];
      }
      ok := true;
    }

    method Unregister(connection: ControlConnection)
      requires Valid()
      modifies this`conns
      ensures Valid() && closed == old(closed)
      ensures conns == if connection.stationId in old(conns) && old(conns)[connection.stationId] == connection
                       then old(conns) - {connection.stationId} else old(conns)
    {
      if connection.stationId in conns && conns[connection.stationId] == connection {
        conns := conns - {connection.stationId};
      }
    }

    method Disconnect(station: int)
      requires Valid()
      modifies this`conns, conns.Values`closeRequested
      ensures Valid() && View() == HubSystem.Remove(old(View()), station)
      ensures conns == old(conns) - {station}
      ensures forall c :: c in old(conns).Values ==>
        c.closeRequested == (c.stationId == station || old(c.closeRequested))
    {
      Filed();
      if station in conns {
        var connection := conns[station];
        conns := conns - {station};
        connection.CloseSocket();
      }
    }

    method ConfigurationChanged(station: int, locationId: int)
      requires Valid()
      modifies conns.Values
      ensures View() == old(View()) && Valid()
      ensures forall c :: c in conns.Values ==>
        if c.stationId == station
        then c.locationId == locationId && c.Box() == Outbox.Offer(old(c.Box()), CONFIGURATION_CHANGED)
        else c.locationId == old(c.locationId) && c.Box() == old(c.Box())
    {
      Filed();
      if station in conns {
        var connection := conns[station];
        connection.locationId := locationId;
        connection.Enqueue(CONFIGURATION_CHANGED);
      }
    }

    /** The map is visited in any order; each bound connection is offered the message once. */
    method ConfigurationChangedForLocation(locationId: int)
      requires Valid()
      modifies conns.Values
      ensures forall c :: c in conns.Values ==>
        c.Box() == if c.locationId == locationId then Outbox.Offer(old(c.Box()), CONFIGURATION_CHANGED) else old(c.Box())
      ensures forall c :: c in conns.Values ==> c.locationId == old(c.locationId)
    {
      var connections := set c | c in conns.Values && c.locationId == locationId;
      var rest := connections;
      while rest != {}
        invariant rest <= connections
        invariant forall c :: c in conns.Values ==> c.locationId == old(c.locationId)
        invariant forall c :: c in conns.Values ==>
          c.Box() == if c in connections && c !in rest then Outbox.Offer(old(c.Box()), CONFIGURATION_CHANGED)
                     else old(c.Box())
        decreases |rest|
      {
        var connection :| connection in rest;
        connection.Enqueue(CONFIGURATION_CHANGED);
        rest := rest - {connection};
      }
    }

    method Close()
      requires Valid()
      modifies this`conns, this`closed, conns.Values`closeRequested
      ensures Valid() && View() == HubSystem.HubState(map[], true)
      ensures forall c :: c in old(conns).Values ==> c.closeRequested
    {
      if closed {
        return;
      }
      closed := true;
      var connections := conns.Values;
      conns := map[];
      var rest := connections;
      while rest != {}
        invariant rest <= connections
        invariant forall c :: c in connections && c !in rest ==> c.closeRequested
        modifies connections`closeRequested
        decreases |rest|
      {
        var connection :| connection in rest;
        connection.CloseSocket();
        rest := rest - {connection};
      }
    }
  }

  /** Administration: commit to the store, then tell this process's hub. */
  class Service {
    const store: StationStore.Store
    const hub: Hub

    constructor (store: StationStore.Store, hub: Hub)
      ensures this.store == store && this.hub == hub
    {
      this.store, this.hub := store, hub;
    }

    /**
     The hub hears of a commit only when the read-back after it succeeds, and then
     it follows the station as read, which a later transaction may have changed:
     disconnected when disabled there, else told to refresh at the location there.
     */
    method Update(id: int, mutation: Mutation, how: Reading) returns (r: Result<Station, Fault>)
      requires hub.Valid()
      modifies store, hub`conns, hub.conns.Values
      ensures StationStore.Answered(
        StationTables.Update(old(store.Value()), id, mutation), id, how, old(store.Value()), store.Value(), r)
      ensures how == Current && r.Success? ==> r.value.enabled == mutation.enabled && r.value.locationId == mutation.locationId
      ensures hub.Valid() && hub.closed == old(hub.closed)
      ensures hub.conns == if r.Success? && !r.value.enabled then old(hub.conns) - {id} else old(hub.conns)
      ensures forall c :: c in old(hub.conns).Values ==>
        if r.Failure? || c.stationId != id then c.Box() == old(c.Box()) && c.locationId == old(c.locationId)
        else if r.value.enabled then
          c.Box() == Outbox.Offer(old(c.Box()), CONFIGURATION_CHANGED) && c.locationId == r.value.locationId
        else c.Box() == Outbox.RequestClose(old(c.Box())) && c.locationId == old(c.locationId)
    {
      r := store.UpdateStation(id, mutation, how);
      if r.Success? {
        if r.value.enabled {
          hub.ConfigurationChanged(id, r.value.locationId);
        } else {
          hub.Disconnect(id);
        }
      }
    }

    /** The client rows go with the commit; the socket is asked to close only when the read-back succeeds too. */
    method RotateKey(id: int, hash: SecretHash, how: Reading) returns (r: Result<Station, Fault>)
      requires hub.Valid()
      modifies store, hub`conns, hub.conns.Values`closeRequested
      ensures var outcome := StationTables.RotateKey(old(store.Value()), id, hash);
        StationStore.Answered(outcome, id, how, old(store.Value()), store.Value(), r)
        && (outcome.Success? ==> id !in store.sessions && id !in store.rejections)
      ensures hub.Valid() && hub.conns == if r.Success? then old(hub.conns) - {id} else old(hub.conns)
      ensures forall c :: c in old(hub.conns).Values ==>
        c.closeRequested == (old(c.closeRequested) || (r.Success? && c.stationId == id))
    {
      r := store.RotateKey(id, hash, how);
      if r.Success? {
        hub.Disconnect(id);
      }
    }

    method Delete(id: int) returns (r: Result<(), Fault>)
      requires hub.Valid()
      modifies store, hub`conns, hub.conns.Values`closeRequested
      ensures StationStore.Ran(StationTables.Delete(old(store.Value()), id), old(store.Value()), store.Value(), r)
      ensures hub.Valid() && hub.conns == if r.Success? then old(hub.conns) - {id} else old(hub.conns)
      ensures forall c :: c in old(hub.conns).Values ==>
        c.closeRequested == (old(c.closeRequested) || (r.Success? && c.stationId == id))
    {
      r := store.DeleteStation(id);
      if r.Success? {
        hub.Disconnect(id);
      }
    }
  }
}
