/**
 * The handlers of apps/gateway/src/relay/relay.ts as they run, each up to its next await, over the
 * shared registry and dispatcher. Each is proved to make the transition that module Relay reasons about.
 */
module RelayHandlers {
  import opened Prelude
  import opened Dispatch
  import opened Relay

  class RelayServer {
    const registry: SocketRegistry
    const dispatcher: Dispatcher
    var data: map<SocketId, SocketData>
    var hellos: map<HelloId, Hello>
    var revalidation: Option<seq<Entry>>
    ghost var vouched: set<Entry>

    ghost function Abstract(): RelayState
      reads this, registry, dispatcher
    {
      RelayState(registry.byDevice, data, hellos, revalidation, dispatcher.Abstract(), vouched)
    }

    ghost predicate Valid()
      reads this, dispatcher
    {
      dispatcher.Valid() && dispatcher.sockets == registry
    }

    constructor ()
      ensures Valid() && fresh(registry) && fresh(dispatcher) && Abstract() == INITIAL
    {
      var r := new SocketRegistry();
      var d := new Dispatcher(r);
      registry, dispatcher := r, d;
      data, hellos, revalidation, vouched := map[], map[], None, {};
    }

    method Disconnect(s: SocketId)
      requires s in data
      modifies this`data
      ensures data == old(data)[s := old(data)[s].(helloTimer := false, closing := true)]
    {
      data := data[s := data[s].(helloTimer := false)];
      data := data[s := data[s].(closing := true)];
    }

    method OnOpen(s: SocketId, now: int)
      requires Valid() && s !in data
      modifies this`data
      ensures Valid() && Abstract() == old(Abstract()).Opened(s, now)
    {
      data := data[s := SocketData(None, false, now, true, false)];
    }

    /** The deadline armed at open. */
    method OnHelloDeadline(s: SocketId)
      requires Valid() && s in data && data[s].helloTimer
      modifies this`data
      ensures Valid() && Abstract() == Step(old(Abstract()), HelloDeadline(s))
    {
      if !data[s].authenticated {
        data := data[s := data[s].(closing := true)];
      }
    }

    /** A hello frame: the first on its socket awaits the credential check, a second one is a violation. */
    method OnHello(s: SocketId, h: HelloId, now: int)
      requires Valid() && s in data && h !in hellos
      modifies this`data, this`hellos
      ensures Valid() && Abstract() == old(Abstract()).HelloArrived(s, h, now)
    {
      if !data[s].authenticated {
        hellos := hellos[h := Authenticating(s)];
      } else if data[s].deviceId.Some? {
        data := data[s := data[s].(lastSeenAt := now)];
        Disconnect(s);
      }
    }

    method OnHelloChecked(h: HelloId, outcome: Option<DeviceId>)
      requires Valid() && h in hellos && hellos[h].Authenticating? && hellos[h].socket in data
      modifies this`data, this`hellos
      ensures Valid() && Abstract() == old(Abstract()).HelloChecked(h, outcome)
    {
      var s := hellos[h].socket;
      if outcome.None? {
        hellos := hellos - {h};
        Disconnect(s);
      } else {
        hellos := hellos[h := ClaimingRoute(s, outcome.value)];
      }
    }

    method OnRouteClaimed(h: HelloId, r: ClaimResult, now: int)
      requires Valid() && h in hellos && hellos[h].ClaimingRoute? && hellos[h].socket in data
      modifies this, registry
      ensures Valid() && Abstract() == old(Abstract()).HelloClaimed(h, r, now)
    {
      var s, d := hellos[h].socket, hellos[h].deviceId;
      if !r.Granted? {
        hellos := hellos - {h};
        Disconnect(s);
        return;
      }
      data := data[s := data[s].(helloTimer := false)];
      data := data[s := data[s].(deviceId := Some(d))];
      data := data[s := data[s].(authenticated := true)];
      data := data[s := data[s].(lastSeenAt := now)];
      assert data == old(data)[s := old(data)[s].(deviceId := Some(d), authenticated := true, lastSeenAt := now, helloTimer := false)];
      hide State.Valid;
      var displaced := registry.Set(d, s);
      if displaced.Some? && displaced.value in data {
        data := data[displaced.value := data[displaced.value].(closing := true)];
      }
      hellos := hellos[h := Announcing(s, d)];
      vouched := vouched + {Entry(d, s)};
    }

    method OnPresenceWritten(h: HelloId, written: bool)
      requires Valid() && h in hellos && hellos[h].Announcing? && hellos[h].socket in data
      modifies this, registry
      ensures Valid() && Abstract() == old(Abstract()).HelloAnnounced(h, written)
    {
      var s, d := hellos[h].socket, hellos[h].deviceId;
      hellos := hellos - {h};
      if !written {
        var removed := registry.Remove(d, s);
        data := data[s := data[s].(authenticated := false)];
        Disconnect(s);
      }
    }

    method OnResult(s: SocketId, jobId: JobId, now: int)
      requires Valid() && s in data
      modifies this`data, dispatcher
      ensures Valid() && Abstract() == old(Abstract()).ResultArrived(s, jobId, now)
    {
      if !data[s].authenticated {
        Disconnect(s);
        return;
      }
      if data[s].deviceId.None? {
        return;
      }
      var d := data[s].deviceId.value;
      data := data[s := data[s].(lastSeenAt := now)];
      var accepted := dispatcher.Settle(d, jobId);
    }

    /** A heartbeat, up to the presence refresh. */
    method OnHeartbeat(s: SocketId, now: int)
      requires Valid() && s in data
      modifies this`data
      ensures Valid() && Abstract() == old(Abstract()).HeartbeatArrived(s, now)
    {
      if !data[s].authenticated {
        Disconnect(s);
      } else if data[s].deviceId.Some? {
        data := data[s := data[s].(lastSeenAt := now)];
      }
    }

    method OnRouteLost(s: SocketId)
      requires Valid() && s in data
      modifies this`data
      ensures Valid() && Abstract() == old(Abstract()).RouteLost(s)
    {
      data := data[s := data[s].(authenticated := false)];
      Disconnect(s);
    }

    method OnClose(s: SocketId)
      requires Valid() && s in data
      modifies this`data, registry, dispatcher
      ensures Valid() && Abstract() == old(Abstract()).Closed(s)
    {
      data := data[s := data[s].(helloTimer := false)];
      var d := data[s].deviceId;
      if d.None? {
        return;
      }
      var removed := registry.Remove(d.value, s);
      if !removed {
        return;
      }
      var failed := dispatcher.FailDevice(d.value, DeviceOffline);
    }

    /** `revalidate()`: joins the pass in flight, or starts one on a snapshot of the registry. */
    method Revalidate(snapshot: seq<Entry>)
      requires Valid() && IsSnapshotOf(registry.byDevice, snapshot)
      modifies this`revalidation
      ensures Valid() && Abstract() == old(Abstract()).RevalidationBegun(snapshot)
    {
      if revalidation.Some? || snapshot == [] {
        return;
      }
      revalidation := Some(snapshot);
    }

    /** The device row of the pass's next entry was read. */
    method OnRowRead(row: RowRead)
      requires Valid() && revalidation.Some? && revalidation.value != []
      modifies this`data, this`revalidation, registry, dispatcher
      ensures Valid() && Abstract() == old(Abstract()).RowArrived(row)
    {
      hide State.Valid, State.DeviceFailed;
      var e, rest := revalidation.value[0], revalidation.value[1..];
      revalidation := if rest == [] then None else Some(rest);
      if row.ReadFailed? || !Registered(registry.byDevice, e.deviceId, e.socket) || row.Present? {
        return;
      }
      var removed := registry.Remove(e.deviceId, e.socket);
      var failed := dispatcher.FailDevice(e.deviceId, DeviceRevoked);
      if e.socket in data {
        data := data[e.socket := data[e.socket].(authenticated := false)];
        Disconnect(e.socket);
      }
    }

    /** The periodic sweep over the registered sockets. */
    method SweepSilent(now: int)
      requires Valid()
      modifies this`data
      ensures Valid() && Abstract() == old(Abstract()).Swept(now)
    {
      var deadline := now - HEARTBEAT_TIMEOUT_MS;
      var left := registry.byDevice.Values;
      ghost var before := data;
      while left != {}
        invariant left <= registry.byDevice.Values
        invariant data.Keys == before.Keys
        invariant forall s :: s in data ==>
          (data[s] == if s in registry.byDevice.Values - left && before[s].lastSeenAt <= deadline then before[s].(closing := true) else before[s])
        decreases left
      {
        var s :| s in left;
        left := left - {s};
        if s in data && data[s].lastSeenAt <= deadline {
          data := data[s := data[s].(closing := true)];
        }
      }
      assert data == Abstract().(data := before).Swept(now).data;
    }
  }
}
