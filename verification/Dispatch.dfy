/**
 * The registry of live sockets (apps/gateway/src/relay/sockets.ts) and the job dispatcher on top of
 * it (apps/gateway/src/relay/dispatch.ts). A promise is a ticket; settling it is recorded.
 */
module Dispatch {
  import opened Prelude

  const MAX_DISPATCH_TIMEOUT_MS := 300_000

  // ids are only ever compared
  type DeviceId = nat
  type JobId = nat
  type SocketId = nat
  type Ticket = nat

  datatype ErrorCode = DeviceOffline | ReplayDetected | Timeout | DeviceRevoked

  /** Resolved carries the result frame: the job it names and the device its socket speaks for. */
  datatype Outcome = Resolved(jobId: JobId, sender: DeviceId) | Rejected(code: ErrorCode)

  // ----- the registry

  class SocketRegistry {
    var byDevice: map<DeviceId, SocketId>

    constructor ()
      ensures byDevice == map[]
    {
      byDevice := map[];
    }

    method Set(deviceId: DeviceId, socket: SocketId) returns (displaced: Option<SocketId>)
      modifies this
      ensures byDevice == old(byDevice)[deviceId := socket]
      ensures displaced == Displaced(old(byDevice), deviceId, socket)
    {
      displaced := if deviceId in byDevice && byDevice[deviceId] != socket then Some(byDevice[deviceId]) else None;
      byDevice := byDevice[deviceId := socket];
    }

    method Remove(deviceId: DeviceId, socket: SocketId) returns (removed: bool)
      modifies this
      ensures removed == Registered(old(byDevice), deviceId, socket)
      ensures byDevice == Unregistered(old(byDevice), deviceId, socket)
    {
      if deviceId !in byDevice || byDevice[deviceId] != socket {
        return false;
      }
      byDevice := byDevice - {deviceId};
      removed := true;
    }
  }

  predicate Registered(m: map<DeviceId, SocketId>, deviceId: DeviceId, socket: SocketId) {
    deviceId in m && m[deviceId] == socket
  }

  function Displaced(m: map<DeviceId, SocketId>, deviceId: DeviceId, socket: SocketId): Option<SocketId> {
    if deviceId in m && m[deviceId] != socket then Some(m[deviceId]) else None
  }

  function Unregistered(m: map<DeviceId, SocketId>, deviceId: DeviceId, socket: SocketId): map<DeviceId, SocketId> {
    if Registered(m, deviceId, socket) then m - {deviceId} else m
  }

  // ----- the dispatcher's state

  datatype Pending = Pending(deviceId: DeviceId, ticket: Ticket)

  datatype Order = Order(deviceId: DeviceId, jobId: JobId)

  /**
   * `timers` are the armed timeouts with the job each would reject; `orders` remembers what every
   * ticket asked for; `settled` holds the outcomes and `callbacks` counts calls to resolve and reject.
   */
  datatype State = State(
    pending: map<JobId, Pending>, timers: map<Ticket, JobId>,
    orders: seq<Order>, settled: map<Ticket, Outcome>, callbacks: nat)
  {
    function Settle(t: Ticket, o: Outcome): State {
      this.(settled := settled[t := o], callbacks := callbacks + 1)
    }

    /** `clear(jobId)`: stop the timer and drop the entry. */
    function Cleared(jobId: JobId): State {
      if jobId in pending then this.(timers := timers - {pending[jobId].ticket}, pending := pending - {jobId}) else this
    }

    /** The entry leaves the table, its timer stops and its promise is settled. */
    function Concluded(jobId: JobId, o: Outcome): State
      requires jobId in pending
    {
      Cleared(jobId).Settle(pending[jobId].ticket, o)
    }

    /** One `dispatch` call for the next ticket; `online` and `sent` are what the socket did. */
    function Dispatched(deviceId: DeviceId, jobId: JobId, online: bool, sent: bool): State {
      var t := |orders|;
      var s := this.(orders := orders + [Order(deviceId, jobId)]);
      if !online then s.Settle(t, Rejected(DeviceOffline))
      else if jobId in pending then s.Settle(t, Rejected(ReplayDetected))
      else
        var armed := s.(timers := timers[t := jobId], pending := pending[jobId := Pending(deviceId, t)]);
        if sent then armed else armed.Cleared(jobId).Settle(t, Rejected(DeviceOffline))
    }

    function TimedOut(t: Ticket): State {
      if t in timers
      then this.(pending := pending - {timers[t]}, timers := timers - {t}).Settle(t, Rejected(Timeout))
      else this
    }

    predicate Answers(deviceId: DeviceId, jobId: JobId) {
      jobId in pending && pending[jobId].deviceId == deviceId
    }

    function ResultFrame(deviceId: DeviceId, jobId: JobId): State {
      if Answers(deviceId, jobId)
      then Concluded(jobId, Resolved(jobId, deviceId))
      else this
    }

    function JobsOf(deviceId: DeviceId): set<JobId> {
      set j | j in pending && pending[j].deviceId == deviceId
    }

    /** The ticket's job waits on the device. */
    predicate WaitsOn(t: Ticket, deviceId: DeviceId) {
      t in timers && timers[t] in pending && pending[timers[t]].deviceId == deviceId
    }

    /** `failDevice`: everything still waiting on the device is rejected, nothing else is touched. */
    function DeviceFailed(deviceId: DeviceId, code: ErrorCode): State {
      State(PendingElsewhere(deviceId), TimersElsewhere(deviceId), orders,
            settled + Rejections(deviceId, code), callbacks + |JobsOf(deviceId)|)
    }

    function PendingElsewhere(deviceId: DeviceId): map<JobId, Pending> {
      map j | j in pending && pending[j].deviceId != deviceId :: pending[j]
    }

    function TimersElsewhere(deviceId: DeviceId): map<Ticket, JobId> {
      map t | t in timers && !WaitsOn(t, deviceId) :: timers[t]
    }

    function Rejections(deviceId: DeviceId, code: ErrorCode): map<Ticket, Outcome> {
      map t | t in timers && WaitsOn(t, deviceId) :: Rejected(code)
    }

    /** An entry and its timer stand or fall together. */
    ghost predicate TimersMatch() {
      && (forall j :: j in pending ==> pending[j].ticket in timers && timers[pending[j].ticket] == j)
      && (forall t :: t in timers ==> timers[t] in pending && pending[timers[t]].ticket == t)
    }

    /** Every ticket is either waiting or settled, never both; nothing else is. */
    ghost predicate Accounted() {
      && (forall t :: t in timers ==> t < |orders| && t !in settled)
      && (forall t :: t in settled ==> t < |orders|)
      && (forall t: nat :: t < |orders| ==> t in timers || t in settled)
    }

    /** resolve and reject were called once per settled ticket. */
    predicate CalledOnce() {
      callbacks == |settled|
    }

    /** What is waiting, and what was resolved, is what its ticket asked for. */
    ghost predicate OrdersKept() {
      && (forall j :: j in pending ==> pending[j].ticket < |orders| && orders[pending[j].ticket] == Order(pending[j].deviceId, j))
      && (forall t :: t in settled && settled[t].Resolved? && t < |orders| ==> orders[t] == Order(settled[t].sender, settled[t].jobId))
    }

    ghost predicate Valid() {
      TimersMatch() && Accounted() && CalledOnce() && OrdersKept()
    }
  }

  const EMPTY := State(map[], map[], [], map[], 0)

  // ----- every operation keeps it

  lemma SettleNew(s: State, t: Ticket, o: Outcome)
    requires s.CalledOnce() && t !in s.settled
    ensures s.Settle(t, o).CalledOnce()
  {
    assert s.settled[t := o].Keys == s.settled.Keys + {t};
  }

  lemma RefusedValid(s: State, o: Order, code: ErrorCode)
    requires s.Valid()
    ensures s.(orders := s.orders + [o]).Settle(|s.orders|, Rejected(code)).Valid()
  {
    var n := s.(orders := s.orders + [o]).Settle(|s.orders|, Rejected(code));
    SettleNew(s, |s.orders|, Rejected(code));
    assert n.TimersMatch();
    hide State.CalledOnce, State.TimersMatch;
  }

  function Armed(s: State, deviceId: DeviceId, jobId: JobId): State {
    var t := |s.orders|;
    State(s.pending[jobId := Pending(deviceId, t)], s.timers[t := jobId], s.orders + [Order(deviceId, jobId)], s.settled, s.callbacks)
  }

  lemma ArmedValid(s: State, deviceId: DeviceId, jobId: JobId)
    requires s.Valid() && jobId !in s.pending
    ensures Armed(s, deviceId, jobId).Valid()
  {
  }

  lemma DispatchedValid(s: State, deviceId: DeviceId, jobId: JobId, online: bool, sent: bool)
    requires s.Valid()
    ensures s.Dispatched(deviceId, jobId, online, sent).Valid()
  {
    hide State.Valid;
    RefusedValid(s, Order(deviceId, jobId), DeviceOffline);
    RefusedValid(s, Order(deviceId, jobId), ReplayDetected);
    if jobId !in s.pending {
      ArmedValid(s, deviceId, jobId);
      ConcludedValid(Armed(s, deviceId, jobId), jobId, Rejected(DeviceOffline));
    }
  }

  lemma ConcludedTimers(s: State, jobId: JobId, o: Outcome)
    requires s.TimersMatch() && jobId in s.pending
    ensures s.Concluded(jobId, o).TimersMatch()
  {
  }

  lemma ConcludedAccounted(s: State, jobId: JobId, o: Outcome)
    requires s.TimersMatch() && s.Accounted() && jobId in s.pending
    ensures s.Concluded(jobId, o).Accounted()
  {
  }

  lemma ConcludedOrders(s: State, jobId: JobId, o: Outcome)
    requires s.OrdersKept() && jobId in s.pending
    requires o.Resolved? ==> o == Resolved(jobId, s.pending[jobId].deviceId)
    ensures s.Concluded(jobId, o).OrdersKept()
  {
  }

  /** However a waiting job ends: result, timeout, failed write or lost device. */
  lemma ConcludedValid(s: State, jobId: JobId, o: Outcome)
    requires s.Valid() && jobId in s.pending
    requires o.Resolved? ==> o == Resolved(jobId, s.pending[jobId].deviceId)
    ensures s.Concluded(jobId, o).Valid()
  {
    ConcludedTimers(s, jobId, o);
    ConcludedAccounted(s, jobId, o);
    ConcludedOrders(s, jobId, o);
    assert s.pending[jobId].ticket !in s.settled;
    hide State.TimersMatch, State.Accounted, State.OrdersKept;
    SettleNew(s.Cleared(jobId), s.pending[jobId].ticket, o);
  }

  lemma TimedOutValid(s: State, t: Ticket)
    requires s.Valid()
    ensures s.TimedOut(t).Valid()
  {
    if t in s.timers {
      ConcludedValid(s, s.timers[t], Rejected(Timeout));
      hide State.Accounted, State.OrdersKept, State.CalledOnce;
    }
  }

  lemma ResultValid(s: State, deviceId: DeviceId, jobId: JobId)
    requires s.Valid()
    ensures s.ResultFrame(deviceId, jobId).Valid()
  {
    hide State.Valid;
    if s.Answers(deviceId, jobId) {
      ConcludedValid(s, jobId, Resolved(jobId, deviceId));
    }
  }

  lemma ConcludedWaits(s: State, jobId: JobId, deviceId: DeviceId, code: ErrorCode, t: Ticket)
    requires s.TimersMatch() && jobId in s.pending
    ensures s.Concluded(jobId, Rejected(code)).WaitsOn(t, deviceId) <==> s.WaitsOn(t, deviceId) && t != s.pending[jobId].ticket
  {
  }

  /** Failing one waiting job and then the rest of the device is failing the device. */
  lemma FailStep(s: State, jobId: JobId, deviceId: DeviceId, code: ErrorCode)
    requires s.TimersMatch() && jobId in s.JobsOf(deviceId)
    ensures s.Concluded(jobId, Rejected(code)).DeviceFailed(deviceId, code) == s.DeviceFailed(deviceId, code)
    ensures s.Concluded(jobId, Rejected(code)).JobsOf(deviceId) == s.JobsOf(deviceId) - {jobId}
  {
    var t := s.pending[jobId].ticket;
    assert s.WaitsOn(t, deviceId);
    forall x ensures s.Concluded(jobId, Rejected(code)).WaitsOn(x, deviceId) <==> s.WaitsOn(x, deviceId) && x != t {
      ConcludedWaits(s, jobId, deviceId, code, x);
    }
    hide State.TimersMatch, State.WaitsOn;
    var r := s.Concluded(jobId, Rejected(code));
    assert r.JobsOf(deviceId) == s.JobsOf(deviceId) - {jobId};
    assert r.PendingElsewhere(deviceId) == s.PendingElsewhere(deviceId);
    assert r.TimersElsewhere(deviceId) == s.TimersElsewhere(deviceId);
    FailRejections(s, jobId, deviceId, code);
  }

  lemma FailRejections(s: State, jobId: JobId, deviceId: DeviceId, code: ErrorCode)
    requires jobId in s.pending && s.pending[jobId].ticket in s.timers && s.WaitsOn(s.pending[jobId].ticket, deviceId)
    requires forall x :: s.Concluded(jobId, Rejected(code)).WaitsOn(x, deviceId) <==> s.WaitsOn(x, deviceId) && x != s.pending[jobId].ticket
    ensures var r := s.Concluded(jobId, Rejected(code));
            r.settled + r.Rejections(deviceId, code) == s.settled + s.Rejections(deviceId, code)
  {
    hide State.WaitsOn;
  }

  /** A result settles the call made to the device that sent it, and no other. */
  lemma ResultAnswersOwn(s: State, deviceId: DeviceId, jobId: JobId, t: Ticket)
    requires s.OrdersKept() && t !in s.settled && t in s.ResultFrame(deviceId, jobId).settled
    ensures t < |s.orders| && s.orders[t] == Order(deviceId, jobId)
  {
  }

  lemma {:induction false} DeviceFailedValid(s: State, deviceId: DeviceId, code: ErrorCode)
    requires s.Valid()
    ensures s.DeviceFailed(deviceId, code).Valid()
    decreases |s.JobsOf(deviceId)|
  {
    if s.JobsOf(deviceId) == {} {
      NothingToFail(s, deviceId, code);
    } else {
      var j :| j in s.JobsOf(deviceId);
      FailStep(s, j, deviceId, code);
      ConcludedValid(s, j, Rejected(code));
      DeviceFailedValid(s.Concluded(j, Rejected(code)), deviceId, code);
    }
  }

  lemma NothingToFail(s: State, deviceId: DeviceId, code: ErrorCode)
    requires s.JobsOf(deviceId) == {}
    ensures s.DeviceFailed(deviceId, code) == s
  {
    assert forall t :: s.WaitsOn(t, deviceId) ==> s.timers[t] in s.JobsOf(deviceId);
    assert forall j :: j in s.pending && s.pending[j].deviceId == deviceId ==> j in s.JobsOf(deviceId);
    assert s.Rejections(deviceId, code) == map[];
    assert s.PendingElsewhere(deviceId) == s.pending;
    assert s.TimersElsewhere(deviceId) == s.timers;
  }

  // ----- the dispatcher

  class Dispatcher {
    const sockets: SocketRegistry
    var pending: map<JobId, Pending>
    ghost var timers: map<Ticket, JobId>
    ghost var orders: seq<Order>
    ghost var settled: map<Ticket, Outcome>
    ghost var callbacks: nat
    var nextTicket: nat

    ghost function Abstract(): State reads this {
      State(pending, timers, orders, settled, callbacks)
    }

    ghost predicate Valid() reads this {
      Abstract().Valid() && nextTicket == |orders|
    }

    constructor (sockets: SocketRegistry)
      ensures Valid() && this.sockets == sockets && Abstract() == EMPTY
    {
      this.sockets := sockets;
      pending, timers, orders, settled, callbacks, nextTicket := map[], map[], [], map[], 0, 0;
    }

    /** The promise's resolve or reject. */
    ghost method Conclude(t: Ticket, o: Outcome)
      modifies this`settled, this`callbacks
      ensures Abstract() == old(Abstract()).Settle(t, o)
    {
      settled := settled[t := o];
      callbacks := callbacks + 1;
    }

    method Clear(jobId: JobId) returns (entry: Option<Pending>)
      modifies this`pending, this`timers
      ensures Abstract() == old(Abstract()).Cleared(jobId)
      ensures entry == if jobId in old(pending) then Some(old(pending)[jobId]) else None
    {
      if jobId !in pending {
        return None;
      }
      entry := Some(pending[jobId]);
      timers := timers - {pending[jobId].ticket};
      pending := pending - {jobId};
    }

    /** `timeoutMs` is None when it is not a finite number; `writes` is whether socket.send succeeds. */
    method Dispatch(deviceId: DeviceId, jobId: JobId, timeoutMs: Option<int>, writes: bool) returns (t: Ticket, budget: int)
      requires Valid()
      modifies this
      ensures Valid()
      ensures t == old(nextTicket)
      ensures Abstract() == old(Abstract()).Dispatched(deviceId, jobId, deviceId in sockets.byDevice, writes)
      ensures budget == if timeoutMs.None? || timeoutMs.value > 300000 then 300000 else if timeoutMs.value < 1 then 1 else timeoutMs.value
    {
      DispatchedValid(Abstract(), deviceId, jobId, deviceId in sockets.byDevice, writes);
      hide State.TimersMatch, State.Accounted, State.CalledOnce, State.OrdersKept;
      t := nextTicket;
      nextTicket := nextTicket + 1;
      orders := orders + [Order(deviceId, jobId)];
      budget := if timeoutMs.Some? then Min(Max(timeoutMs.value, 1), MAX_DISPATCH_TIMEOUT_MS) else MAX_DISPATCH_TIMEOUT_MS;
      if deviceId !in sockets.byDevice {
        Conclude(t, Rejected(DeviceOffline));
        return;
      }
      if jobId in pending {
        Conclude(t, Rejected(ReplayDetected));
        return;
      }
      timers := timers[t := jobId];
      pending := pending[jobId := Pending(deviceId, t)];
      if !writes {
        var entry := Clear(jobId);
        Conclude(t, Rejected(DeviceOffline));
      }
    }

    /** The timeout callback of ticket `t`, which still names its job. */
    method TimerFires(t: Ticket, jobId: JobId)
      requires Valid() && t in timers && timers[t] == jobId
      modifies this
      ensures Valid()
      ensures Abstract() == old(Abstract()).TimedOut(t)
    {
      TimedOutValid(Abstract(), t);
      hide State.TimersMatch, State.Accounted, State.CalledOnce, State.OrdersKept;
      timers := timers - {t};
      pending := pending - {jobId};
      Conclude(t, Rejected(Timeout));
    }

    method Settle(deviceId: DeviceId, jobId: JobId) returns (accepted: bool)
      requires Valid()
      modifies this
      ensures Valid()
      ensures accepted == old(Abstract()).Answers(deviceId, jobId)
      ensures Abstract() == old(Abstract()).ResultFrame(deviceId, jobId)
      ensures nextTicket == old(nextTicket)
    {
      ResultValid(Abstract(), deviceId, jobId);
      hide State.TimersMatch, State.Accounted, State.CalledOnce, State.OrdersKept;
      if jobId !in pending || pending[jobId].deviceId != deviceId {
        return false;
      }
      var entry := Clear(jobId);
      Conclude(entry.value.ticket, Resolved(jobId, deviceId));
      accepted := true;
    }

    method FailDevice(deviceId: DeviceId, code: ErrorCode) returns (failed: nat)
      requires Valid()
      modifies this
      ensures Valid()
      ensures Abstract() == old(Abstract()).DeviceFailed(deviceId, code)
      ensures failed == |old(Abstract()).JobsOf(deviceId)|
      ensures nextTicket == old(nextTicket)
    {
      hide State.TimersMatch, State.Accounted, State.CalledOnce, State.OrdersKept;
      hide State.DeviceFailed;
      failed := 0;
      var waiting := set j | j in pending && pending[j].deviceId == deviceId;
      while waiting != {}
        invariant Valid() && nextTicket == old(nextTicket)
        invariant waiting == Abstract().JobsOf(deviceId)
        invariant Abstract().DeviceFailed(deviceId, code) == old(Abstract()).DeviceFailed(deviceId, code)
        invariant failed + |waiting| == |old(Abstract()).JobsOf(deviceId)|
        decreases waiting
      {
        var jobId :| jobId in waiting;
        FailStep(Abstract(), jobId, deviceId, code);
        ConcludedValid(Abstract(), jobId, Rejected(code));
        var entry := Clear(jobId);
        Conclude(entry.value.ticket, Rejected(code));
        failed := failed + 1;
        waiting := waiting - {jobId};
      }
      NothingToFail(Abstract(), deviceId, code);
    }
  }
}
