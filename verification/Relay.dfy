/**
 * The device relay of apps/gateway/src/relay/relay.ts: socket handlers cut at their awaits and
 * interleaved freely, over one registry and one dispatcher.
 */
module Relay {
  import opened Prelude
  import opened Dispatch

  const HEARTBEAT_TIMEOUT_MS := 45_000

  /** `socket.data`; `closing` is set once the relay has asked for the socket to be closed. */
  datatype SocketData = SocketData(deviceId: Option<DeviceId>, authenticated: bool, lastSeenAt: int, helloTimer: bool, closing: bool)

  type HelloId = nat

  /** Where one onHello call is waiting: for the credential check, the route claim or the presence write. */
  datatype Hello = Authenticating(socket: SocketId) | ClaimingRoute(socket: SocketId, deviceId: DeviceId) | Announcing(socket: SocketId, deviceId: DeviceId)

  datatype ClaimResult = Granted | Refused | Unavailable

  datatype RowRead = Present | Gone | ReadFailed

  datatype Entry = Entry(deviceId: DeviceId, socket: SocketId)

  /**
   * `revalidation` is the rest of the snapshot being walked, its head under read. `vouched` records
   * every socket that proved a device's credential and was granted its route.
   */
  datatype RelayState = RelayState(
    registry: map<DeviceId, SocketId>, data: map<SocketId, SocketData>, hellos: map<HelloId, Hello>,
    revalidation: Option<seq<Entry>>, jobs: State, vouched: set<Entry>)
  {
    function Disconnected(s: SocketId): RelayState {
      if s in data then this.(data := data[s := data[s].(helloTimer := false, closing := true)]) else this
    }

    function Closing(s: SocketId): RelayState {
      if s in data then this.(data := data[s := data[s].(closing := true)]) else this
    }

    function Deauthenticated(s: SocketId): RelayState {
      if s in data then this.(data := data[s := data[s].(authenticated := false)]) else this
    }

    function Opened(s: SocketId, now: int): RelayState {
      if s in data then this else this.(data := data[s := SocketData(None, false, now, true, false)])
    }

    /** Any frame of an authenticated socket refreshes `lastSeenAt`. */
    function Seen(s: SocketId, now: int): RelayState {
      if s in data && data[s].deviceId.Some? then this.(data := data[s := data[s].(lastSeenAt := now)]) else this
    }

    function HelloArrived(s: SocketId, h: HelloId, now: int): RelayState {
      if s !in data || h in hellos then this
      else if !data[s].authenticated then this.(hellos := hellos[h := Authenticating(s)])
      else if data[s].deviceId.None? then this
      else Seen(s, now).Disconnected(s)
    }

    function HelloChecked(h: HelloId, outcome: Option<DeviceId>): RelayState {
      if h !in hellos || !hellos[h].Authenticating? then this
      else
        var s := hellos[h].socket;
        if outcome.None? then this.(hellos := hellos - {h}).Disconnected(s)
        else this.(hellos := hellos[h := ClaimingRoute(s, outcome.value)])
    }

    function HelloClaimed(h: HelloId, r: ClaimResult, now: int): RelayState {
      if h !in hellos || !hellos[h].ClaimingRoute? || hellos[h].socket !in data then this
      else
        var s, d := hellos[h].socket, hellos[h].deviceId;
        if !r.Granted? then this.(hellos := hellos - {h}).Disconnected(s)
        else
          var displaced := Displaced(registry, d, s);
          var next := this.(
            registry := registry[d := s],
            data := data[s := data[s].(deviceId := Some(d), authenticated := true, lastSeenAt := now, helloTimer := false)],
            hellos := hellos[h := Announcing(s, d)],
            vouched := vouched + {Entry(d, s)});
          if displaced.Some? then next.Closing(displaced.value) else next
    }

    function HelloAnnounced(h: HelloId, written: bool): RelayState {
      if h !in hellos || !hellos[h].Announcing? then this
      else
        var s, d := hellos[h].socket, hellos[h].deviceId;
        if written then this.(hellos := hellos - {h})
        else this.(hellos := hellos - {h}, registry := Unregistered(registry, d, s)).Deauthenticated(s).Disconnected(s)
    }

    /** Any other frame from a socket that has not said hello ends the session. */
    function ResultArrived(s: SocketId, jobId: JobId, now: int): RelayState {
      if s !in data then this
      else if !data[s].authenticated then Disconnected(s)
      else if data[s].deviceId.None? then this
      else Seen(s, now).(jobs := jobs.ResultFrame(data[s].deviceId.value, jobId))
    }

    function HeartbeatArrived(s: SocketId, now: int): RelayState {
      if s !in data then this else if !data[s].authenticated then Disconnected(s) else Seen(s, now)
    }

    /** A heartbeat found the route owned by another replica. */
    function RouteLost(s: SocketId): RelayState {
      Deauthenticated(s).Disconnected(s)
    }

    function Closed(s: SocketId): RelayState {
      if s !in data then this
      else
        var next := this.(data := data[s := data[s].(helloTimer := false)]);
        var d := data[s].deviceId;
        if d.None? || !Registered(registry, d.value, s) then next
        else next.(registry := registry - {d.value}, jobs := jobs.DeviceFailed(d.value, DeviceOffline))
    }

    /** A second call while one is in flight starts nothing. */
    function RevalidationBegun(snapshot: seq<Entry>): RelayState {
      if revalidation.Some? then this else this.(revalidation := if snapshot == [] then None else Some(snapshot))
    }

    function RowArrived(row: RowRead): RelayState {
      if revalidation.None? || revalidation.value == [] then this
      else
        var e, rest := revalidation.value[0], revalidation.value[1..];
        var next := this.(revalidation := if rest == [] then None else Some(rest));
        if !row.Gone? || !Registered(registry, e.deviceId, e.socket) then next
        else next.(registry := registry - {e.deviceId}, jobs := jobs.DeviceFailed(e.deviceId, DeviceRevoked))
                 .Deauthenticated(e.socket).Disconnected(e.socket)
    }

    function Dispatching(d: DeviceId, jobId: JobId, writes: bool): RelayState {
      this.(jobs := jobs.Dispatched(d, jobId, d in registry, writes))
    }

    /** Registered sockets that have been silent too long are asked to close. */
    function Swept(now: int): RelayState {
      this.(data := map s | s in data :: if s in registry.Values && data[s].lastSeenAt <= now - HEARTBEAT_TIMEOUT_MS
                                        then data[s].(closing := true) else data[s])
    }
  }

  const INITIAL := RelayState(map[], map[], map[], None, EMPTY, {})

  datatype Event =
    | Open(socket: SocketId, now: int)
    | HelloDeadline(socket: SocketId)
    | HelloFrame(socket: SocketId, hello: HelloId, now: int)
    | HelloCheck(hello: HelloId, outcome: Option<DeviceId>)
    | HelloClaim(hello: HelloId, result: ClaimResult, now: int)
    | HelloAnnounce(hello: HelloId, written: bool)
    | ResultFrame(socket: SocketId, jobId: JobId, now: int)
    | Heartbeat(socket: SocketId, now: int)
    | HeartbeatRouteLost(socket: SocketId)
    | SocketClosed(socket: SocketId)
    | RevalidateBegin(snapshot: seq<Entry>)
    | RevalidateRow(row: RowRead)
    | DispatchJob(deviceId: DeviceId, jobId: JobId, writes: bool)
    | TimerFires(ticket: Ticket)
    | Sweep(now: int)

  function Step(s: RelayState, e: Event): RelayState {
    match e
    case Open(x, now) => s.Opened(x, now)
    case HelloDeadline(x) => if x in s.data && s.data[x].helloTimer && !s.data[x].authenticated then s.Closing(x) else s
    case HelloFrame(x, h, now) => s.HelloArrived(x, h, now)
    case HelloCheck(h, outcome) => s.HelloChecked(h, outcome)
    case HelloClaim(h, r, now) => s.HelloClaimed(h, r, now)
    case HelloAnnounce(h, written) => s.HelloAnnounced(h, written)
    case ResultFrame(x, j, now) => s.ResultArrived(x, j, now)
    case Heartbeat(x, now) => s.HeartbeatArrived(x, now)
    case HeartbeatRouteLost(x) => s.RouteLost(x)
    case SocketClosed(x) => s.Closed(x)
    case RevalidateBegin(snapshot) => if IsSnapshot(s.registry, snapshot) then s.RevalidationBegun(snapshot) else s
    case RevalidateRow(row) => s.RowArrived(row)
    case DispatchJob(d, j, writes) => s.Dispatching(d, j, writes)
    case TimerFires(t) => s.(jobs := s.jobs.TimedOut(t))
    case Sweep(now) => s.Swept(now)
  }

  /** The part of a step that concerns the dispatcher. */
  function JobsStep(s: RelayState, e: Event): State {
    match e
    case ResultFrame(x, j, _) =>
      if x in s.data && s.data[x].authenticated && s.data[x].deviceId.Some?
      then s.jobs.ResultFrame(s.data[x].deviceId.value, j) else s.jobs
    case SocketClosed(x) =>
      if x in s.data && s.data[x].deviceId.Some? && Registered(s.registry, s.data[x].deviceId.value, x)
      then s.jobs.DeviceFailed(s.data[x].deviceId.value, DeviceOffline) else s.jobs
    case RevalidateRow(row) =>
      if row.Gone? && s.revalidation.Some? && s.revalidation.value != []
         && Registered(s.registry, s.revalidation.value[0].deviceId, s.revalidation.value[0].socket)
      then s.jobs.DeviceFailed(s.revalidation.value[0].deviceId, DeviceRevoked) else s.jobs
    case DispatchJob(d, j, writes) => s.jobs.Dispatched(d, j, d in s.registry, writes)
    case TimerFires(t) => s.jobs.TimedOut(t)
    case _ => s.jobs
  }

  lemma StepJobs(s: RelayState, e: Event)
    ensures Step(s, e).jobs == JobsStep(s, e)
  {
    hide State.Dispatched, State.TimedOut, State.ResultFrame, State.DeviceFailed;
  }

  function Run(s: RelayState, es: seq<Event>): RelayState
    decreases es
  {
    if es == [] then s else Run(Step(s, es[0]), es[1..])
  }

  /** `sockets.entries()`: every registered pair, once, in some order. */
  ghost predicate IsSnapshotOf(registry: map<DeviceId, SocketId>, snapshot: seq<Entry>) {
    && (forall i :: 0 <= i < |snapshot| ==> Registered(registry, snapshot[i].deviceId, snapshot[i].socket))
    && |snapshot| == |registry|
    && (forall i, j :: 0 <= i < j < |snapshot| ==> snapshot[i].deviceId != snapshot[j].deviceId)
  }

  predicate IsSnapshot(registry: map<DeviceId, SocketId>, snapshot: seq<Entry>)
    ensures IsSnapshot(registry, snapshot) <==> IsSnapshotOf(registry, snapshot)
  {
    && (forall i :: 0 <= i < |snapshot| ==> Registered(registry, snapshot[i].deviceId, snapshot[i].socket))
    && |snapshot| == |registry|
    && (forall i, j :: 0 <= i < j < |snapshot| ==> snapshot[i].deviceId != snapshot[j].deviceId)
  }

  // ----- what the relay relies on

  /** Only vouched-for sockets are registered, and only they speak for a device. */
  ghost predicate Vouched(s: RelayState) {
    && (forall d :: d in s.registry ==> Entry(d, s.registry[d]) in s.vouched)
    && (forall x :: x in s.data && s.data[x].deviceId.Some? ==> Entry(s.data[x].deviceId.value, x) in s.vouched)
  }

  /** A device with a job waiting has a registered socket to answer on. */
  ghost predicate PendingRegistered(s: RelayState) {
    forall j :: j in s.jobs.pending ==> s.jobs.pending[j].deviceId in s.registry
  }

  ghost predicate Inv(s: RelayState) {
    s.jobs.Valid() && Vouched(s)
  }

  /** The relay starts in a state the run theorems speak of. */
  lemma InitialHolds()
    ensures Inv(INITIAL) && PendingRegistered(INITIAL)
  {
  }

  lemma KeepsJobs(s: RelayState, e: Event)
    requires s.jobs.Valid()
    ensures Step(s, e).jobs.Valid()
  {
    StepJobs(s, e);
    hide Step, State.Valid, State.Dispatched, State.TimedOut, State.ResultFrame, State.DeviceFailed;
    match e
    case ResultFrame(x, j, _) =>
      if x in s.data && s.data[x].deviceId.Some? {
        ResultValid(s.jobs, s.data[x].deviceId.value, j);
      }
    case SocketClosed(x) =>
      if x in s.data && s.data[x].deviceId.Some? {
        DeviceFailedValid(s.jobs, s.data[x].deviceId.value, DeviceOffline);
      }
    case RevalidateRow(_) =>
      if s.revalidation.Some? && s.revalidation.value != [] {
        DeviceFailedValid(s.jobs, s.revalidation.value[0].deviceId, DeviceRevoked);
      }
    case DispatchJob(d, j, writes) => DispatchedValid(s.jobs, d, j, d in s.registry, writes);
    case TimerFires(t) => TimedOutValid(s.jobs, t);
    case _ =>
  }

  /** Only a granted claim registers anything or gives a socket a device. */
  lemma OthersRegisterNothing(s: RelayState, e: Event, d: DeviceId)
    requires !e.HelloClaim? && d in Step(s, e).registry
    ensures d in s.registry && Step(s, e).registry[d] == s.registry[d]
  {
    hide State.DeviceFailed, State.Dispatched, State.TimedOut, State.ResultFrame, IsSnapshotOf;
  }

  predicate HelloStep(e: Event) {
    e.HelloFrame? || e.HelloCheck? || e.HelloAnnounce? || e.HelloDeadline?
  }

  lemma HellosNameNothing(s: RelayState, e: Event, x: SocketId)
    requires HelloStep(e) && x in Step(s, e).data
    ensures x in s.data && Step(s, e).data[x].deviceId == s.data[x].deviceId
  {
  }

  lemma LossNamesNothing(s: RelayState, e: Event, x: SocketId)
    requires (e.SocketClosed? || e.RevalidateRow?) && x in Step(s, e).data
    ensures x in s.data && Step(s, e).data[x].deviceId == s.data[x].deviceId
  {
    hide State.DeviceFailed;
  }

  lemma OthersNameNothing(s: RelayState, e: Event, x: SocketId)
    requires !HelloStep(e) && !e.HelloClaim? && !e.SocketClosed? && !e.RevalidateRow?
    requires x in Step(s, e).data && Step(s, e).data[x].deviceId.Some?
    ensures x in s.data && Step(s, e).data[x].deviceId == s.data[x].deviceId
  {
    hide State.Dispatched, State.TimedOut, State.ResultFrame, IsSnapshotOf;
  }

  lemma ClaimKeepsVouched(s: RelayState, h: HelloId, r: ClaimResult, now: int)
    requires Vouched(s)
    ensures Vouched(s.HelloClaimed(h, r, now))
  {
  }

  lemma OthersVouchSame(s: RelayState, e: Event)
    requires !e.HelloClaim?
    ensures Step(s, e).vouched == s.vouched
  {
    hide State.DeviceFailed, State.Dispatched, State.TimedOut, State.ResultFrame, IsSnapshotOf;
  }

  lemma KeepsVouched(s: RelayState, e: Event)
    requires Vouched(s)
    ensures Vouched(Step(s, e))
  {
    if e.HelloClaim? {
      ClaimKeepsVouched(s, e.hello, e.result, e.now);
    } else {
      OthersVouchSame(s, e);
      hide Step;
      forall d | d in Step(s, e).registry ensures Entry(d, Step(s, e).registry[d]) in Step(s, e).vouched {
        OthersRegisterNothing(s, e, d);
      }
      forall x | x in Step(s, e).data && Step(s, e).data[x].deviceId.Some?
        ensures Entry(Step(s, e).data[x].deviceId.value, x) in Step(s, e).vouched
      {
        if HelloStep(e) {
          HellosNameNothing(s, e, x);
        } else if e.SocketClosed? || e.RevalidateRow? {
          LossNamesNothing(s, e, x);
        } else {
          OthersNameNothing(s, e, x);
        }
      }
    }
  }

  lemma {:induction false} RunKeepsInv(s: RelayState, es: seq<Event>)
    requires Inv(s)
    ensures Inv(Run(s, es))
    decreases es
  {
    hide Step, State.Valid, Vouched;
    if es != [] {
      KeepsJobs(s, es[0]);
      KeepsVouched(s, es[0]);
      RunKeepsInv(Step(s, es[0]), es[1..]);
    }
  }

  // ----- the registry

  /** The steps that may take a socket's own registration away. */
  predicate ActsFor(s: RelayState, e: Event, x: SocketId) {
    match e
    case SocketClosed(y) => y == x
    case HelloAnnounce(h, written) => !written && h in s.hellos && s.hellos[h].Announcing? && s.hellos[h].socket == x
    case RevalidateRow(row) => row.Gone? && s.revalidation.Some? && s.revalidation.value != [] && s.revalidation.value[0].socket == x
    case _ => false
  }

  /** A newer session took the device over. */
  predicate TakesOver(s: RelayState, e: Event, d: DeviceId) {
    e.HelloClaim? && e.result.Granted? && e.hello in s.hellos && s.hellos[e.hello].ClaimingRoute? && s.hellos[e.hello].deviceId == d
  }

  /**
   * A registration (d, x) outlives every step that is not about x: stale closes, stale revalidations
   * and failed hellos of other sockets never remove it. It can only be replaced, by a granted hello
   * of another socket for the same device, and then the device stays registered and x is closed.
   */
  lemma RemovedOnlyByItsOwn(s: RelayState, e: Event, d: DeviceId, x: SocketId)
    requires Registered(s.registry, d, x) && !ActsFor(s, e, x)
    ensures Registered(Step(s, e).registry, d, x) || TakesOver(s, e, d)
    ensures TakesOver(s, e, d) && !Registered(Step(s, e).registry, d, x) && x in s.data ==>
              d in Step(s, e).registry && Step(s, e).data[x].closing
  {
  }

  /** A revalidation never touches a socket that replaced the one it looked up. */
  lemma StaleRevalidationHarmless(s: RelayState, row: RowRead)
    requires s.revalidation.Some? && s.revalidation.value != []
    requires !Registered(s.registry, s.revalidation.value[0].deviceId, s.revalidation.value[0].socket)
    ensures var t := Step(s, RevalidateRow(row));
            t.registry == s.registry && t.data == s.data && t.jobs == s.jobs
  {
  }

  // ----- waiting jobs and registered devices

  /** The one step that unregisters a device without failing its jobs: the hello's own presence write fails. */
  predicate StrandsJobs(s: RelayState, e: Event) {
    && e.HelloAnnounce? && !e.written && e.hello in s.hellos && s.hellos[e.hello].Announcing?
    && Registered(s.registry, s.hellos[e.hello].deviceId, s.hellos[e.hello].socket)
    && s.jobs.JobsOf(s.hellos[e.hello].deviceId) != {}
  }

  lemma StrandingLeaves(s: RelayState, e: Event)
    requires StrandsJobs(s, e)
    ensures !PendingRegistered(Step(s, e))
  {
    var j :| j in s.jobs.JobsOf(s.hellos[e.hello].deviceId);
    assert j in Step(s, e).jobs.pending;
    assert s.jobs.pending[j].deviceId !in Step(s, e).registry;
  }

  lemma AnnouncedKeeps(s: RelayState, e: Event)
    requires PendingRegistered(s) && e.HelloAnnounce? && !StrandsJobs(s, e)
    ensures PendingRegistered(Step(s, e))
  {
    if e.hello in s.hellos && s.hellos[e.hello].Announcing? {
      var d := s.hellos[e.hello].deviceId;
      assert forall j :: j in s.jobs.pending && s.jobs.pending[j].deviceId == d ==> j in s.jobs.JobsOf(d);
    }
  }

  /** Unregistering a device and failing its jobs go together. */
  lemma FailingKeeps(s: RelayState, e: Event)
    requires PendingRegistered(s) && (e.SocketClosed? || e.RevalidateRow?)
    ensures PendingRegistered(Step(s, e))
  {
  }

  lemma OthersKeepPending(s: RelayState, e: Event)
    requires PendingRegistered(s) && !e.HelloAnnounce? && !e.SocketClosed? && !e.RevalidateRow?
    ensures PendingRegistered(Step(s, e))
  {
    if e.HelloClaim? || e.DispatchJob? || e.TimerFires? || e.ResultFrame? {
      JobsKeepPending(s, e);
      hide Step;
    }
    hide IsSnapshotOf, State.DeviceFailed, State.Dispatched, State.TimedOut, State.ResultFrame;
  }

  lemma JobsKeepPending(s: RelayState, e: Event)
    requires PendingRegistered(s) && (e.HelloClaim? || e.DispatchJob? || e.TimerFires? || e.ResultFrame?)
    ensures PendingRegistered(Step(s, e))
  {
  }

  /**
   * A job waits only on a registered device. Every step keeps this, except exactly when a hello's
   * presence write fails for a registered socket whose device already has a job waiting.
   */
  lemma PendingStaysRegistered(s: RelayState, e: Event)
    requires PendingRegistered(s)
    ensures PendingRegistered(Step(s, e)) <==> !StrandsJobs(s, e)
  {
    hide Step, PendingRegistered;
    if StrandsJobs(s, e) {
      StrandingLeaves(s, e);
    } else if e.HelloAnnounce? {
      AnnouncedKeeps(s, e);
    } else if e.SocketClosed? || e.RevalidateRow? {
      FailingKeeps(s, e);
    } else {
      OthersKeepPending(s, e);
    }
  }

  /** No step of the run is a stranding one. */
  predicate NeverStrands(s: RelayState, es: seq<Event>)
    decreases es
  {
    es == [] || (!StrandsJobs(s, es[0]) && NeverStrands(Step(s, es[0]), es[1..]))
  }

  lemma {:induction false} RunPendingRegistered(s: RelayState, es: seq<Event>)
    requires PendingRegistered(s) && NeverStrands(s, es)
    ensures PendingRegistered(Run(s, es))
    decreases es
  {
    hide Step, PendingRegistered, StrandsJobs;
    if es != [] {
      PendingStaysRegistered(s, es[0]);
      RunPendingRegistered(Step(s, es[0]), es[1..]);
    }
  }

  /**
   * The exception is real, and can arise in any run: a job dispatched while the presence write of its
   * device's hello is pending is left behind when that write fails.
   */
  lemma JobStranded(s: RelayState, h: HelloId, jobId: JobId)
    requires h in s.hellos && s.hellos[h].Announcing?
    requires Registered(s.registry, s.hellos[h].deviceId, s.hellos[h].socket) && jobId !in s.jobs.pending
    ensures var d := s.hellos[h].deviceId;
            var t := Step(Step(s, DispatchJob(d, jobId, true)), HelloAnnounce(h, false));
            jobId in t.jobs.pending && t.jobs.pending[jobId].deviceId == d && d !in t.registry
  {
  }

  /** Such a state is reached by the first hello of any device. */
  lemma HelloReachesAnnouncing(x: SocketId, h: HelloId, d: DeviceId)
    ensures var s := Run(INITIAL, [Open(x, 0), HelloFrame(x, h, 0), HelloCheck(h, Some(d)), HelloClaim(h, Granted, 0)]);
            s.hellos == map[h := Announcing(x, d)] && s.registry == map[d := x] && s.jobs == EMPTY
  {
    var fresh0 := SocketData(None, false, 0, true, false);
    var a := INITIAL.(data := map[x := fresh0]);
    var b := a.(hellos := map[h := Authenticating(x)]);
    var c := a.(hellos := map[h := ClaimingRoute(x, d)]);
    assert Step(INITIAL, Open(x, 0)) == a;
    assert Step(a, HelloFrame(x, h, 0)) == b;
    assert Step(b, HelloCheck(h, Some(d))) == c;
    var f := Step(c, HelloClaim(h, Granted, 0));
    assert f.hellos == map[h := Announcing(x, d)] && f.registry == map[d := x] && f.jobs == EMPTY;
    hide Step;
    var es := [Open(x, 0), HelloFrame(x, h, 0), HelloCheck(h, Some(d)), HelloClaim(h, Granted, 0)];
    assert es[1..] == [es[1], es[2], es[3]] && es[1..][1..] == [es[2], es[3]] && [es[2], es[3]][1..] == [es[3]];
    assert Run(f, []) == f && Run(c, [es[3]]) == f && Run(b, [es[2], es[3]]) == f && Run(a, es[1..]) == f;
  }

  // ----- promises

  predicate KeepsOutcome(j: State, n: State, t: Ticket) {
    t in j.settled ==> t in n.settled && n.settled[t] == j.settled[t]
  }

  lemma DispatchKeepsOutcome(j: State, d: DeviceId, jobId: JobId, online: bool, writes: bool, t: Ticket)
    requires t < |j.orders|
    ensures KeepsOutcome(j, j.Dispatched(d, jobId, online, writes), t)
  {
  }

  /** Only tickets still waiting are concluded. */
  lemma OthersKeepOutcome(j: State, d: DeviceId, jobId: JobId, code: ErrorCode, u: Ticket, t: Ticket)
    requires t !in j.timers && j.TimersMatch()
    ensures KeepsOutcome(j, j.ResultFrame(d, jobId), t) && KeepsOutcome(j, j.TimedOut(u), t)
    ensures KeepsOutcome(j, j.DeviceFailed(d, code), t)
  {
  }

  /** An outcome, once given, is final. */
  lemma OutcomeFinal(s: RelayState, e: Event, t: Ticket)
    requires s.jobs.Valid() && t in s.jobs.settled
    ensures t in Step(s, e).jobs.settled && Step(s, e).jobs.settled[t] == s.jobs.settled[t]
  {
    StepJobs(s, e);
    assert s.jobs.TimersMatch() && t !in s.jobs.timers && t < |s.jobs.orders|;
    hide Step, State.Valid, State.TimersMatch, State.Dispatched, State.TimedOut, State.ResultFrame, State.DeviceFailed;
    match e
    case ResultFrame(x, j, _) =>
      if x in s.data && s.data[x].deviceId.Some? {
        OthersKeepOutcome(s.jobs, s.data[x].deviceId.value, j, DeviceOffline, t, t);
      }
    case SocketClosed(x) =>
      if x in s.data && s.data[x].deviceId.Some? {
        OthersKeepOutcome(s.jobs, s.data[x].deviceId.value, 0, DeviceOffline, t, t);
      }
    case RevalidateRow(_) =>
      if s.revalidation.Some? && s.revalidation.value != [] {
        OthersKeepOutcome(s.jobs, s.revalidation.value[0].deviceId, 0, DeviceRevoked, t, t);
      }
    case DispatchJob(d, j, writes) => DispatchKeepsOutcome(s.jobs, d, j, d in s.registry, writes, t);
    case TimerFires(u) => OthersKeepOutcome(s.jobs, 0, 0, DeviceOffline, u, t);
    case _ =>
  }

  /**
   * Exactly once. After any run, every dispatch call is either waiting with its timer armed or has
   * been settled; resolve and reject were called once per settled call in all; an outcome never
   * changes afterwards; and a resolved call got the result of the job it sent, from its own device.
   */
  lemma DispatchedExactlyOnce(s: RelayState, es: seq<Event>, t: Ticket)
    requires Inv(s) && t < |Run(s, es).jobs.orders|
    ensures var j := Run(s, es).jobs;
            && (t in j.timers <==> t !in j.settled)
            && (t in j.timers ==> j.timers[t] in j.pending && j.pending[j.timers[t]] == Pending(j.orders[t].deviceId, t))
            && j.callbacks == |j.settled|
            && (t in j.settled && j.settled[t].Resolved? ==> j.orders[t] == Order(j.settled[t].sender, j.settled[t].jobId))
  {
    RunKeepsInv(s, es);
  }

  lemma {:induction false} OutcomeFinalRun(s: RelayState, es: seq<Event>, t: Ticket)
    requires Inv(s) && t in s.jobs.settled
    ensures t in Run(s, es).jobs.settled && Run(s, es).jobs.settled[t] == s.jobs.settled[t]
    decreases es
  {
    hide Step, State.Valid, Vouched;
    if es != [] {
      OutcomeFinal(s, es[0], t);
      KeepsJobs(s, es[0]);
      KeepsVouched(s, es[0]);
      OutcomeFinalRun(Step(s, es[0]), es[1..], t);
    }
  }

  /**
   * Whoever resolves a dispatch call has proved the credential of the very device the call was made
   * for: a frame of any other socket leaves it waiting.
   */
  lemma OnlyItsDeviceAnswers(s: RelayState, e: Event, t: Ticket)
    requires Inv(s) && t < |s.jobs.orders| && t !in s.jobs.settled
    requires t in Step(s, e).jobs.settled && Step(s, e).jobs.settled[t].Resolved?
    ensures e.ResultFrame? && Entry(s.jobs.orders[t].deviceId, e.socket) in s.vouched
  {
    assert s.jobs.OrdersKept();
    StepJobs(s, e);
    hide Step, State.OrdersKept, State.Valid;
    if e.ResultFrame? {
      hide State.ResultFrame;
      ResultAnswersOwn(s.jobs, s.data[e.socket].deviceId.value, e.jobId, t);
    }
  }

  // ----- what each event means for a waiting call

  /** What the event says of the call that waits with ticket `t` for job `j` of device `d`, if anything. */
  function VerdictOn(s: RelayState, e: Event, d: DeviceId, j: JobId, t: Ticket): Option<Outcome> {
    match e
    case ResultFrame(x, answered, _) =>
      if x in s.data && s.data[x].authenticated && s.data[x].deviceId == Some(d) && answered == j
      then Some(Resolved(j, d)) else None
    case TimerFires(u) => if u == t then Some(Rejected(Timeout)) else None
    case SocketClosed(x) =>
      if x in s.data && s.data[x].deviceId == Some(d) && Registered(s.registry, d, x)
      then Some(Rejected(DeviceOffline)) else None
    case RevalidateRow(row) =>
      if row.Gone? && HeadIs(s, d) then Some(Rejected(DeviceRevoked)) else None
    case _ => None
  }

  /** The pass reads the row of device `d`, and the socket it looked up is still the device's. */
  predicate HeadIs(s: RelayState, d: DeviceId) {
    s.revalidation.Some? && s.revalidation.value != [] && s.revalidation.value[0].deviceId == d
      && Registered(s.registry, d, s.revalidation.value[0].socket)
  }

  /**
   * A waiting call is settled by exactly the events that mean it, and as they mean it: the result of its job from
   * its device, its own timer, its device's socket closing, its device's row being gone. Any other event leaves it waiting.
   */
  lemma WaitingCallStep(s: RelayState, e: Event, t: Ticket)
    requires s.jobs.Valid() && t in s.jobs.timers
    ensures s.jobs.timers[t] in s.jobs.pending
    ensures var j := s.jobs.timers[t]; var d := s.jobs.pending[j].deviceId;
            var v, n := VerdictOn(s, e, d, j, t), Step(s, e).jobs;
            && (v.None? ==> t in n.timers && n.timers[t] == j && j in n.pending && n.pending[j] == Pending(d, t))
            && (v.Some? ==> t !in n.timers && j !in n.pending && t in n.settled && n.settled[t] == v.value)
  {
    assert s.jobs.TimersMatch() && t < |s.jobs.orders|;
    hide Step, State.Valid, State.TimersMatch, VerdictOn;
    assert s.jobs.timers[t] in s.jobs.pending && s.jobs.pending[s.jobs.timers[t]].ticket == t by { WaitsInTable(s.jobs, t); }
    WaitingFollows(s, e, t);
    StepJobs(s, e);
  }

  lemma WaitingFollows(s: RelayState, e: Event, t: Ticket)
    requires s.jobs.TimersMatch() && t in s.jobs.timers && t < |s.jobs.orders| && s.jobs.timers[t] in s.jobs.pending
    ensures Follows(s.jobs, JobsStep(s, e), t, VerdictOn(s, e, s.jobs.pending[s.jobs.timers[t]].deviceId, s.jobs.timers[t], t))
  {
    hide State.Dispatched, State.TimedOut, State.ResultFrame, State.DeviceFailed, State.TimersMatch, Follows;
    NothingOn(s.jobs, t);
    var j := s.jobs.timers[t];
    var d := s.jobs.pending[j].deviceId;
    var v := VerdictOn(s, e, d, j, t);
    match e
    case ResultFrame(x, i, _) =>
      if x in s.data && s.data[x].authenticated && s.data[x].deviceId.Some? {
        var sender := s.data[x].deviceId.value;
        ResultOn(s.jobs, sender, i, t);
        assert v == if j == i && d == sender then Some(Resolved(i, sender)) else None;
      }
    case SocketClosed(x) =>
      if x in s.data && s.data[x].deviceId.Some? && Registered(s.registry, s.data[x].deviceId.value, x) {
        var gone := s.data[x].deviceId.value;
        FailureOn(s.jobs, gone, DeviceOffline, t);
        assert v == if d == gone then Some(Rejected(DeviceOffline)) else None;
      }
    case RevalidateRow(row) =>
      if row.Gone? && s.revalidation.Some? && s.revalidation.value != []
         && Registered(s.registry, s.revalidation.value[0].deviceId, s.revalidation.value[0].socket) {
        var gone := s.revalidation.value[0].deviceId;
        FailureOn(s.jobs, gone, DeviceRevoked, t);
        assert v == if d == gone then Some(Rejected(DeviceRevoked)) else None;
      }
    case DispatchJob(d', i, writes) => DispatchOn(s.jobs, d', i, d' in s.registry, writes, t);
    case TimerFires(u) => TimerOn(s.jobs, u, t);
    case _ =>
  }

  lemma NothingOn(j: State, t: Ticket)
    requires t in j.timers && j.timers[t] in j.pending
    ensures Follows(j, j, t, None)
  {
  }

  /** Where a call stands that waited with ticket `t`, after its verdict if there was one. */
  ghost predicate Follows(j: State, n: State, t: Ticket, v: Option<Outcome>)
    requires t in j.timers && j.timers[t] in j.pending
  {
    var i := j.timers[t];
    if v.None? then t in n.timers && n.timers[t] == i && i in n.pending && n.pending[i] == j.pending[i]
    else t !in n.timers && i !in n.pending && t in n.settled && n.settled[t] == v.value
  }

  lemma ResultOn(j: State, d: DeviceId, i: JobId, t: Ticket)
    requires j.TimersMatch() && t in j.timers
    ensures Follows(j, j.ResultFrame(d, i), t,
                    if j.timers[t] == i && j.pending[i].deviceId == d then Some(Resolved(i, d)) else None)
  {
  }

  lemma FailureOn(j: State, d: DeviceId, code: ErrorCode, t: Ticket)
    requires j.TimersMatch() && t in j.timers
    ensures Follows(j, j.DeviceFailed(d, code), t, if j.pending[j.timers[t]].deviceId == d then Some(Rejected(code)) else None)
  {
  }

  lemma TimerOn(j: State, u: Ticket, t: Ticket)
    requires j.TimersMatch() && t in j.timers
    ensures Follows(j, j.TimedOut(u), t, if u == t then Some(Rejected(Timeout)) else None)
  {
  }

  lemma DispatchOn(j: State, d: DeviceId, i: JobId, online: bool, writes: bool, t: Ticket)
    requires j.TimersMatch() && t in j.timers && t < |j.orders|
    ensures Follows(j, j.Dispatched(d, i, online, writes), t, None)
  {
  }

  /**
   * A dispatch call waits exactly if its device has a socket, its job does not wait already and the write succeeds;
   * otherwise it is refused at once, as a replay only for a job that waits.
   */
  lemma DispatchedCall(s: RelayState, d: DeviceId, j: JobId, writes: bool)
    requires s.jobs.Valid()
    ensures var n, t := Step(s, DispatchJob(d, j, writes)).jobs, |s.jobs.orders|;
            && n.orders == s.jobs.orders + [Order(d, j)]
            && (t in n.timers <==> d in s.registry && j !in s.jobs.pending && writes)
            && (t in n.timers ==> n.timers[t] == j && j in n.pending && n.pending[j] == Pending(d, t) && t !in n.settled)
            && (t !in n.timers ==> t in n.settled && n.pending == s.jobs.pending)
            && (t !in n.timers ==>
                  n.settled[t] == Rejected(if d in s.registry && j in s.jobs.pending then ReplayDetected else DeviceOffline))
  {
    hide State.OrdersKept, State.CalledOnce;
  }

  /** The first verdict on a waiting call during a run. */
  function FirstVerdict(s: RelayState, es: seq<Event>, d: DeviceId, j: JobId, t: Ticket): Option<Outcome>
    decreases es
  {
    if es == [] then None
    else if VerdictOn(s, es[0], d, j, t).Some? then VerdictOn(s, es[0], d, j, t)
    else FirstVerdict(Step(s, es[0]), es[1..], d, j, t)
  }

  /** Over any run a waiting call ends with the first verdict on it, and waits on if there is none. */
  lemma {:induction false} WaitingCallRun(s: RelayState, es: seq<Event>, t: Ticket)
    requires Inv(s) && t in s.jobs.timers
    ensures s.jobs.timers[t] in s.jobs.pending
    ensures var j := s.jobs.timers[t]; var d := s.jobs.pending[j].deviceId;
            var v, n := FirstVerdict(s, es, d, j, t), Run(s, es).jobs;
            && (v.None? ==> t in n.timers && n.timers[t] == j && j in n.pending && n.pending[j] == Pending(d, t))
            && (v.Some? ==> t !in n.timers && t in n.settled && n.settled[t] == v.value)
    decreases es
  {
    hide Step, State.Valid, Vouched, VerdictOn;
    assert s.jobs.timers[t] in s.jobs.pending && s.jobs.pending[s.jobs.timers[t]].ticket == t by {
      WaitsInTable(s.jobs, t);
    }
    if es != [] {
      var n := Step(s, es[0]);
      WaitingCallStep(s, es[0], t);
      KeepsJobs(s, es[0]);
      KeepsVouched(s, es[0]);
      if t in n.jobs.timers {
        WaitingCallRun(n, es[1..], t);
      } else {
        OutcomeFinalRun(n, es[1..], t);
        RunKeepsInv(n, es[1..]);
        SettledWaitsNot(Run(n, es[1..]).jobs, t);
      }
    }
  }

  lemma WaitsInTable(j: State, t: Ticket)
    requires j.Valid() && t in j.timers
    ensures j.timers[t] in j.pending && j.pending[j.timers[t]].ticket == t
  {
  }

  lemma SettledWaitsNot(j: State, t: Ticket)
    requires j.Valid() && t in j.settled
    ensures t !in j.timers
  {
  }

  // ----- what each event does to registrations and sockets

  /** A granted claim: socket `x` takes device `d` over. */
  predicate Takes(s: RelayState, e: Event, d: DeviceId, x: SocketId) {
    e.HelloClaim? && e.result.Granted? && e.hello in s.hellos && s.hellos[e.hello] == ClaimingRoute(x, d) && x in s.data
  }

  /** The socket closes, its hello cannot be announced, or its device's row is gone. */
  predicate Leaves(s: RelayState, e: Event, d: DeviceId, x: SocketId) {
    match e
    case SocketClosed(y) => y == x && x in s.data && s.data[x].deviceId == Some(d)
    case HelloAnnounce(h, written) => !written && h in s.hellos && s.hellos[h] == Announcing(x, d)
    case RevalidateRow(row) => row.Gone? && HeadIs(s, d) && s.revalidation.value[0].socket == x
    case _ => false
  }

  /** A device has a socket exactly as long as it took the device and neither left nor was replaced. */
  lemma RegisteredExactly(s: RelayState, e: Event, d: DeviceId, x: SocketId)
    ensures Registered(Step(s, e).registry, d, x)
       <==> Takes(s, e, d, x)
            || (Registered(s.registry, d, x) && !Leaves(s, e, d, x) && !(exists y :: y != x && Takes(s, e, d, y)))
  {
    if e.HelloClaim? {
      ClaimRegisters(s, e, d, x);
    } else {
      forall y ensures !Takes(s, e, d, y) { NobodyTakes(s, e, d, y); }
      OthersRegister(s, e, d, x);
    }
    hide Takes, Leaves, Step;
  }

  lemma ClaimRegisters(s: RelayState, e: Event, d: DeviceId, x: SocketId)
    requires e.HelloClaim?
    ensures Registered(Step(s, e).registry, d, x)
       <==> Takes(s, e, d, x)
            || (Registered(s.registry, d, x) && !Leaves(s, e, d, x) && !(exists y :: y != x && Takes(s, e, d, y)))
  {
    assert forall y :: Takes(s, e, d, y) ==> y == s.hellos[e.hello].socket;
    if e.hello in s.hellos && s.hellos[e.hello].ClaimingRoute? {
      assert Takes(s, e, d, s.hellos[e.hello].socket) <==> e.result.Granted? && s.hellos[e.hello].deviceId == d && s.hellos[e.hello].socket in s.data;
    }
  }

  lemma OthersRegister(s: RelayState, e: Event, d: DeviceId, x: SocketId)
    requires !e.HelloClaim?
    ensures Registered(Step(s, e).registry, d, x) <==> Registered(s.registry, d, x) && !Leaves(s, e, d, x)
  {
    if e.HelloAnnounce? || e.SocketClosed? || e.RevalidateRow? {
      LossRegisters(s, e, d, x);
      hide Step, Leaves;
    }
    hide State.DeviceFailed, State.Dispatched, State.TimedOut, State.ResultFrame, IsSnapshotOf;
  }

  lemma LossRegisters(s: RelayState, e: Event, d: DeviceId, x: SocketId)
    requires e.HelloAnnounce? || e.SocketClosed? || e.RevalidateRow?
    ensures Registered(Step(s, e).registry, d, x) <==> Registered(s.registry, d, x) && !Leaves(s, e, d, x)
  {
    hide State.DeviceFailed;
  }

  /** The events that make a socket stop speaking for its device, although it may still be open. */
  predicate Silences(s: RelayState, e: Event, x: SocketId) {
    match e
    case HelloAnnounce(h, written) => !written && h in s.hellos && s.hellos[h].Announcing? && s.hellos[h].socket == x
    case HeartbeatRouteLost(y) => y == x
    case RevalidateRow(row) =>
      row.Gone? && s.revalidation.Some? && s.revalidation.value != []
        && HeadIs(s, s.revalidation.value[0].deviceId) && s.revalidation.value[0].socket == x
    case _ => false
  }

  /** A socket is authenticated exactly from the claim that its hello was granted to the event that silences it. */
  lemma AuthenticatedExactly(s: RelayState, e: Event, x: SocketId)
    requires x in s.data
    ensures x in Step(s, e).data
    ensures Step(s, e).data[x].authenticated
       <==> (exists d :: Takes(s, e, d, x)) || (s.data[x].authenticated && !Silences(s, e, x))
  {
    if e.HelloClaim? {
      ClaimMarks(s, e, x);
    } else {
      forall d ensures !Takes(s, e, d, x) { NobodyTakes(s, e, d, x); }
      if HelloStep(e) || e.SocketClosed? || e.RevalidateRow? { HelloOrLossMarks(s, e, x); } else { OtherMarks(s, e, x); }
    }
    hide Takes, Silences, Step;
  }

  /** The time of the frame, for a frame that counts as a sign of life. */
  function SignOfLife(s: RelayState, e: Event, x: SocketId): Option<int>
    requires x in s.data
  {
    match e
    case HelloFrame(y, h, now) => if y == x && h !in s.hellos && s.data[x].authenticated && s.data[x].deviceId.Some? then Some(now) else None
    case ResultFrame(y, _, now) => if y == x && s.data[x].authenticated && s.data[x].deviceId.Some? then Some(now) else None
    case Heartbeat(y, now) => if y == x && s.data[x].authenticated && s.data[x].deviceId.Some? then Some(now) else None
    case _ => None
  }

  ghost predicate MarksFollow(s: RelayState, e: Event, x: SocketId)
    requires x in s.data
  {
    && x in Step(s, e).data
    && (Step(s, e).data[x].authenticated <==> s.data[x].authenticated && !Silences(s, e, x))
    && Step(s, e).data[x].lastSeenAt == if SignOfLife(s, e, x).Some? then SignOfLife(s, e, x).value else s.data[x].lastSeenAt
  }

  lemma HelloOrLossMarks(s: RelayState, e: Event, x: SocketId)
    requires x in s.data && (HelloStep(e) || e.SocketClosed? || e.RevalidateRow?)
    ensures MarksFollow(s, e, x)
  {
    hide State.DeviceFailed;
  }

  lemma OtherMarks(s: RelayState, e: Event, x: SocketId)
    requires x in s.data && !HelloStep(e) && !e.SocketClosed? && !e.RevalidateRow? && !e.HelloClaim?
    ensures MarksFollow(s, e, x)
  {
    hide State.Dispatched, State.TimedOut, State.ResultFrame, IsSnapshotOf;
  }

  /** What a route claim does to the marks of a socket. */
  lemma ClaimMarks(s: RelayState, e: Event, x: SocketId)
    requires x in s.data && e.HelloClaim?
    ensures x in Step(s, e).data
    ensures var n := Step(s, e).data[x];
            if exists d :: Takes(s, e, d, x) then n.authenticated && n.lastSeenAt == e.now
            else n.authenticated == s.data[x].authenticated && n.lastSeenAt == s.data[x].lastSeenAt
  {
    if e.hello in s.hellos && s.hellos[e.hello].ClaimingRoute? {
      assert s.hellos[e.hello] == ClaimingRoute(s.hellos[e.hello].socket, s.hellos[e.hello].deviceId);
      assert e.result.Granted? && s.hellos[e.hello].socket == x ==> Takes(s, e, s.hellos[e.hello].deviceId, x);
    }
  }

  lemma NobodyTakes(s: RelayState, e: Event, d: DeviceId, x: SocketId)
    requires !e.HelloClaim?
    ensures !Takes(s, e, d, x)
  {
  }

  /** Why the relay asks for a socket to be closed. */
  predicate AsksToClose(s: RelayState, e: Event, x: SocketId)
    requires x in s.data
  {
    match e
    case HelloDeadline(y) => y == x && s.data[x].helloTimer && !s.data[x].authenticated
    case HelloFrame(y, h, _) => y == x && h !in s.hellos && s.data[x].authenticated && s.data[x].deviceId.Some?
    case ResultFrame(y, _, _) => y == x && !s.data[x].authenticated
    case Heartbeat(y, _) => y == x && !s.data[x].authenticated
    case HelloCheck(h, outcome) => h in s.hellos && s.hellos[h] == Authenticating(x) && outcome.None?
    case HelloClaim(h, r, _) =>
      h in s.hellos && s.hellos[h].ClaimingRoute? && s.hellos[h].socket in s.data
        && (if r.Granted? then s.hellos[h].socket != x && Registered(s.registry, s.hellos[h].deviceId, x) else s.hellos[h].socket == x)
    case Sweep(now) => x in s.registry.Values && s.data[x].lastSeenAt <= now - 45000
    case _ => Silences(s, e, x)
  }

  /** A socket is asked to close for exactly those reasons. */
  lemma ClosedExactly(s: RelayState, e: Event, x: SocketId)
    requires x in s.data
    ensures x in Step(s, e).data
    ensures Step(s, e).data[x].closing <==> s.data[x].closing || AsksToClose(s, e, x)
  {
    if e.HelloClaim? {
      ClaimCloses(s, e, x);
    } else if HelloStep(e) || e.SocketClosed? || e.RevalidateRow? {
      HelloOrLossCloses(s, e, x);
    } else {
      OtherCloses(s, e, x);
    }
    hide AsksToClose, Step;
  }

  lemma HelloOrLossCloses(s: RelayState, e: Event, x: SocketId)
    requires x in s.data && (HelloStep(e) || e.SocketClosed? || e.RevalidateRow?)
    ensures x in Step(s, e).data && (Step(s, e).data[x].closing <==> s.data[x].closing || AsksToClose(s, e, x))
  {
    hide State.DeviceFailed;
  }

  lemma OtherCloses(s: RelayState, e: Event, x: SocketId)
    requires x in s.data && !HelloStep(e) && !e.SocketClosed? && !e.RevalidateRow? && !e.HelloClaim?
    ensures x in Step(s, e).data && (Step(s, e).data[x].closing <==> s.data[x].closing || AsksToClose(s, e, x))
  {
    hide State.Dispatched, State.TimedOut, State.ResultFrame, IsSnapshotOf;
  }

  lemma ClaimCloses(s: RelayState, e: Event, x: SocketId)
    requires x in s.data && e.HelloClaim?
    ensures x in Step(s, e).data && (Step(s, e).data[x].closing <==> s.data[x].closing || AsksToClose(s, e, x))
  {
  }

  /** The time the sweep goes by is that of the last frame since the hello was granted, or of that. */
  lemma LastSeenExactly(s: RelayState, e: Event, x: SocketId)
    requires x in s.data
    ensures x in Step(s, e).data
    ensures Step(s, e).data[x].lastSeenAt
         == if SignOfLife(s, e, x).Some? then SignOfLife(s, e, x).value
            else if e.HelloClaim? && exists d :: Takes(s, e, d, x) then e.now
            else s.data[x].lastSeenAt
  {
    if e.HelloClaim? {
      ClaimMarks(s, e, x);
    } else {
      forall d ensures !Takes(s, e, d, x) { NobodyTakes(s, e, d, x); }
      if HelloStep(e) || e.SocketClosed? || e.RevalidateRow? { HelloOrLossMarks(s, e, x); } else { OtherMarks(s, e, x); }
    }
    hide Takes, Silences, Step;
  }

  // ----- who may speak for a device

  /** Socket `x` said hello `h`, the credential check of that hello then accepted device `d`, and then its route was granted. */
  ghost predicate Proved(es: seq<Event>, d: DeviceId, x: SocketId) {
    exists i, j, k, h :: 0 <= i < j < k < |es| && Framed(es, i, x, h) && es[j] == HelloCheck(h, Some(d)) && Claimed(es, k, h)
  }

  predicate Framed(es: seq<Event>, i: nat, x: SocketId, h: HelloId) {
    i < |es| && es[i].HelloFrame? && es[i].socket == x && es[i].hello == h
  }

  predicate Claimed(es: seq<Event>, k: nat, h: HelloId) {
    k < |es| && es[k].HelloClaim? && es[k].hello == h && es[k].result.Granted?
  }

  ghost predicate Checked(es: seq<Event>, h: HelloId, d: DeviceId, x: SocketId) {
    exists i, j :: 0 <= i < j < |es| && Framed(es, i, x, h) && es[j] == HelloCheck(h, Some(d))
  }

  ghost predicate Traced(s: RelayState, es: seq<Event>) {
    && (forall h :: h in s.hellos && s.hellos[h].Authenticating? ==> exists i: nat :: Framed(es, i, s.hellos[h].socket, h))
    && (forall h :: h in s.hellos && s.hellos[h].ClaimingRoute? ==> Checked(es, h, s.hellos[h].deviceId, s.hellos[h].socket))
    && (forall p :: p in s.vouched ==> Proved(es, p.deviceId, p.socket))
  }

  lemma CheckedLonger(es: seq<Event>, e: Event, h: HelloId, d: DeviceId, x: SocketId)
    requires Checked(es, h, d, x)
    ensures Checked(es + [e], h, d, x)
  {
    var i, j :| 0 <= i < j < |es| && Framed(es, i, x, h) && es[j] == HelloCheck(h, Some(d));
    assert Framed(es + [e], i, x, h) && (es + [e])[j] == HelloCheck(h, Some(d));
  }

  lemma ProvedLonger(es: seq<Event>, e: Event, d: DeviceId, x: SocketId)
    requires Proved(es, d, x)
    ensures Proved(es + [e], d, x)
  {
    var i, j, k, h :| 0 <= i < j < k < |es| && Framed(es, i, x, h) && es[j] == HelloCheck(h, Some(d)) && Claimed(es, k, h);
    assert Framed(es + [e], i, x, h) && (es + [e])[j] == HelloCheck(h, Some(d)) && Claimed(es + [e], k, h);
  }

  /** What a step does to the hellos under way, and whom it vouches for. */
  lemma HellosStep(s: RelayState, e: Event, h: HelloId)
    ensures var n := Step(s, e);
            && (h in n.hellos && n.hellos[h].Authenticating? ==>
                  (h in s.hellos && n.hellos[h] == s.hellos[h])
                  || (e.HelloFrame? && e.hello == h && e.socket == n.hellos[h].socket))
            && (h in n.hellos && n.hellos[h].ClaimingRoute? ==>
                  (h in s.hellos && n.hellos[h] == s.hellos[h])
                  || (h in s.hellos && s.hellos[h] == Authenticating(n.hellos[h].socket) && e == HelloCheck(h, Some(n.hellos[h].deviceId))))
  {
    hide State.DeviceFailed, State.Dispatched, State.TimedOut, State.ResultFrame, IsSnapshotOf;
  }

  lemma VouchedStep(s: RelayState, e: Event, p: Entry)
    requires p in Step(s, e).vouched
    ensures p in s.vouched || Takes(s, e, p.deviceId, p.socket)
  {
    if !e.HelloClaim? { OthersVouchSame(s, e); }
    hide State.DeviceFailed, State.Dispatched, State.TimedOut, State.ResultFrame, IsSnapshotOf;
  }

  lemma TracedStep(s: RelayState, es: seq<Event>, e: Event)
    requires Traced(s, es)
    ensures Traced(Step(s, e), es + [e])
  {
    var n, fs := Step(s, e), es + [e];
    hide Step;
    forall h | h in n.hellos && n.hellos[h].Authenticating? ensures exists i: nat :: Framed(fs, i, n.hellos[h].socket, h) {
      HellosStep(s, e, h);
      if h in s.hellos && n.hellos[h] == s.hellos[h] {
        var i: nat :| Framed(es, i, s.hellos[h].socket, h);
        assert Framed(fs, i, n.hellos[h].socket, h);
      } else {
        assert Framed(fs, |es|, n.hellos[h].socket, h);
      }
    }
    forall h | h in n.hellos && n.hellos[h].ClaimingRoute? ensures Checked(fs, h, n.hellos[h].deviceId, n.hellos[h].socket) {
      HellosStep(s, e, h);
      if h in s.hellos && n.hellos[h] == s.hellos[h] {
        CheckedLonger(es, e, h, n.hellos[h].deviceId, n.hellos[h].socket);
      } else {
        var i: nat :| Framed(es, i, n.hellos[h].socket, h);
        assert Framed(fs, i, n.hellos[h].socket, h) && fs[|es|] == HelloCheck(h, Some(n.hellos[h].deviceId));
      }
    }
    forall p | p in n.vouched ensures Proved(fs, p.deviceId, p.socket) {
      VouchedStep(s, e, p);
      if p in s.vouched {
        ProvedLonger(es, e, p.deviceId, p.socket);
      } else {
        var h := e.hello;
        var i, j :| 0 <= i < j < |es| && Framed(es, i, p.socket, h) && es[j] == HelloCheck(h, Some(p.deviceId));
        assert Framed(fs, i, p.socket, h) && fs[j] == HelloCheck(h, Some(p.deviceId)) && Claimed(fs, |es|, h);
      }
    }
  }

  lemma {:induction false} RunTraced(s: RelayState, past: seq<Event>, es: seq<Event>)
    requires Traced(s, past)
    ensures Traced(Run(s, es), past + es)
    decreases es
  {
    hide Step, Traced;
    if es == [] {
      assert past + es == past;
    } else {
      TracedStep(s, past, es[0]);
      RunTraced(Step(s, es[0]), past + [es[0]], es[1..]);
      assert past + [es[0]] + es[1..] == past + es;
    }
  }

  /**
   * In every run from the start, whichever socket is registered for a device or answers for it has said a hello
   * whose credential was accepted for that very device, and was granted its route.
   */
  lemma SpeakersAreProved(es: seq<Event>, d: DeviceId, x: SocketId)
    ensures var s := Run(INITIAL, es);
            Registered(s.registry, d, x) || (x in s.data && s.data[x].deviceId == Some(d)) ==> Proved(es, d, x)
  {
    RunTraced(INITIAL, [], es);
    assert [] + es == es;
    InitialHolds();
    RunKeepsInv(INITIAL, es);
    hide Run, Proved, State.Valid;
  }

  // ----- hellos, their deadline, and the revalidation pass

  /** The deadline of a socket is disarmed by its granted claim, its close, or the relay cutting it off. */
  predicate Disarms(s: RelayState, e: Event, x: SocketId)
    requires x in s.data
  {
    match e
    case SocketClosed(y) => y == x
    case HelloClaim(h, _, _) => h in s.hellos && s.hellos[h].ClaimingRoute? && s.hellos[h].socket == x
    case HelloDeadline(_) => false
    case Sweep(_) => false
    case _ => AsksToClose(s, e, x)
  }

  /** The hello deadline runs from the open of a socket exactly until that. */
  lemma DeadlineExactly(s: RelayState, e: Event, x: SocketId)
    requires x in s.data
    ensures x in Step(s, e).data && (Step(s, e).data[x].helloTimer <==> s.data[x].helloTimer && !Disarms(s, e, x))
  {
    if e.HelloClaim? {
      ClaimDisarms(s, e, x);
    } else if HelloStep(e) || e.SocketClosed? || e.RevalidateRow? {
      HelloOrLossDisarms(s, e, x);
    } else {
      OtherDisarms(s, e, x);
    }
    hide Disarms, AsksToClose, Step;
  }

  lemma ClaimDisarms(s: RelayState, e: Event, x: SocketId)
    requires x in s.data && e.HelloClaim?
    ensures x in Step(s, e).data && (Step(s, e).data[x].helloTimer <==> s.data[x].helloTimer && !Disarms(s, e, x))
  {
  }

  lemma HelloOrLossDisarms(s: RelayState, e: Event, x: SocketId)
    requires x in s.data && (HelloStep(e) || e.SocketClosed? || e.RevalidateRow?)
    ensures x in Step(s, e).data && (Step(s, e).data[x].helloTimer <==> s.data[x].helloTimer && !Disarms(s, e, x))
  {
    hide State.DeviceFailed;
  }

  lemma OtherDisarms(s: RelayState, e: Event, x: SocketId)
    requires x in s.data && !HelloStep(e) && !e.SocketClosed? && !e.RevalidateRow? && !e.HelloClaim?
    ensures x in Step(s, e).data && (Step(s, e).data[x].helloTimer <==> s.data[x].helloTimer && !Disarms(s, e, x))
  {
    hide State.Dispatched, State.TimedOut, State.ResultFrame, IsSnapshotOf;
  }

  /** A new socket has said nothing: no device, not authenticated, its deadline armed. */
  lemma OpenedExactly(s: RelayState, e: Event, x: SocketId)
    requires x !in s.data
    ensures x in Step(s, e).data <==> e.Open? && e.socket == x
    ensures x in Step(s, e).data ==> Step(s, e).data[x] == SocketData(None, false, e.now, true, false)
  {
    if HelloStep(e) || e.HelloClaim? || e.SocketClosed? || e.RevalidateRow? { HelloOrLossOpens(s, e, x); hide Step; }
    hide State.DeviceFailed, State.Dispatched, State.TimedOut, State.ResultFrame, IsSnapshotOf;
  }

  lemma HelloOrLossOpens(s: RelayState, e: Event, x: SocketId)
    requires x !in s.data && (HelloStep(e) || e.HelloClaim? || e.SocketClosed? || e.RevalidateRow?)
    ensures x !in Step(s, e).data
  {
    hide State.DeviceFailed;
  }

  /** Where a hello stands after an event; none once it is through or refused. */
  function HelloAfter(s: RelayState, e: Event, h: HelloId): Option<Hello> {
    var was := if h in s.hellos then Some(s.hellos[h]) else None;
    match e
    case HelloFrame(x, i, _) =>
      if i == h && was.None? && x in s.data && !s.data[x].authenticated then Some(Authenticating(x)) else was
    case HelloCheck(i, outcome) =>
      if i == h && was.Some? && was.value.Authenticating?
      then (if outcome.Some? then Some(ClaimingRoute(was.value.socket, outcome.value)) else None) else was
    case HelloClaim(i, r, _) =>
      if i == h && was.Some? && was.value.ClaimingRoute? && was.value.socket in s.data
      then (if r.Granted? then Some(Announcing(was.value.socket, was.value.deviceId)) else None) else was
    case HelloAnnounce(i, _) => if i == h && was.Some? && was.value.Announcing? then None else was
    case _ => was
  }

  /** A hello goes from its frame over the credential check and the route claim to the presence write, each once. */
  lemma HelloExactly(s: RelayState, e: Event, h: HelloId)
    ensures (if h in Step(s, e).hellos then Some(Step(s, e).hellos[h]) else None) == HelloAfter(s, e, h)
  {
    if HelloStep(e) || e.HelloClaim? {
      HelloMoves(s, e, h);
    } else {
      OthersMoveNoHello(s, e);
    }
    hide Step;
  }

  lemma HelloMoves(s: RelayState, e: Event, h: HelloId)
    requires HelloStep(e) || e.HelloClaim?
    ensures (if h in Step(s, e).hellos then Some(Step(s, e).hellos[h]) else None) == HelloAfter(s, e, h)
  {
  }

  lemma OthersMoveNoHello(s: RelayState, e: Event)
    requires !HelloStep(e) && !e.HelloClaim?
    ensures Step(s, e).hellos == s.hellos
  {
    hide State.DeviceFailed, State.Dispatched, State.TimedOut, State.ResultFrame, IsSnapshotOf;
  }

  function RowsRead(es: seq<Event>): nat {
    if es == [] then 0 else (if es[0].RevalidateRow? then 1 else 0) + RowsRead(es[1..])
  }

  lemma PassStep(s: RelayState, e: Event)
    requires s.revalidation.Some? && s.revalidation.value != []
    ensures Step(s, e).revalidation
         == if !e.RevalidateRow? then s.revalidation
            else if |s.revalidation.value| == 1 then None else Some(s.revalidation.value[1..])
  {
    hide State.DeviceFailed, State.Dispatched, State.TimedOut, State.ResultFrame, IsSnapshotOf;
  }

  /**
   * A pass walks its whole snapshot in order, one row at a time, whatever happens meanwhile; calls of revalidate()
   * during it start nothing.
   */
  lemma {:induction false} PassWalksItsSnapshot(s: RelayState, es: seq<Event>)
    requires s.revalidation.Some? && RowsRead(es) < |s.revalidation.value|
    ensures Run(s, es).revalidation == Some(s.revalidation.value[RowsRead(es)..])
    decreases es
  {
    hide Step;
    if es != [] {
      PassStep(s, es[0]);
      PassWalksItsSnapshot(Step(s, es[0]), es[1..]);
      if es[0].RevalidateRow? {
        assert s.revalidation.value[1..][RowsRead(es[1..])..] == s.revalidation.value[RowsRead(es)..];
      }
    }
  }

  /** With its last row read a pass is over, and only then another one starts, over the sockets registered then. */
  lemma PassEndsAndStarts(s: RelayState, e: Event)
    requires s.revalidation.None? || |s.revalidation.value| == 1
    ensures e.RevalidateRow? ==> Step(s, e).revalidation.None?
    ensures s.revalidation.None? ==>
              Step(s, e).revalidation == if e.RevalidateBegin? && IsSnapshotOf(s.registry, e.snapshot) && e.snapshot != [] then Some(e.snapshot) else None
  {
    hide State.DeviceFailed, State.Dispatched, State.TimedOut, State.ResultFrame, IsSnapshotOf;
  }
}
