/**
 * The singleton lease of apps/gateway/src/store/gateway-lease.ts: the process-side object, and any
 * number of such processes racing for one durable row on one shared clock.
 */
module GatewayLease {
  import opened Prelude

  const GATEWAY_LEASE_TTL_MS := 30_000

  datatype LossReason = NotRenewed | Expired

  /** What the control plane sent back: nothing usable, or a verdict with an expiry. */
  datatype Response = Rejected | Malformed | Verdict(ok: bool, expiresAt: int)

  /** The variables of createGatewayLease; `expiryWatch` holds the time its timer is due. */
  datatype Local = Local(
    expiresAt: int, everAcquired: bool, active: bool, stopped: bool, loss: Option<LossReason>,
    monitor: bool, expiryWatch: Option<int>, renewing: bool)
  {
    predicate Serving() {
      active && !stopped && loss.None?
    }

    predicate ValidAt(now: int) {
      Serving() && now < expiresAt
    }

    /** What `acquire` goes by: a request is made unless stopped or, as far as it can tell, still holding. */
    predicate AsksForLease(now: int) {
      !stopped && !(active && now < expiresAt)
    }

    function MarkedLost(reason: LossReason): Local {
      if stopped || loss.Some? then this
      else this.(loss := Some(reason), active := false, monitor := false, expiryWatch := None)
    }

    function Armed(now: int): Local {
      if !Serving() then this else this.(expiryWatch := Some(now + Max(0, expiresAt - now) + 1))
    }

    /** The continuation of `acquire` after its await. */
    function Acquired(now: int, r: Response): Local {
      if r.Verdict? && r.ok && r.expiresAt > now
      then this.(expiresAt := r.expiresAt, everAcquired := true, active := true).Armed(now)
      else this
    }

    /** The continuation of `renewNow` after its await, with the `finally` that ends it. */
    function Renewed(now: int, r: Response): Local {
      var l := this.(renewing := false);
      if stopped && !r.Rejected? then l
      else if !r.Verdict? then (if now >= expiresAt then l.MarkedLost(Expired) else l)
      else if !r.ok then l.MarkedLost(NotRenewed)
      else if r.expiresAt <= now then l.MarkedLost(Expired)
      else l.(expiresAt := r.expiresAt).Armed(now)
    }

    function WatchFired(now: int): Local {
      var l := this.(expiryWatch := None);
      if !Serving() then l
      else if now >= expiresAt then l.MarkedLost(Expired)
      else l.Armed(now)
    }

    function Stopped(): Local {
      if stopped then this
      else this.(stopped := true, active := false, monitor := false, expiryWatch := None)
    }
  }

  const FRESH_LOCAL := Local(0, false, false, false, None, false, None, false)

  class GatewayLease {
    var expiresAt: int
    var everAcquired: bool
    var active: bool
    var stopped: bool
    var loss: Option<LossReason>
    var monitor: bool
    var expiryWatch: Option<int>
    var inFlight: bool

    function State(): Local reads this {
      Local(expiresAt, everAcquired, active, stopped, loss, monitor, expiryWatch, inFlight)
    }

    constructor ()
      ensures State() == FRESH_LOCAL
    {
      expiresAt, everAcquired, active, stopped, loss := 0, false, false, false, None;
      monitor, expiryWatch, inFlight := false, None, false;
    }

    method ClearTimers()
      modifies this`monitor, this`expiryWatch
      ensures !monitor && expiryWatch == None
    {
      monitor := false;
      expiryWatch := None;
    }

    method MarkLost(reason: LossReason)
      modifies this
      ensures State() == old(State()).MarkedLost(reason)
    {
      if stopped || loss.Some? {
        return;
      }
      loss := Some(reason);
      active := false;
      ClearTimers();
    }

    method ArmExpiryWatch(now: int)
      modifies this`expiryWatch
      ensures State() == old(State()).Armed(now)
    {
      if stopped || loss.Some? || !active {
        return;
      }
      var delay := Max(0, expiresAt - now) + 1;
      expiryWatch := Some(now + delay);
    }

    /**
     * `acquire` up to its await: an error, an immediate return, or a request. While no loss was recorded an
     * immediate return means that the process is valid.
     */
    method AcquireBegins(now: int) returns (failed: bool, request: bool)
      ensures failed <==> stopped
      ensures request <==> State().AsksForLease(now)
      ensures State().ValidAt(now) ==> !failed && !request
      ensures loss.None? && !failed && !request ==> State().ValidAt(now)
    {
      if stopped {
        return true, false;
      }
      if active && now < expiresAt {
        return false, false;
      }
      failed, request := false, true;
    }

    method AcquireEnds(now: int, r: Response) returns (failed: bool)
      modifies this
      ensures State() == old(State()).Acquired(now, r)
      ensures failed <==> !(r.Verdict? && r.ok && r.expiresAt > now)
    {
      if !r.Verdict? || !r.ok {
        return true;
      }
      if r.expiresAt <= now {
        return true;
      }
      expiresAt := r.expiresAt;
      everAcquired := true;
      active := true;
      ArmExpiryWatch(now);
      failed := false;
    }

    method Start(now: int) returns (failed: bool)
      modifies this`monitor
      ensures failed <==> !State().ValidAt(now)
      ensures monitor == (old(monitor) || !failed)
    {
      var valid := IsValid(now);
      if !valid {
        return true;
      }
      monitor := true;
      failed := false;
    }

    /** `renewNow` up to its await: one renewal at a time, and none unless serving. */
    method RenewBegins() returns (request: bool)
      modifies this`inFlight
      ensures request <==> old(State().Serving()) && !old(inFlight)
      ensures State() == old(State()).(renewing := old(inFlight) || request)
    {
      if stopped || loss.Some? || !active || inFlight {
        return false;
      }
      inFlight := true;
      request := true;
    }

    method RenewEnds(now: int, r: Response) returns (renewed: bool)
      modifies this
      ensures State() == old(State()).Renewed(now, r)
      ensures renewed <==> !old(stopped) && r.Verdict? && r.ok && r.expiresAt > now
      ensures renewed ==> expiresAt == r.expiresAt && (old(State().Serving()) ==> expiryWatch == Some(r.expiresAt + 1))
    {
      inFlight := false;
      renewed := false;
      if r.Rejected? {
        if now >= expiresAt {
          MarkLost(Expired);
        }
      } else if !stopped {
        if r.Malformed? {
          if now >= expiresAt {
            MarkLost(Expired);
          }
        } else if !r.ok {
          MarkLost(NotRenewed);
        } else if r.expiresAt <= now {
          MarkLost(Expired);
        } else {
          expiresAt := r.expiresAt;
          ArmExpiryWatch(now);
          renewed := true;
        }
      }
    }

    method ExpiryWatchFires(now: int)
      modifies this
      ensures State() == old(State()).WatchFired(now)
    {
      expiryWatch := None;
      if stopped || loss.Some? || !active {
        return;
      }
      if now >= expiresAt {
        MarkLost(Expired);
      } else {
        ArmExpiryWatch(now);
      }
    }

    method IsValid(now: int) returns (valid: bool)
      ensures valid == State().ValidAt(now)
    {
      valid := active && !stopped && loss.None? && now < expiresAt;
    }

    method StopBegins() returns (release: bool)
      modifies this
      ensures State() == old(State()).Stopped()
      ensures release <==> !old(stopped) && old(everAcquired) && old(loss).None?
    {
      if stopped {
        return false;
      }
      stopped := true;
      ClearTimers();
      release := everAcquired && loss.None?;
      active := false;
    }
  }

  // ----- N processes, one row

  type Pid = nat
  type CallId = nat

  datatype Row = Row(holder: Pid, expiresAt: int)

  datatype Kind = Acquire | Renew | Release

  /** A mutation under way: not yet served, or served (or failed) with its response still travelling. */
  datatype Call = Sent(p: Pid, kind: Kind) | Answered(p: Pid, kind: Kind, response: Response)

  datatype System = System(now: int, row: Option<Row>, procs: map<Pid, Local>, calls: map<CallId, Call>)

  /**
   * Serve and Fail decide a request that is still travelling; LoseResponse loses a verdict on its way
   * back; Deliver hands the response to the continuation. `lenient` is the control plane's choice on
   * renewing a row that is the caller's own but expired. A disabled event changes nothing.
   */
  datatype Event =
    | Tick(to: int)
    | BeginAcquire(p: Pid, id: CallId)
    | BeginRenew(p: Pid, id: CallId)
    | BeginStop(p: Pid, id: CallId)
    | StartMonitor(p: Pid)
    | WatchFires(p: Pid)
    | Serve(id: CallId, lenient: bool)
    | Fail(id: CallId)
    | LoseResponse(id: CallId, malformed: bool)
    | Deliver(id: CallId)

  /** The row's own contract: what a served mutation does, and what it answers. */
  function Served(now: int, row: Option<Row>, p: Pid, kind: Kind, lenient: bool): (Option<Row>, Response) {
    var granted := Row(p, now + GATEWAY_LEASE_TTL_MS);
    match kind
    case Acquire =>
      if row.None? || row.value.expiresAt <= now || row.value.holder == p
      then (Some(granted), Verdict(true, granted.expiresAt))
      else (row, Verdict(false, row.value.expiresAt))
    case Renew =>
      if row.Some? && row.value.holder == p && (lenient || now < row.value.expiresAt)
      then (Some(granted), Verdict(true, granted.expiresAt))
      else (row, Verdict(false, now))
    case Release =>
      if row.Some? && row.value.holder == p then (None, Verdict(true, now)) else (row, Verdict(false, now))
  }

  function Delivered(s: System, c: Call): Local
    requires c.Answered? && c.p in s.procs
  {
    match c.kind
    case Acquire => s.procs[c.p].Acquired(s.now, c.response)
    case Renew => s.procs[c.p].Renewed(s.now, c.response)
    case Release => s.procs[c.p]
  }

  function Step(s: System, e: Event): System {
    match e
    case Tick(to) => if to >= s.now then s.(now := to) else s
    case BeginAcquire(p, id) =>
      if p in s.procs && id !in s.calls && s.procs[p].AsksForLease(s.now)
      then s.(calls := s.calls[id := Sent(p, Acquire)]) else s
    case BeginRenew(p, id) =>
      if p in s.procs && id !in s.calls && s.procs[p].Serving() && !s.procs[p].renewing
      then s.(calls := s.calls[id := Sent(p, Renew)], procs := s.procs[p := s.procs[p].(renewing := true)]) else s
    case BeginStop(p, id) =>
      if p in s.procs && id !in s.calls && !s.procs[p].stopped then
        var l := s.procs[p];
        s.(procs := s.procs[p := l.Stopped()],
           calls := if l.everAcquired && l.loss.None? then s.calls[id := Sent(p, Release)] else s.calls)
      else s
    case StartMonitor(p) =>
      if p in s.procs && s.procs[p].ValidAt(s.now)
      then s.(procs := s.procs[p := s.procs[p].(monitor := true)]) else s
    case WatchFires(p) =>
      if p in s.procs && s.procs[p].expiryWatch.Some?
      then s.(procs := s.procs[p := s.procs[p].WatchFired(s.now)]) else s
    case Serve(id, lenient) =>
      if id in s.calls && s.calls[id].Sent? then
        var c := s.calls[id];
        var (row, response) := Served(s.now, s.row, c.p, c.kind, lenient);
        s.(row := row, calls := s.calls[id := Answered(c.p, c.kind, response)])
      else s
    case Fail(id) =>
      if id in s.calls && s.calls[id].Sent?
      then s.(calls := s.calls[id := Answered(s.calls[id].p, s.calls[id].kind, Rejected)]) else s
    case LoseResponse(id, malformed) =>
      if id in s.calls && s.calls[id].Answered?
      then s.(calls := s.calls[id := s.calls[id].(response := if malformed then Malformed else Rejected)]) else s
    case Deliver(id) =>
      if id in s.calls && s.calls[id].Answered? && s.calls[id].p in s.procs
      then s.(procs := s.procs[s.calls[id].p := Delivered(s, s.calls[id])], calls := s.calls - {id}) else s
  }

  function Run(s: System, es: seq<Event>): System
    decreases es
  {
    if es == [] then s else Run(Step(s, es[0]), es[1..])
  }

  /** Any set of fresh processes, any starting clock, and whatever row an earlier deployment left behind. */
  ghost predicate Initial(s: System) {
    s.calls == map[] && (forall p :: p in s.procs ==> s.procs[p] == FRESH_LOCAL)
  }

  // ----- the invariant

  /** While `e` lies ahead, the row is p's and runs at least to `e`. */
  predicate Covered(s: System, p: Pid, e: int) {
    e <= s.now + GATEWAY_LEASE_TTL_MS && (s.now < e ==> s.row.Some? && s.row.value.holder == p && s.row.value.expiresAt >= e)
  }

  predicate Granting(c: Call) {
    c.Answered? && !c.kind.Release? && c.response.Verdict? && c.response.ok
  }

  ghost predicate CallsCovered(s: System) {
    forall id :: id in s.calls && s.calls[id].p in s.procs && !s.procs[s.calls[id].p].stopped ==>
      && (Granting(s.calls[id]) ==> Covered(s, s.calls[id].p, s.calls[id].response.expiresAt))
      && !s.calls[id].kind.Release?
  }

  ghost predicate ProcsCovered(s: System) {
    forall p :: p in s.procs && s.procs[p].active && !s.procs[p].stopped ==> Covered(s, p, s.procs[p].expiresAt)
  }

  /** A process that serves has its watch set for just after the expiry it trusts, and only such a process renews. */
  predicate Watched(l: Local) {
    && l.expiryWatch == (if l.Serving() then Some(l.expiresAt + 1) else None)
    && (l.monitor ==> l.Serving())
  }

  ghost predicate AllWatched(s: System) {
    forall p :: p in s.procs ==> Watched(s.procs[p])
  }

  /** `inFlight` holds exactly while one renewal of the process is under way. */
  ghost predicate RenewalsSingle(s: System) {
    && (forall id :: id in s.calls && s.calls[id].kind.Renew? ==> s.calls[id].p in s.procs && s.procs[s.calls[id].p].renewing)
    && (forall i, j :: i in s.calls && j in s.calls && s.calls[i].kind.Renew? && s.calls[j].kind.Renew? && s.calls[i].p == s.calls[j].p
          ==> i == j)
  }

  ghost predicate Inv(s: System) {
    CallsCovered(s) && ProcsCovered(s) && AllWatched(s) && RenewalsSingle(s)
  }

  // ----- every step keeps it

  /** Serving one process's request never takes the row away from a process that is still covered. */
  lemma ServeKeepsCover(s: System, e: Event, p: Pid, x: int)
    requires e.Serve? && e.id in s.calls && s.calls[e.id].Sent?
    requires Covered(s, p, x) && (p == s.calls[e.id].p ==> !s.calls[e.id].kind.Release?)
    ensures Covered(Step(s, e), p, x)
  {
  }

  lemma KeepsCallsCovered(s: System, e: Event)
    requires CallsCovered(s)
    ensures CallsCovered(Step(s, e))
  {
    var t := Step(s, e);
    if e.Serve? && e.id in s.calls && s.calls[e.id].Sent? {
      forall id | id in t.calls && t.calls[id].p in t.procs && !t.procs[t.calls[id].p].stopped && Granting(t.calls[id])
        ensures Covered(t, t.calls[id].p, t.calls[id].response.expiresAt)
      {
        if id != e.id {
          ServeKeepsCover(s, e, s.calls[id].p, s.calls[id].response.expiresAt);
        }
      }
    }
  }

  lemma KeepsProcsCovered(s: System, e: Event)
    requires CallsCovered(s) && ProcsCovered(s)
    ensures ProcsCovered(Step(s, e))
  {
    if e.Serve? && e.id in s.calls && s.calls[e.id].Sent? {
      forall p | p in s.procs && s.procs[p].active && !s.procs[p].stopped
        ensures Covered(Step(s, e), p, s.procs[p].expiresAt)
      {
        ServeKeepsCover(s, e, p, s.procs[p].expiresAt);
      }
    } else if e.Deliver? {
      DeliverKeepsProcsCovered(s, e);
      hide Step, ProcsCovered;
    }
  }

  lemma DeliverKeepsProcsCovered(s: System, e: Event)
    requires CallsCovered(s) && ProcsCovered(s) && e.Deliver?
    ensures ProcsCovered(Step(s, e))
  {
  }

  lemma KeepsWatched(s: System, e: Event)
    requires AllWatched(s)
    ensures AllWatched(Step(s, e))
  {
    if e.Deliver? {
      DeliverKeepsWatched(s, e);
      hide Step;
    }
  }

  lemma DeliverKeepsWatched(s: System, e: Event)
    requires AllWatched(s) && e.Deliver?
    ensures AllWatched(Step(s, e))
  {
  }

  lemma KeepsRenewalsSingle(s: System, e: Event)
    requires RenewalsSingle(s)
    ensures RenewalsSingle(Step(s, e))
  {
  }

  lemma {:induction false} RunKeepsInv(s: System, es: seq<Event>)
    requires Inv(s)
    ensures Inv(Run(s, es))
    decreases es
  {
    hide Step, CallsCovered, ProcsCovered, AllWatched, RenewalsSingle;
    if es != [] {
      KeepsCallsCovered(s, es[0]);
      KeepsProcsCovered(s, es[0]);
      KeepsWatched(s, es[0]);
      KeepsRenewalsSingle(s, es[0]);
      RunKeepsInv(Step(s, es[0]), es[1..]);
    }
  }

  lemma InitialInv(s: System, es: seq<Event>)
    requires Initial(s)
    ensures Inv(Run(s, es))
  {
    RunKeepsInv(s, es);
  }

  // ----- what that is worth

  /**
   * At most one process serves, whatever the interleaving of requests, verdicts, lost and delayed
   * responses, timers, shutdowns and time.
   */
  lemma AtMostOneServes(s: System, es: seq<Event>, p: Pid, q: Pid)
    requires Initial(s) && p in Run(s, es).procs && q in Run(s, es).procs
    requires Run(s, es).procs[p].ValidAt(Run(s, es).now) && Run(s, es).procs[q].ValidAt(Run(s, es).now)
    ensures p == q
    ensures Run(s, es).row.Some? && Run(s, es).row.value.holder == p
  {
    InitialInv(s, es);
  }

  /** A process that was stopped or has lost its lease never serves again. */
  lemma {:induction false} NeverAgain(s: System, es: seq<Event>, p: Pid)
    requires p in s.procs && (s.procs[p].stopped || s.procs[p].loss.Some?)
    ensures p in Run(s, es).procs && !Run(s, es).procs[p].ValidAt(Run(s, es).now)
    ensures s.procs[p].loss.Some? ==> Run(s, es).procs[p].loss == s.procs[p].loss
    decreases es
  {
    if es != [] {
      LossStays(s, es[0], p);
      NeverAgain(Step(s, es[0]), es[1..], p);
    }
  }

  lemma LossStays(s: System, e: Event, p: Pid)
    requires p in s.procs
    ensures p in Step(s, e).procs
    ensures s.procs[p].stopped ==> Step(s, e).procs[p].stopped
    ensures s.procs[p].loss.Some? ==> Step(s, e).procs[p].loss == s.procs[p].loss
  {
  }

  /**
   * A serving process always has its expiry watch set for one millisecond after the expiry it relies
   * on; when that timer runs at or after its time, the process marks itself lost.
   */
  lemma ServingIsWatched(s: System, es: seq<Event>, p: Pid)
    requires Initial(s) && p in Run(s, es).procs && Run(s, es).procs[p].Serving()
    ensures var t := Run(s, es);
            && t.procs[p].expiryWatch == Some(t.procs[p].expiresAt + 1)
            && (t.now >= t.procs[p].expiresAt + 1 ==> Step(t, WatchFires(p)).procs[p].loss == Some(Expired))
  {
    InitialInv(s, es);
  }

  /** A process that does not serve, stopped and lost ones included, has no timer left. */
  lemma IdleHasNoTimers(s: System, es: seq<Event>, p: Pid)
    requires Initial(s) && p in Run(s, es).procs && !Run(s, es).procs[p].Serving()
    ensures Run(s, es).procs[p].expiryWatch == None && !Run(s, es).procs[p].monitor
  {
    InitialInv(s, es);
  }

  /** At most one renewal of a process is under way, and only while its `inFlight` says so. */
  lemma OneRenewalAtATime(s: System, es: seq<Event>, i: CallId, j: CallId)
    requires Initial(s) && i in Run(s, es).calls && j in Run(s, es).calls
    requires Run(s, es).calls[i].kind.Renew? && Run(s, es).calls[j].kind.Renew?
    requires Run(s, es).calls[i].p == Run(s, es).calls[j].p
    ensures i == j
    ensures Run(s, es).calls[i].p in Run(s, es).procs && Run(s, es).procs[Run(s, es).calls[i].p].renewing
  {
    InitialInv(s, es);
  }

  /** Process 0 asks for the row, which is its own or nobody's, and hears back. */
  function Acquiring(id: CallId): seq<Event> {
    [BeginAcquire(0, id), Serve(id, true), Deliver(id)]
  }

  lemma RunConcat(s: System, es: seq<Event>, fs: seq<Event>)
    ensures Run(s, es + fs) == Run(Run(s, es), fs)
    decreases |es|
  {
    if es == [] {
      assert es + fs == fs;
    } else {
      assert (es + fs)[1..] == es[1..] + fs;
      RunConcat(Step(s, es[0]), es[1..], fs);
    }
  }

  lemma AcquireRun(s: System, id: CallId)
    requires s.procs.Keys == {0} && s.calls == map[] && s.procs[0].AsksForLease(s.now)
    requires s.row.None? || s.row.value.holder == 0
    ensures var until := s.now + GATEWAY_LEASE_TTL_MS;
            Run(s, Acquiring(id)) == System(s.now, Some(Row(0, until)), map[0 := s.procs[0].Acquired(s.now, Verdict(true, until))], map[])
  {
    var until := s.now + GATEWAY_LEASE_TTL_MS;
    hide Local.Acquired, Local.AsksForLease;
    var a := Step(s, BeginAcquire(0, id));
    assert a == s.(calls := map[id := Sent(0, Acquire)]);
    var b := Step(a, Serve(id, true));
    assert b == s.(row := Some(Row(0, until)), calls := map[id := Answered(0, Acquire, Verdict(true, until))]);
    var c := Step(b, Deliver(id));
    assert c.calls == map[] && c.procs == map[0 := s.procs[0].Acquired(s.now, Verdict(true, until))];
    var es := Acquiring(id);
    assert es[1..] == [Serve(id, true), Deliver(id)] && es[1..][1..] == [Deliver(id)] && [Deliver(id)][1..] == [];
    assert Run(b, [Deliver(id)]) == c;
    assert Run(a, es[1..]) == Run(b, [Deliver(id)]);
  }

  /** The lease can be had: a lone process that acquires and hears back serves until its expiry. */
  lemma AcquireServes(now: int, id: CallId)
    ensures var s := System(now, None, map[0 := FRESH_LOCAL], map[]);
            0 in Run(s, Acquiring(id)).procs && Run(s, Acquiring(id)).procs[0].ValidAt(now + GATEWAY_LEASE_TTL_MS - 1)
  {
    AcquireRun(System(now, None, map[0 := FRESH_LOCAL], map[]), id);
    hide Run, Acquiring, Step;
  }

  /**
   * After a loss an immediate return means nothing: a process that lost its lease and is granted it again
   * holds the row, asks for nothing, and never serves.
   */
  lemma LostHolderIsQuiet(l: Local, now: int, r: Response)
    requires l.loss.Some? && !l.stopped && r.Verdict? && r.ok && r.expiresAt > now
    ensures !l.Acquired(now, r).AsksForLease(now) && !l.Acquired(now, r).ValidAt(now)
  {
  }

  lemma WatchRun(s: System, later: int)
    requires s.procs.Keys == {0} && s.now <= later && s.procs[0].expiryWatch.Some?
    ensures Run(s, [Tick(later), WatchFires(0)]) == s.(now := later, procs := map[0 := s.procs[0].WatchFired(later)])
  {
    hide Local.WatchFired;
    var a := Step(s, Tick(later));
    var es := [Tick(later), WatchFires(0)];
    assert es[1..] == [WatchFires(0)] && [WatchFires(0)][1..] == [];
    assert Step(a, WatchFires(0)).procs == map[0 := s.procs[0].WatchFired(later)];
    assert Run(a, es[1..]) == Step(a, WatchFires(0));
  }

  /** A process acquires, is stalled past its expiry, loses the lease to its watch, and acquires the row again. */
  function LossAndReturn(now: int): seq<Event> {
    Acquiring(1) + ([Tick(now + GATEWAY_LEASE_TTL_MS + 1), WatchFires(0)] + Acquiring(2))
  }

  /** That run ends with the row held by a process that is not valid and whose `acquire` asks for nothing. */
  lemma LostHolderReached(now: int)
    ensures var s := Run(System(now, None, map[0 := FRESH_LOCAL], map[]), LossAndReturn(now));
            && s.row == Some(Row(0, s.now + GATEWAY_LEASE_TTL_MS)) && 0 in s.procs
            && s.procs[0].loss == Some(Expired) && !s.procs[0].stopped
            && !s.procs[0].ValidAt(s.now) && !s.procs[0].AsksForLease(s.now)
  {
    var s := System(now, None, map[0 := FRESH_LOCAL], map[]);
    var later := now + GATEWAY_LEASE_TTL_MS + 1;
    var held := FRESH_LOCAL.Acquired(now, Verdict(true, now + GATEWAY_LEASE_TTL_MS));
    var lost := held.WatchFired(later);
    assert held.Serving() && held.expiryWatch.Some? && held.expiresAt < later;
    assert lost.loss == Some(Expired) && !lost.active && !lost.stopped;
    LostHolderIsQuiet(lost, later, Verdict(true, later + GATEWAY_LEASE_TTL_MS));
    hide Local.Acquired, Local.WatchFired, Local.ValidAt, Step, Run, Acquiring;
    var row := Some(Row(0, now + GATEWAY_LEASE_TTL_MS));
    var rest := [Tick(later), WatchFires(0)] + Acquiring(2);
    RunConcat(s, Acquiring(1), rest);
    RunConcat(Run(s, Acquiring(1)), [Tick(later), WatchFires(0)], Acquiring(2));
    AcquireRun(s, 1);
    WatchRun(System(now, row, map[0 := held], map[]), later);
    AcquireRun(System(later, row, map[0 := lost], map[]), 2);
  }

  // ----- what each response does to its process

  /**
   * The verdict on a renewal decides for a serving process: extended to the new expiry and watched just past it;
   * lost as not renewed; lost as expired. Without a usable verdict it serves on to the expiry it has, and no longer.
   */
  lemma RenewalDelivered(s: System, es: seq<Event>, id: CallId)
    requires Initial(s)
    requires var t := Run(s, es); id in t.calls && t.calls[id].Answered? && t.calls[id].kind.Renew?
    requires var t := Run(s, es); t.calls[id].p in t.procs && t.procs[t.calls[id].p].Serving()
    ensures var t := Run(s, es);
            var c, n := t.calls[id], Step(t, Deliver(id));
            var r, was := c.response, t.procs[c.p];
            && c.p in n.procs && !n.procs[c.p].renewing
            && (forall q :: q in t.procs && q != c.p ==> q in n.procs && n.procs[q] == t.procs[q])
            && (r.Verdict? && r.ok && r.expiresAt > t.now ==>
                  n.procs[c.p].Serving() && n.procs[c.p].expiresAt == r.expiresAt
                  && n.procs[c.p].expiryWatch == Some(r.expiresAt + 1))
            && (r.Verdict? && r.ok && r.expiresAt <= t.now ==> n.procs[c.p].loss == Some(Expired))
            && (r.Verdict? && !r.ok ==> n.procs[c.p].loss == Some(NotRenewed))
            && (!r.Verdict? && t.now >= was.expiresAt ==> n.procs[c.p].loss == Some(Expired))
            && (!r.Verdict? && t.now < was.expiresAt ==>
                  n.procs[c.p].ValidAt(t.now) && n.procs[c.p].expiresAt == was.expiresAt
                  && n.procs[c.p].expiryWatch == Some(was.expiresAt + 1))
  {
    InitialInv(s, es);
    hide Run;
  }

  /** The verdict on an acquisition: granted and unexpired, it makes an owner that may serve serve; nothing else moves it. */
  lemma AcquisitionDelivered(s: System, id: CallId)
    requires id in s.calls && s.calls[id].Answered? && s.calls[id].kind.Acquire? && s.calls[id].p in s.procs
    ensures var c, n := s.calls[id], Step(s, Deliver(id));
            var r, was := c.response, s.procs[c.p];
            && c.p in n.procs && n.procs[c.p].loss == was.loss && n.procs[c.p].stopped == was.stopped
            && (r.Verdict? && r.ok && r.expiresAt > s.now ==>
                  n.procs[c.p].everAcquired && n.procs[c.p].expiresAt == r.expiresAt
                  && (was.loss.None? && !was.stopped ==>
                        n.procs[c.p].ValidAt(s.now) && n.procs[c.p].expiryWatch == Some(r.expiresAt + 1)))
            && (!(r.Verdict? && r.ok && r.expiresAt > s.now) ==> n.procs[c.p] == was)
  {
  }

  /** A process that acquires and later renews in time serves up to the last millisecond of the renewed lease. */
  lemma RenewalServes(now: int, later: int, id: CallId, lenient: bool)
    requires now <= later < now + GATEWAY_LEASE_TTL_MS
    ensures var s := Run(System(now, None, map[0 := FRESH_LOCAL], map[]), Acquiring(id) + ([Tick(later)] + Renewing(id, lenient)));
            0 in s.procs && s.procs[0].ValidAt(later + GATEWAY_LEASE_TTL_MS - 1) && !s.procs[0].ValidAt(later + GATEWAY_LEASE_TTL_MS)
  {
    var s := System(now, None, map[0 := FRESH_LOCAL], map[]);
    var until := now + GATEWAY_LEASE_TTL_MS;
    var held := FRESH_LOCAL.Acquired(now, Verdict(true, until));
    assert held.Serving() && held.expiresAt == until && !held.renewing;
    AcquireRun(s, id);
    RunConcat(s, Acquiring(id), [Tick(later)] + Renewing(id, lenient));
    var a := System(now, Some(Row(0, until)), map[0 := held], map[]);
    RunConcat(a, [Tick(later)], Renewing(id, lenient));
    hide Local.Acquired, Acquiring;
    assert [Tick(later)][1..] == [];
    assert Run(a, [Tick(later)]) == a.(now := later);
    RenewRun(a.(now := later), id, lenient);
    hide Run, Step;
  }

  /** Process 0 asks for a renewal of the row it holds, and hears back. */
  function Renewing(id: CallId, lenient: bool): seq<Event> {
    [BeginRenew(0, id), Serve(id, lenient), Deliver(id)]
  }

  lemma RenewRun(s: System, id: CallId, lenient: bool)
    requires s.procs.Keys == {0} && s.calls == map[] && s.procs[0].Serving() && !s.procs[0].renewing
    requires s.row.Some? && s.row.value.holder == 0 && s.now < s.row.value.expiresAt
    ensures var n := Run(s, Renewing(id, lenient)); var until := s.now + GATEWAY_LEASE_TTL_MS;
            n.procs.Keys == {0} && n.procs[0].Serving() && n.procs[0].expiresAt == until && n.row == Some(Row(0, until))
  {
    var until := s.now + GATEWAY_LEASE_TTL_MS;
    var a := Step(s, BeginRenew(0, id));
    assert a == s.(calls := map[id := Sent(0, Renew)], procs := map[0 := s.procs[0].(renewing := true)]);
    var b := Step(a, Serve(id, lenient));
    assert b == a.(row := Some(Row(0, until)), calls := map[id := Answered(0, Renew, Verdict(true, until))]);
    var c := Step(b, Deliver(id));
    assert c.procs == map[0 := b.procs[0].Renewed(s.now, Verdict(true, until))];
    assert c.procs[0].Serving() && c.procs[0].expiresAt == until && c.row == b.row;
    var es := Renewing(id, lenient);
    assert es[1..] == [Serve(id, lenient), Deliver(id)] && es[1..][1..] == [Deliver(id)] && [Deliver(id)][1..] == [];
    assert Run(b, [Deliver(id)]) == c;
    assert Run(a, es[1..]) == Run(b, [Deliver(id)]);
  }

  /** Stopping gives the row back at once: a holder that stops leaves it free as soon as its release is served. */
  lemma StopFreesTheRow(s: System, p: Pid, id: CallId, lenient: bool)
    requires p in s.procs && id !in s.calls && !s.procs[p].stopped && s.procs[p].everAcquired && s.procs[p].loss.None?
    requires s.row.Some? && s.row.value.holder == p
    ensures Step(Step(s, BeginStop(p, id)), Serve(id, lenient)).row == None
    ensures p in Step(s, BeginStop(p, id)).procs && !Step(s, BeginStop(p, id)).procs[p].ValidAt(s.now)
  {
  }

  /** The request an event makes, if it makes one. */
  function RequestOf(s: System, e: Event): Option<Kind> {
    match e
    case BeginAcquire(p, _) =>
      if p in s.procs && !s.procs[p].stopped && !(s.procs[p].active && s.now < s.procs[p].expiresAt) then Some(Acquire) else None
    case BeginRenew(p, _) =>
      if p in s.procs && s.procs[p].active && !s.procs[p].stopped && s.procs[p].loss.None? && !s.procs[p].renewing
      then Some(Renew) else None
    case BeginStop(p, _) =>
      if p in s.procs && !s.procs[p].stopped && s.procs[p].everAcquired && s.procs[p].loss.None? then Some(Release) else None
    case _ => None
  }

  /**
   * The control plane is asked for exactly this: the lease, by a process that neither stopped nor trusts the one it
   * has; its renewal, one at a time, while serving; its release, by a process that stops while the lease is not lost.
   */
  lemma RequestsExactly(s: System, e: Event, id: CallId)
    requires id !in s.calls
    ensures id in Step(s, e).calls
       <==> (e.BeginAcquire? || e.BeginRenew? || e.BeginStop?) && e.id == id && RequestOf(s, e).Some?
    ensures id in Step(s, e).calls ==> Step(s, e).calls[id] == Sent(e.p, RequestOf(s, e).value)
  {
  }

  /** Renewals are driven exactly from a start while valid to the end of serving. */
  lemma MonitorExactly(s: System, e: Event, p: Pid)
    requires p in s.procs && Watched(s.procs[p])
    ensures p in Step(s, e).procs
    ensures Step(s, e).procs[p].monitor
       <==> Step(s, e).procs[p].Serving() && (s.procs[p].monitor || (e == StartMonitor(p) && s.now < s.procs[p].expiresAt))
  {
  }
}
