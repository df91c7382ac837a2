/**
 * Presence as a claim with an expiry: the throttled refresh of apps/gateway/src/relay/relay.ts and
 * effectiveDeviceStatus of packages/core/src/device.ts. Writes take effect at once or fail.
 */
module Presence {
  import opened Prelude

  const PRESENCE_TTL_MS := 90_000
  const PRESENCE_REFRESH_MS := 30_000

  datatype Status = Online | Offline | Revoked

  function EffectiveDeviceStatus(status: Status, lastSeenAt: Option<int>, now: int): Status {
    if status == Revoked then Revoked
    else if status != Online then status
    else if lastSeenAt.None? then Offline
    else if now - lastSeenAt.value <= PRESENCE_TTL_MS then Online
    else Offline
  }

  /** A frame of an authenticated session; `ok` is whether the control plane took the write, if one is made. */
  datatype Frame = Heartbeat(at: int, ok: bool) | Capabilities(at: int, ok: bool) | Other(at: int)

  /**
   * A session after its hello. `row` is the lastSeenAt stored with status online. Then what is only
   * observed: the last heartbeat, the failed refreshes in a row, and when refreshes were stored.
   */
  datatype Session = Session(lastSeenAt: int, presenceAt: int, row: int, lastBeat: int, failures: nat, refreshes: seq<int>)
  {
    predicate RefreshDue() {
      lastSeenAt - presenceAt >= PRESENCE_REFRESH_MS
    }

    function Refreshed(ok: bool): Session {
      if !RefreshDue() then this
      else if ok then this.(presenceAt := lastSeenAt, row := lastSeenAt, failures := 0, refreshes := refreshes + [lastSeenAt])
      else this.(presenceAt := 0, failures := failures + 1)
    }

    function Received(f: Frame): Session {
      var s := this.(lastSeenAt := f.at);
      match f
      case Heartbeat(at, ok) => s.(lastBeat := at).Refreshed(ok)
      case Capabilities(at, ok) => if ok then s.(presenceAt := at, row := at, failures := 0) else s
      case Other(_) => s
    }

    /** At the instant `t` the row reads as online. */
    predicate OnlineAt(t: int) {
      EffectiveDeviceStatus(Online, Some(row), t) == Online
    }

    /** After `failures` failed writes the row has aged by the throttle and that many gaps. */
    ghost predicate Fresh(gap: nat) {
      && lastSeenAt >= lastBeat && lastSeenAt >= row >= PRESENCE_REFRESH_MS
      && lastBeat - row <= PRESENCE_REFRESH_MS - 1 + failures * gap
      && (if failures == 0 then presenceAt == row else presenceAt == 0 && lastBeat >= row + PRESENCE_REFRESH_MS)
    }
  }

  /** The hello was stored at `at`. */
  function AfterHello(at: int): Session {
    Session(at, at, at, at, 0, [])
  }

  function Run(s: Session, frames: seq<Frame>): Session
    decreases |frames|
  {
    if frames == [] then s else Run(s.Received(frames[0]), frames[1..])
  }

  /** Time goes forward, no heartbeat is more than `gap` late, and at most `failures` refreshes fail in a row. */
  predicate Steady(s: Session, frames: seq<Frame>, gap: nat, failures: nat)
    decreases |frames|
  {
    frames == []
    || (var n := s.Received(frames[0]);
        && s.lastSeenAt <= frames[0].at <= s.lastBeat + gap
        && n.failures <= failures
        && Steady(n, frames[1..], gap, failures))
  }

  /** Online exactly while the last stored sign of life is at most 90 s old; a revoked device stays revoked. */
  lemma StatusExactly(status: Status, lastSeenAt: Option<int>, now: int)
    ensures var s := EffectiveDeviceStatus(status, lastSeenAt, now);
            && (s == Online <==> status == Online && lastSeenAt.Some? && now - lastSeenAt.value <= 90000)
            && (s == Revoked <==> status == Revoked)
  {
  }

  /** Every frame is a sign of life; it is stored when capabilities are, or by a heartbeat 30 s after the last one stored. */
  lemma StoredExactly(s: Session, f: Frame)
    ensures var n := s.Received(f);
            && n.lastSeenAt == f.at
            && n.row == (if (f.Capabilities? && f.ok) || (f.Heartbeat? && f.ok && f.at - s.presenceAt >= 30000) then f.at else s.row)
            && n.lastBeat == (if f.Heartbeat? then f.at else s.lastBeat)
            && (f.Capabilities? && f.ok ==> n.presenceAt == f.at)
  {
  }

  // ----- online at every instant

  lemma StepFresh(s: Session, f: Frame, gap: nat)
    requires s.Fresh(gap) && s.lastSeenAt <= f.at <= s.lastBeat + gap
    ensures s.Received(f).Fresh(gap)
  {
    assert (s.failures + 1) * gap == s.failures * gap + gap;
    assert 0 * gap == 0 <= s.failures * gap;
  }

  lemma {:induction false} RunFresh(s: Session, frames: seq<Frame>, gap: nat, failures: nat)
    requires s.Fresh(gap) && s.failures <= failures && Steady(s, frames, gap, failures)
    ensures Run(s, frames).Fresh(gap) && Run(s, frames).failures <= failures
    decreases |frames|
  {
    if frames != [] {
      StepFresh(s, frames[0], gap);
      RunFresh(s.Received(frames[0]), frames[1..], gap, failures);
    }
    hide Session.Fresh, Session.Received;
  }

  /** How far apart heartbeats may be if this many refreshes in a row may fail. */
  predicate Tolerated(gap: nat, failures: nat) {
    PRESENCE_REFRESH_MS - 1 + (failures + 1) * gap <= PRESENCE_TTL_MS
  }

  lemma MoreFailures(a: nat, b: nat, gap: nat)
    requires a <= b
    ensures a * gap <= b * gap
  {
  }

  /** A device whose heartbeats keep to a tolerated gap reads as online at every instant of its session. */
  lemma AlwaysOnline(start: int, frames: seq<Frame>, gap: nat, failures: nat, t: int)
    requires start >= PRESENCE_REFRESH_MS && Steady(AfterHello(start), frames, gap, failures) && Tolerated(gap, failures)
    requires var s := Run(AfterHello(start), frames); s.lastSeenAt <= t <= s.lastBeat + gap
    ensures Run(AfterHello(start), frames).OnlineAt(t)
  {
    var s := Run(AfterHello(start), frames);
    assert AfterHello(start).Fresh(gap);
    RunFresh(AfterHello(start), frames, gap, failures);
    MoreFailures(s.failures, failures, gap);
    assert (failures + 1) * gap == failures * gap + gap;
    hide Run;
  }

  /** Less than a minute apart is enough when writes succeed; fifteen seconds apart forgives three failures, not four. */
  lemma WhatIsTolerated()
    ensures forall gap: nat :: Tolerated(gap, 0) <==> gap <= 60_001
    ensures Tolerated(15_000, 3) && !Tolerated(15_000, 4)
  {
  }

  // ----- and no further

  /** `n` heartbeats, `gap` apart, whose refreshes all fail. */
  function FailedBeats(at: int, gap: nat, n: nat): seq<Frame>
    decreases n
  {
    if n == 0 then [] else [Heartbeat(at, false)] + FailedBeats(at + gap, gap, n - 1)
  }

  lemma {:induction false} FailedBeatsRun(s: Session, gap: nat, n: nat, failures: nat)
    requires gap > 0 && s.lastSeenAt == s.lastBeat && s.failures + n <= failures
    requires s.lastBeat + gap >= s.presenceAt + PRESENCE_REFRESH_MS && s.lastBeat + gap >= PRESENCE_REFRESH_MS
    ensures var frames := FailedBeats(s.lastBeat + gap, gap, n);
            && Steady(s, frames, gap, failures)
            && Run(s, frames).row == s.row && Run(s, frames).lastBeat == Run(s, frames).lastSeenAt == s.lastBeat + n * gap
    decreases n
  {
    if n > 0 {
      var f := Heartbeat(s.lastBeat + gap, false);
      var s1 := s.Received(f);
      assert s1 == Session(s.lastBeat + gap, 0, s.row, s.lastBeat + gap, s.failures + 1, s.refreshes);
      FailedBeatsRun(s1, gap, n - 1, failures);
      assert FailedBeats(s.lastBeat + gap, gap, n)[1..] == FailedBeats(s.lastBeat + gap + gap, gap, n - 1);
      assert n * gap == gap + (n - 1) * gap;
    }
  }

  /** Heartbeats at most `gap` apart up to the instant `last`. */
  function BeatsUpTo(from: int, last: int, gap: nat): seq<Frame>
    requires gap > 0
    decreases last - from
  {
    if last <= from then []
    else if last <= from + gap then [Heartbeat(last, true)]
    else [Heartbeat(from + gap, true)] + BeatsUpTo(from + gap, last, gap)
  }

  /** Until the throttle is due, heartbeats write nothing. */
  lemma {:induction false} QuietBeats(s: Session, last: int, gap: nat, more: seq<Frame>, failures: nat)
    requires gap > 0 && s.lastSeenAt == s.lastBeat <= last < s.presenceAt + PRESENCE_REFRESH_MS && s.failures <= failures
    ensures var frames, n := BeatsUpTo(s.lastBeat, last, gap), s.(lastSeenAt := last, lastBeat := last);
            && Run(s, frames + more) == Run(n, more)
            && (Steady(n, more, gap, failures) ==> Steady(s, frames + more, gap, failures))
    decreases last - s.lastBeat
  {
    var frames := BeatsUpTo(s.lastBeat, last, gap);
    if s.lastBeat == last {
      assert frames + more == more;
    } else {
      var at := frames[0].at;
      var s1 := s.(lastSeenAt := at, lastBeat := at);
      assert s.Received(frames[0]) == s1;
      QuietBeats(s1, last, gap, more, failures);
      assert (frames + more)[1..] == BeatsUpTo(at, last, gap) + more;
    }
  }

  /** A gap that is not tolerated takes some steady session offline while it is alive. */
  lemma SometimesOffline(start: int, gap: nat, failures: nat) returns (frames: seq<Frame>, t: int)
    requires start >= PRESENCE_REFRESH_MS && gap > 0 && !Tolerated(gap, failures)
    ensures Steady(AfterHello(start), frames, gap, failures)
    ensures var s := Run(AfterHello(start), frames); s.lastSeenAt <= t <= s.lastBeat + gap && !s.OnlineAt(t)
  {
    var last := start + PRESENCE_REFRESH_MS - 1;
    var s := AfterHello(start).(lastSeenAt := last, lastBeat := last);
    var failing := FailedBeats(last + gap, gap, failures);
    FailedBeatsRun(s, gap, failures, failures);
    QuietBeats(AfterHello(start), last, gap, failing, failures);
    frames := BeatsUpTo(start, last, gap) + failing;
    t := last + failures * gap + gap;
    assert (failures + 1) * gap == failures * gap + gap;
  }

  // ----- what the throttle saves

  ghost predicate Apart(times: seq<int>, least: int) {
    forall i :: 0 <= i && i + 1 < |times| ==> times[i] + least <= times[i + 1]
  }

  ghost predicate Throttled(s: Session) {
    && Apart(s.refreshes, PRESENCE_REFRESH_MS)
    && (s.refreshes != [] ==> s.refreshes[|s.refreshes| - 1] <= s.row)
  }

  lemma StepThrottled(s: Session, f: Frame, gap: nat)
    requires s.Fresh(gap) && Throttled(s) && s.lastSeenAt <= f.at
    ensures Throttled(s.Received(f))
  {
  }

  /** Refreshes that are stored are at least thirty seconds apart, however often heartbeats arrive. */
  lemma {:induction false} RefreshesApart(s: Session, frames: seq<Frame>, gap: nat, failures: nat)
    requires s.Fresh(gap) && Throttled(s) && Steady(s, frames, gap, failures)
    ensures Throttled(Run(s, frames))
    decreases |frames|
  {
    if frames != [] {
      StepFresh(s, frames[0], gap);
      StepThrottled(s, frames[0], gap);
      RefreshesApart(s.Received(frames[0]), frames[1..], gap, failures);
    }
    hide Session.Fresh, Session.Received, Throttled;
  }

  /** socket.data of one session, as the handlers update it. */
  class PresenceKeeper {
    var lastSeenAt: int
    var presenceAt: int
    var row: int
    ghost var lastBeat: int
    ghost var failures: nat
    ghost var refreshes: seq<int>

    ghost function Abstract(): Session
      reads this
    {
      Session(lastSeenAt, presenceAt, row, lastBeat, failures, refreshes)
    }

    constructor (at: int)
      ensures Abstract() == AfterHello(at)
    {
      lastSeenAt, presenceAt, row, lastBeat, failures, refreshes := at, at, at, at, 0, [];
    }

    method OnHeartbeat(now: int, ok: bool)
      modifies this
      ensures Abstract() == old(Abstract()).Received(Heartbeat(now, ok))
    {
      lastSeenAt := now;
      lastBeat := now;
      RefreshPresence(ok);
    }

    method OnCapabilities(now: int, ok: bool)
      modifies this
      ensures Abstract() == old(Abstract()).Received(Capabilities(now, ok))
    {
      lastSeenAt := now;
      if ok {
        row := now;
        presenceAt := lastSeenAt;
        failures := 0;
      }
    }

    method RefreshPresence(ok: bool)
      modifies this
      ensures Abstract() == old(Abstract()).Refreshed(ok)
    {
      var at := lastSeenAt;
      if at - presenceAt < PRESENCE_REFRESH_MS {
        return;
      }
      presenceAt := at;
      if ok {
        row := at;
        failures, refreshes := 0, refreshes + [at];
      } else {
        presenceAt := 0;
        failures := failures + 1;
      }
    }
  }
}
