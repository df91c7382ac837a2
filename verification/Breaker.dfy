/**
 * The circuit breaker of adapters/remote-mcp/src/reliability.ts and the calls that go through it,
 * `execute` of adapters/remote-mcp/src/adapter.ts cut at its awaits. The breaker is specified by the
 * log of what was admitted and how it ended, per circuit key.
 */
module Breaker {
  import opened Prelude

  const CIRCUIT_FAILURE_THRESHOLD := 3
  const CIRCUIT_OPEN_MS := 30_000

  type Key = nat
  type CallId = nat

  // ----- the log of one circuit

  datatype Entry =
    | Admitted(call: CallId, connector: string, at: int)
    | Ended(call: CallId, connector: string, transient: bool, at: int)

  type Log = seq<Entry>

  function Last(log: Log): Entry
    requires log != []
  {
    log[|log| - 1]
  }

  function Earlier(log: Log): Log
    requires log != []
  {
    log[..|log| - 1]
  }

  /** The trailing run of transient failures; admissions do not interrupt it. */
  function Failures(log: Log): nat {
    if log == [] then 0
    else if Last(log).Admitted? then Failures(Earlier(log))
    else if Last(log).transient then Failures(Earlier(log)) + 1
    else 0
  }

  /** When the last call ended, if one did. */
  function LastEnd(log: Log): Option<int> {
    if log == [] then None
    else if Last(log).Ended? then Some(Last(log).at)
    else LastEnd(Earlier(log))
  }

  /** A call was admitted and nothing has ended since. */
  predicate Probing(log: Log) {
    log != [] && Last(log).Admitted?
  }

  predicate Closed(log: Log) {
    Failures(log) < CIRCUIT_FAILURE_THRESHOLD
  }

  /** Closed, or rested for 30 seconds with no admission since the last outcome. */
  predicate Admits(log: Log, now: int) {
    Closed(log) || (LastEnd(log).Some? && now - LastEnd(log).value >= CIRCUIT_OPEN_MS && !Probing(log))
  }

  lemma Push(log: Log, e: Entry)
    ensures Last(log + [e]) == e && Earlier(log + [e]) == log
  {
  }

  /** How the calls ended, oldest first: whether each failed transiently. */
  function Endings(log: Log): seq<bool> {
    if log == [] then []
    else Endings(Earlier(log)) + (if Last(log).Ended? then [Last(log).transient] else [])
  }

  lemma {:induction false} FailuresCountsTheTail(log: Log)
    ensures var b, f := Endings(log), Failures(log);
            f <= |b| && (forall i :: |b| - f <= i < |b| ==> b[i]) && (f < |b| ==> !b[|b| - f - 1])
    decreases |log|
  {
    if log != [] { FailuresCountsTheTail(Earlier(log)); }
  }

  /** Not closed exactly when the three latest outcomes were all transient failures. */
  lemma ClosedUnlessThreeFailures(log: Log)
    ensures var b := Endings(log);
            Closed(log) <==> !(|b| >= 3 && b[|b| - 1] && b[|b| - 2] && b[|b| - 3])
  {
    FailuresCountsTheTail(log);
  }

  // ----- the breaker

  datatype Phase = IsClosed | IsOpen | IsHalfOpen

  datatype Circuit = Circuit(connector: string, phase: Phase, consecutiveFailures: nat, openedAt: Option<int>, probeInFlight: bool)

  /** The map entry that a log leads to; none before the first outcome. */
  function CircuitAfter(log: Log): Option<Circuit> {
    if LastEnd(log).None? then None
    else if Closed(log) then Some(Circuit(Last(log).connector, IsClosed, Failures(log), None, false))
    else Some(Circuit(Last(log).connector, if Probing(log) then IsHalfOpen else IsOpen, Failures(log), LastEnd(log), Probing(log)))
  }

  function Lookup<V>(m: map<Key, V>, k: Key): Option<V> {
    if k in m then Some(m[k]) else None
  }

  function LogOf(logs: map<Key, Log>, k: Key): Log {
    if k in logs then logs[k] else []
  }

  function Logged(logs: map<Key, Log>, k: Key, e: Entry): map<Key, Log> {
    logs[k := LogOf(logs, k) + [e]]
  }

  lemma {:induction false} NoEndNoFailures(log: Log)
    requires LastEnd(log).None?
    ensures Failures(log) == 0
    decreases |log|
  {
    if log != [] { NoEndNoFailures(Earlier(log)); }
  }

  ghost predicate Represents(circuits: map<Key, Circuit>, logs: map<Key, Log>) {
    forall k :: Lookup(circuits, k) == CircuitAfter(LogOf(logs, k))
  }

  lemma OtherKeysKept(was: map<Key, Circuit>, circuits: map<Key, Circuit>, logs: map<Key, Log>, k: Key, e: Entry)
    requires Represents(was, logs)
    requires forall j :: j != k ==> Lookup(circuits, j) == Lookup(was, j)
    requires Lookup(circuits, k) == CircuitAfter(LogOf(logs, k) + [e])
    ensures Represents(circuits, Logged(logs, k, e))
  {
    forall j ensures Lookup(circuits, j) == CircuitAfter(LogOf(Logged(logs, k, e), j)) {
      if j != k {
        assert LogOf(Logged(logs, k, e), j) == LogOf(logs, j);
      }
    }
  }

  /** One more entry, in terms of what the log said before. */
  lemma After(log: Log, e: Entry)
    ensures Failures(log + [e]) == if e.Admitted? then Failures(log) else if e.transient then Failures(log) + 1 else 0
    ensures LastEnd(log + [e]) == if e.Admitted? then LastEnd(log) else Some(e.at)
    ensures Last(log + [e]) == e && Probing(log + [e]) == e.Admitted?
    ensures LastEnd(log).None? ==> Failures(log) == 0
  {
    Push(log, e);
    if LastEnd(log).None? { NoEndNoFailures(log); }
  }

  class CircuitBreaker {
    var circuits: map<Key, Circuit>
    ghost var logs: map<Key, Log>

    constructor ()
      ensures Valid() && logs == map[]
    {
      circuits, logs := map[], map[];
    }

    /** What is stored for a key is exactly what its log says. */
    ghost predicate Valid()
      reads this
    {
      Represents(circuits, logs)
    }

    method AssertAllows(call: CallId, connector: string, k: Key, now: int) returns (admitted: bool)
      requires Valid()
      modifies this
      ensures Valid()
      ensures admitted == Admits(LogOf(old(logs), k), now)
      ensures logs == if admitted then Logged(old(logs), k, Admitted(call, connector, now)) else old(logs)
    {
      ghost var log := LogOf(logs, k);
      assert Lookup(circuits, k) == CircuitAfter(log);
      After(log, Admitted(call, connector, now));
      hide Failures, LastEnd;
      if k !in circuits {
        OtherKeysKept(circuits, circuits, logs, k, Admitted(call, connector, now));
        logs := Logged(logs, k, Admitted(call, connector, now));
        return true;
      }
      var circuit := circuits[k];
      if circuit.phase == IsOpen {
        var elapsed := now - (if circuit.openedAt.Some? then circuit.openedAt.value else now);
        if elapsed < CIRCUIT_OPEN_MS {
          return false;
        }
        circuit := circuit.(phase := IsHalfOpen, probeInFlight := false);
      }
      if circuit.phase == IsHalfOpen {
        if circuit.probeInFlight {
          return false;
        }
        circuit := circuit.(probeInFlight := true);
      }
      circuits := circuits[k := circuit.(connector := connector)];
      OtherKeysKept(old(circuits), circuits, logs, k, Admitted(call, connector, now));
      logs := Logged(logs, k, Admitted(call, connector, now));
      admitted := true;
    }

    method RecordSuccess(call: CallId, connector: string, k: Key, now: int)
      requires Valid()
      modifies this
      ensures Valid()
      ensures logs == Logged(old(logs), k, Ended(call, connector, false, now))
    {
      After(LogOf(logs, k), Ended(call, connector, false, now));
      circuits := circuits[k := Circuit(connector, IsClosed, 0, None, false)];
      OtherKeysKept(old(circuits), circuits, logs, k, Ended(call, connector, false, now));
      logs := Logged(logs, k, Ended(call, connector, false, now));
    }

    method RecordTransientFailure(call: CallId, connector: string, k: Key, now: int)
      requires Valid()
      modifies this
      ensures Valid()
      ensures logs == Logged(old(logs), k, Ended(call, connector, true, now))
    {
      ghost var log := LogOf(logs, k);
      After(log, Ended(call, connector, true, now));
      assert Lookup(circuits, k) == CircuitAfter(log);
      hide Failures, LastEnd;
      var failures := (if k in circuits then circuits[k].consecutiveFailures else 0) + 1;
      var shouldOpen := (k in circuits && circuits[k].phase == IsHalfOpen) || failures >= CIRCUIT_FAILURE_THRESHOLD;
      circuits := circuits[k := if shouldOpen
                                then Circuit(connector, IsOpen, failures, Some(now), false)
                                else Circuit(connector, IsClosed, failures, None, false)];
      OtherKeysKept(old(circuits), circuits, logs, k, Ended(call, connector, true, now));
      logs := Logged(logs, k, Ended(call, connector, true, now));
    }
  }
}
