/**
 * `execute` of adapters/remote-mcp/src/adapter.ts over the circuit breaker: admit, at most two
 * attempts, one recorded outcome. Calls interleave freely; each is cut at its awaits.
 */
module RemoteMcp {
  import opened Prelude
  import opened Breaker

  datatype Attempt = Answered | TransientError | OtherError

  datatype Stage = FirstAttempt | SecondAttempt | Refused | Finished

  /** One call of `execute`; `attempts` counts its upstream requests. */
  datatype Call = Call(key: Key, connector: string, retrySafe: bool, stage: Stage, attempts: nat)
  {
    predicate Running() {
      stage == FirstAttempt || stage == SecondAttempt
    }

    /** Two attempts at most, the second only for a call that is safe to repeat. */
    predicate AttemptsBounded() {
      match stage
      case Refused => attempts == 0
      case FirstAttempt => attempts == 1
      case SecondAttempt => attempts == 2 && retrySafe
      case Finished => attempts == 1 || (attempts == 2 && retrySafe)
    }

    /** In its circuit's log the call was admitted and ended as often as its stage says. */
    predicate Tallied(log: Log, c: CallId) {
      && Admissions(log, c) == (if stage == Refused then 0 else 1)
      && Ends(log, c) == (if stage == Finished then 1 else 0)
    }
  }

  datatype Event =
    | Begin(call: CallId, key: Key, connector: string, retrySafe: bool, now: int)
    | AttemptEnds(call: CallId, outcome: Attempt, aborted: bool, now: int)

  datatype State = State(logs: map<Key, Log>, calls: map<CallId, Call>)
  {
    function Begun(c: CallId, k: Key, connector: string, retrySafe: bool, now: int): State {
      if Admits(LogOf(logs, k), now)
      then State(Logged(logs, k, Admitted(c, connector, now)), calls[c := Call(k, connector, retrySafe, FirstAttempt, 1)])
      else State(logs, calls[c := Call(k, connector, retrySafe, Refused, 0)])
    }

    /** One more try: only the first attempt, only after a transient error, only if safe and not aborted. */
    predicate Retries(c: CallId, o: Attempt, aborted: bool)
      requires c in calls
    {
      calls[c].stage == FirstAttempt && o == TransientError && calls[c].retrySafe && !aborted
    }

    function Attempted(c: CallId, o: Attempt, aborted: bool, now: int): State
      requires c in calls
    {
      if Retries(c, o, aborted)
      then State(logs, calls[c := calls[c].(stage := SecondAttempt, attempts := 2)])
      else State(Logged(logs, calls[c].key, Ended(c, calls[c].connector, o == TransientError, now)),
                 calls[c := calls[c].(stage := Finished)])
    }

    ghost predicate Balanced() {
      forall c :: c in calls ==> calls[c].Tallied(LogOf(logs, calls[c].key), c)
    }

    ghost predicate Orderly() {
      forall k :: InOrder(LogOf(logs, k), k, calls)
    }

    predicate Bounded() {
      forall c :: c in calls ==> calls[c].AttemptsBounded()
    }

    ghost predicate Valid() {
      Balanced() && Orderly() && Bounded()
    }
  }

  function Admissions(log: Log, c: CallId): nat {
    if log == [] then 0
    else Admissions(Earlier(log), c) + (if Last(log).Admitted? && Last(log).call == c then 1 else 0)
  }

  function Ends(log: Log, c: CallId): nat {
    if log == [] then 0 else Ends(Earlier(log), c) + (if Last(log).Ended? && Last(log).call == c then 1 else 0)
  }

  /** Every entry is by a call on this circuit, every admission was allowed, every end follows its admission. */
  ghost predicate InOrder(log: Log, k: Key, calls: map<CallId, Call>) {
    log == []
    || (var e, before := Last(log), Earlier(log);
        && InOrder(before, k, calls)
        && e.call in calls && calls[e.call].key == k
        && Ends(before, e.call) == 0
        && (if e.Admitted? then Admissions(before, e.call) == 0 && Admits(before, e.at)
            else Admissions(before, e.call) == 1))
  }

  function Step(s: State, e: Event): State {
    match e
    case Begin(c, k, connector, retrySafe, now) => if c in s.calls then s else s.Begun(c, k, connector, retrySafe, now)
    case AttemptEnds(c, o, aborted, now) =>
      if c in s.calls && s.calls[c].Running() then s.Attempted(c, o, aborted, now) else s
  }

  function Run(s: State, es: seq<Event>): State
    decreases |es|
  {
    if es == [] then s else Run(Step(s, es[0]), es[1..])
  }

  // ----- every run keeps it

  lemma {:induction false} StrangersAbsent(log: Log, k: Key, calls: map<CallId, Call>, c: CallId)
    requires InOrder(log, k, calls)
    requires c !in calls || calls[c].key != k
    ensures Admissions(log, c) == 0 == Ends(log, c)
    decreases |log|
  {
    if log != [] { StrangersAbsent(Earlier(log), k, calls, c); }
  }

  /** Calls may be added or change stage; the logs stay in order. */
  lemma {:induction false} InOrderGrows(log: Log, k: Key, was: map<CallId, Call>, calls: map<CallId, Call>)
    requires InOrder(log, k, was)
    requires forall c :: c in was ==> c in calls && calls[c].key == was[c].key
    ensures InOrder(log, k, calls)
    decreases |log|
  {
    if log != [] { InOrderGrows(Earlier(log), k, was, calls); }
  }

  lemma LoggedCounts(logs: map<Key, Log>, k: Key, e: Entry, j: Key, c: CallId)
    ensures var before, log := LogOf(logs, j), LogOf(Logged(logs, k, e), j);
            && Admissions(log, c) == Admissions(before, c) + (if j == k && e.Admitted? && e.call == c then 1 else 0)
            && Ends(log, c) == Ends(before, c) + (if j == k && e.Ended? && e.call == c then 1 else 0)
  {
    Push(LogOf(logs, k), e);
  }

  lemma LoggedInOrder(logs: map<Key, Log>, calls: map<CallId, Call>, k: Key, e: Entry)
    requires State(logs, calls).Orderly()
    requires InOrder(LogOf(logs, k) + [e], k, calls)
    ensures State(Logged(logs, k, e), calls).Orderly()
  {
    forall j ensures InOrder(LogOf(Logged(logs, k, e), j), j, calls) {
      assert InOrder(LogOf(logs, j), j, calls);
    }
  }

  lemma OrderlyGrows(s: State, calls: map<CallId, Call>)
    requires s.Orderly()
    requires forall c :: c in s.calls ==> c in calls && calls[c].key == s.calls[c].key
    ensures State(s.logs, calls).Orderly()
  {
    forall k ensures InOrder(LogOf(s.logs, k), k, calls) {
      InOrderGrows(LogOf(s.logs, k), k, s.calls, calls);
    }
  }

  lemma BegunOrderly(s: State, c: CallId, k: Key, connector: string, retrySafe: bool, now: int)
    requires s.Orderly() && c !in s.calls
    ensures s.Begun(c, k, connector, retrySafe, now).Orderly()
  {
    var n := s.Begun(c, k, connector, retrySafe, now);
    var log, e := LogOf(s.logs, k), Admitted(c, connector, now);
    OrderlyGrows(s, n.calls);
    assert InOrder(log, k, s.calls);
    StrangersAbsent(log, k, s.calls, c);
    if Admits(log, now) {
      Push(log, e);
      assert InOrder(log, k, n.calls) by { assert State(s.logs, n.calls).Orderly(); }
      hide State.Orderly, Admissions, Ends, Admits, Logged, LogOf;
      assert InOrder(log + [e], k, n.calls);
      hide InOrder;
      LoggedInOrder(s.logs, n.calls, k, e);
    }
  }

  /** Somebody else's entry does not change a call's tally. */
  lemma TalliedStays(logs: map<Key, Log>, k: Key, e: Entry, call: Call, c: CallId)
    requires call.Tallied(LogOf(logs, call.key), c) && e.call != c
    ensures call.Tallied(LogOf(Logged(logs, k, e), call.key), c)
  {
    LoggedCounts(logs, k, e, call.key, c);
  }

  lemma NewcomerTallied(logs: map<Key, Log>, call: Call, c: CallId, now: int)
    requires Admissions(LogOf(logs, call.key), c) == 0 == Ends(LogOf(logs, call.key), c)
    ensures call.stage == Refused ==> call.Tallied(LogOf(logs, call.key), c)
    ensures call.stage == FirstAttempt ==>
              call.Tallied(LogOf(Logged(logs, call.key, Admitted(c, call.connector, now)), call.key), c)
  {
    LoggedCounts(logs, call.key, Admitted(c, call.connector, now), call.key, c);
  }

  lemma BegunBalanced(s: State, c: CallId, k: Key, connector: string, retrySafe: bool, now: int)
    requires s.Orderly() && s.Balanced() && c !in s.calls
    ensures s.Begun(c, k, connector, retrySafe, now).Balanced()
  {
    var n := s.Begun(c, k, connector, retrySafe, now);
    assert InOrder(LogOf(s.logs, k), k, s.calls);
    StrangersAbsent(LogOf(s.logs, k), k, s.calls, c);
    NewcomerTallied(s.logs, n.calls[c], c, now);
    forall d | d in s.calls ensures n.calls[d].Tallied(LogOf(n.logs, n.calls[d].key), d) {
      TalliedStays(s.logs, k, Admitted(c, connector, now), s.calls[d], d);
    }
    hide InOrder, Admits, Logged, LogOf, State.Orderly, Call.Tallied;
  }

  lemma AttemptedOrderly(s: State, c: CallId, o: Attempt, aborted: bool, now: int)
    requires s.Orderly() && s.Balanced() && c in s.calls && s.calls[c].Running()
    ensures s.Attempted(c, o, aborted, now).Orderly()
  {
    var n := s.Attempted(c, o, aborted, now);
    var k := s.calls[c].key;
    var log, e := LogOf(s.logs, k), Ended(c, s.calls[c].connector, o == TransientError, now);
    OrderlyGrows(s, n.calls);
    if !s.Retries(c, o, aborted) {
      Push(log, e);
      assert InOrder(log, k, n.calls) by { assert State(s.logs, n.calls).Orderly(); }
      hide State.Orderly, Admissions, Ends, Logged, LogOf;
      assert InOrder(log + [e], k, n.calls);
      hide InOrder;
      LoggedInOrder(s.logs, n.calls, k, e);
    }
  }

  lemma AttemptedBalanced(s: State, c: CallId, o: Attempt, aborted: bool, now: int)
    requires s.Balanced() && c in s.calls && s.calls[c].Running()
    ensures s.Attempted(c, o, aborted, now).Balanced()
  {
    var n := s.Attempted(c, o, aborted, now);
    var e := Ended(c, s.calls[c].connector, o == TransientError, now);
    hide Admissions, Ends, Logged, LogOf;
    LoggedCounts(s.logs, s.calls[c].key, e, s.calls[c].key, c);
    assert s.calls[c].Tallied(LogOf(s.logs, s.calls[c].key), c);
    assert n.calls[c].Tallied(LogOf(n.logs, n.calls[c].key), c);
    forall d | d in s.calls && d != c ensures n.calls[d].Tallied(LogOf(n.logs, n.calls[d].key), d) {
      TalliedStays(s.logs, s.calls[c].key, e, s.calls[d], d);
    }
  }

  lemma StepBounded(s: State, e: Event)
    requires s.Bounded()
    ensures Step(s, e).Bounded()
  {
    hide Admits, Logged, LogOf;
  }

  lemma StepValid(s: State, e: Event)
    requires s.Valid()
    ensures Step(s, e).Valid()
  {
    StepBounded(s, e);
    match e {
      case Begin(c, k, connector, retrySafe, now) =>
        if c !in s.calls {
          BegunOrderly(s, c, k, connector, retrySafe, now);
          BegunBalanced(s, c, k, connector, retrySafe, now);
        }
      case AttemptEnds(c, o, aborted, now) =>
        if c in s.calls && s.calls[c].Running() {
          AttemptedOrderly(s, c, o, aborted, now);
          AttemptedBalanced(s, c, o, aborted, now);
        }
    }
    hide State.Orderly, State.Balanced, State.Bounded, State.Begun, State.Attempted;
  }

  lemma {:induction false} RunValid(s: State, es: seq<Event>)
    requires s.Valid()
    ensures Run(s, es).Valid()
    decreases |es|
  {
    if es != [] {
      StepValid(s, es[0]);
      RunValid(Step(s, es[0]), es[1..]);
    }
    hide State.Valid, Step;
  }

  // ----- what it means

  /**
   * A half-open breaker waits for somebody: the call admitted last on that circuit is still running, so
   * the breaker cannot stay half-open for ever while calls end.
   */
  lemma HalfOpenHasProbe(es: seq<Event>, k: Key) returns (c: CallId)
    requires var circuit := CircuitAfter(LogOf(Run(State(map[], map[]), es).logs, k));
             circuit.Some? && circuit.value.phase == IsHalfOpen
    ensures var s := Run(State(map[], map[]), es);
            c in s.calls && s.calls[c].Running() && s.calls[c].key == k && Last(LogOf(s.logs, k)).call == c
  {
    var s := Run(State(map[], map[]), es);
    RunValid(State(map[], map[]), es);
    assert InOrder(LogOf(s.logs, k), k, s.calls);
    c := Last(LogOf(s.logs, k)).call;
    assert Ends(LogOf(s.logs, k), c) == 0;
    assert Admissions(LogOf(s.logs, k), c) == 1;
    hide Run;
  }

  /** While the breaker is not closed, two admissions never follow one another: one probe per outcome. */
  lemma {:induction false} OneProbePerOutcome(log: Log, k: Key, calls: map<CallId, Call>, i: nat)
    requires InOrder(log, k, calls)
    requires i + 1 < |log| && log[i].Admitted? && log[i + 1].Admitted?
    ensures Closed(log[..i + 1])
    decreases |log|
  {
    if i + 2 == |log| {
      assert Earlier(log) == log[..i + 1];
      assert Probing(Earlier(log));
    } else {
      OneProbePerOutcome(Earlier(log), k, calls, i);
      assert Earlier(log)[..i + 1] == log[..i + 1];
    }
  }

  // ----- what the breaker is told

  /** The event ends the last attempt of a call on circuit `k`. */
  predicate Finishes(s: State, e: Event, k: Key) {
    && e.AttemptEnds? && e.call in s.calls && s.calls[e.call].key == k && s.calls[e.call].Running()
    && e.call in Step(s, e).calls && !Step(s, e).calls[e.call].Running()
  }

  /** The event starts a call on circuit `k`. */
  predicate Starts(s: State, e: Event, k: Key) {
    && e.Begin? && e.call !in s.calls && e.key == k
    && e.call in Step(s, e).calls && Step(s, e).calls[e.call].Running()
  }

  /** How a call ended: whether its last attempt was a transient error, and when. */
  datatype Finish = Finish(transient: bool, at: int)

  /** The calls on `k` that finish during a run, in order. */
  function FinishedOn(s: State, es: seq<Event>, k: Key): seq<Finish>
    decreases |es|
  {
    if es == [] then []
    else
      var first := if Finishes(s, es[0], k) then [Finish(es[0].outcome == TransientError, es[0].now)] else [];
      first + FinishedOn(Step(s, es[0]), es[1..], k)
  }

  /** A call on `k` started after the last one that finished; `before` says it of the start of the run. */
  function StartedSince(s: State, es: seq<Event>, k: Key, before: bool): bool
    decreases |es|
  {
    if es == [] then before
    else StartedSince(Step(s, es[0]), es[1..], k, if Finishes(s, es[0], k) then false else before || Starts(s, es[0], k))
  }

  /** The ends that a log holds. */
  function FinishesIn(log: Log): seq<Finish> {
    if log == [] then []
    else FinishesIn(Earlier(log)) + (if Last(log).Ended? then [Finish(Last(log).transient, Last(log).at)] else [])
  }

  /**
   * A second attempt follows exactly a first one that ended in a transient error, of a call that is safe to
   * repeat and not aborted; every other end of an attempt finishes the call.
   */
  lemma RetriesExactly(s: State, e: Event)
    requires e.AttemptEnds? && e.call in s.calls && s.calls[e.call].Running()
    ensures e.call in Step(s, e).calls
    ensures var was, n := s.calls[e.call], Step(s, e).calls[e.call];
            && (n.stage == SecondAttempt <==>
                  was.stage == FirstAttempt && e.outcome == TransientError && was.retrySafe && !e.aborted)
            && (n.stage != SecondAttempt ==> n.stage == Finished)
            && n.attempts == (if n.stage == SecondAttempt then 2 else was.attempts)
            && n.key == was.key && n.retrySafe == was.retrySafe
  {
  }

  /** One event adds to the log of a circuit the end of the call it finishes, or the admission of the one it starts. */
  lemma StepLogs(s: State, e: Event, k: Key)
    ensures var was, log := LogOf(s.logs, k), LogOf(Step(s, e).logs, k);
            && FinishesIn(log) == FinishesIn(was) + (if Finishes(s, e, k) then [Finish(e.outcome == TransientError, e.now)] else [])
            && Probing(log) == if Finishes(s, e, k) then false else Probing(was) || Starts(s, e, k)
  {
    hide FinishesIn, Probing, Logged, LogOf, Admits;
    match e
    case Begin(c, k', connector, _, now) => LoggedFinishes(s.logs, k', Admitted(c, connector, now), k);
    case AttemptEnds(c, o, _, now) =>
      if c in s.calls { LoggedFinishes(s.logs, s.calls[c].key, Ended(c, s.calls[c].connector, o == TransientError, now), k); }
  }

  lemma LoggedFinishes(logs: map<Key, Log>, j: Key, e: Entry, k: Key)
    ensures var was, log := LogOf(logs, k), LogOf(Logged(logs, j, e), k);
            && FinishesIn(log) == FinishesIn(was) + (if j == k && e.Ended? then [Finish(e.transient, e.at)] else [])
            && Probing(log) == if j == k then e.Admitted? else Probing(was)
  {
    Push(LogOf(logs, j), e);
  }

  lemma {:induction false} RunLogs(s: State, es: seq<Event>, k: Key)
    ensures FinishesIn(LogOf(Run(s, es).logs, k)) == FinishesIn(LogOf(s.logs, k)) + FinishedOn(s, es, k)
    ensures Probing(LogOf(Run(s, es).logs, k)) == StartedSince(s, es, k, Probing(LogOf(s.logs, k)))
    decreases |es|
  {
    hide Step, Finishes, Starts, FinishesIn, Probing;
    if es != [] {
      StepLogs(s, es[0], k);
      RunLogs(Step(s, es[0]), es[1..], k);
    }
  }

  lemma {:induction false} LogFinishes(log: Log)
    ensures var f, b := FinishesIn(log), Endings(log);
            && |b| == |f| && (forall i :: 0 <= i < |f| ==> b[i] == f[i].transient)
            && LastEnd(log) == if f == [] then None else Some(f[|f| - 1].at)
    decreases |log|
  {
    if log != [] { LogFinishes(Earlier(log)); }
  }

  /** The last three calls that finished all ended in transient errors. */
  predicate ThreeInARow(f: seq<Finish>) {
    |f| >= 3 && f[|f| - 1].transient && f[|f| - 2].transient && f[|f| - 3].transient
  }

  /**
   * Over any run a call is turned away exactly if the last three calls that finished on its circuit ended in
   * transient errors and either less than 30 s have passed since or another call was started in the meantime.
   */
  lemma RefusedExactly(es: seq<Event>, c: CallId, k: Key, connector: string, retrySafe: bool, now: int)
    requires c !in Run(State(map[], map[]), es).calls
    ensures var s, f := Run(State(map[], map[]), es), FinishedOn(State(map[], map[]), es, k);
            var n := Step(s, Begin(c, k, connector, retrySafe, now));
            && c in n.calls && n.calls[c].key == k && n.calls[c].retrySafe == retrySafe
            && n.calls[c].stage == (if Refusal(f, StartedSince(State(map[], map[]), es, k, false), now) then Refused else FirstAttempt)
  {
    var log := LogOf(Run(State(map[], map[]), es).logs, k);
    RunLogs(State(map[], map[]), es, k);
    LogFinishes(log);
    ClosedUnlessThreeFailures(log);
    hide Run, FinishedOn, StartedSince;
  }

  predicate Refusal(f: seq<Finish>, startedSince: bool, now: int) {
    ThreeInARow(f) && (now - f[|f| - 1].at < 30000 || startedSince)
  }

  /** Over any run a circuit is closed exactly unless the last three calls that finished on it ended in transient errors. */
  lemma OpensOnTransientErrors(es: seq<Event>, k: Key)
    ensures var circuit := CircuitAfter(LogOf(Run(State(map[], map[]), es).logs, k));
            ThreeInARow(FinishedOn(State(map[], map[]), es, k)) <==> circuit.Some? && circuit.value.phase != IsClosed
  {
    var log := LogOf(Run(State(map[], map[]), es).logs, k);
    RunLogs(State(map[], map[]), es, k);
    LogFinishes(log);
    ClosedUnlessThreeFailures(log);
    hide Run, FinishedOn, StartedSince;
  }

  /** The call of `execute`, attempt by attempt. */
  class RemoteMcpAdapter {
    const breaker: CircuitBreaker
    var calls: map<CallId, Call>

    constructor ()
      ensures fresh(breaker) && breaker.Valid() && Abstract() == State(map[], map[])
    {
      breaker := new CircuitBreaker();
      calls := map[];
    }

    ghost function Abstract(): State
      reads this, breaker
    {
      State(breaker.logs, calls)
    }

    method StartCall(c: CallId, connector: string, k: Key, retrySafe: bool, now: int) returns (admitted: bool)
      requires breaker.Valid() && c !in calls
      modifies this, breaker
      ensures breaker.Valid() && Abstract() == Step(old(Abstract()), Begin(c, k, connector, retrySafe, now))
      ensures admitted == Admits(LogOf(old(breaker.logs), k), now)
    {
      admitted := breaker.AssertAllows(c, connector, k, now);
      if admitted {
        calls := calls[c := Call(k, connector, retrySafe, FirstAttempt, 1)];
      } else {
        calls := calls[c := Call(k, connector, retrySafe, Refused, 0)];
      }
    }

    method FirstAttemptEnds(c: CallId, outcome: Attempt, aborted: bool, now: int)
      requires breaker.Valid() && c in calls && calls[c].stage == FirstAttempt
      modifies this, breaker
      ensures breaker.Valid() && Abstract() == Step(old(Abstract()), AttemptEnds(c, outcome, aborted, now))
    {
      var call := calls[c];
      if outcome == Answered {
        breaker.RecordSuccess(c, call.connector, call.key, now);
      } else {
        if outcome != TransientError {
          breaker.RecordSuccess(c, call.connector, call.key, now);
        } else if !call.retrySafe || aborted {
          breaker.RecordTransientFailure(c, call.connector, call.key, now);
        } else {
          calls := calls[c := call.(stage := SecondAttempt, attempts := 2)];
          return;
        }
      }
      calls := calls[c := call.(stage := Finished)];
    }

    method SecondAttemptEnds(c: CallId, outcome: Attempt, now: int)
      requires breaker.Valid() && c in calls && calls[c].stage == SecondAttempt
      modifies this, breaker
      ensures breaker.Valid() && forall aborted :: Abstract() == Step(old(Abstract()), AttemptEnds(c, outcome, aborted, now))
    {
      var call := calls[c];
      if outcome == TransientError {
        breaker.RecordTransientFailure(c, call.connector, call.key, now);
      } else {
        breaker.RecordSuccess(c, call.connector, call.key, now);
      }
      calls := calls[c := call.(stage := Finished)];
    }
  }
}
