/**
 * The inbound job pipeline of the agent: apps/agent/src/jobs.ts with verifyJob of
 * packages/protocol/src/sign.ts. `run` is cut at its awaits; deliveries interleave freely.
 */
module Jobs {
  import opened Prelude
  import opened ReplayGuards

  const MAX_CLOCK_SKEW_MS := 60_000
  const PROTOCOL_VERSION := "1"

  /** The claims of a job that matter here; `authentic` is the outcome of the key id and signature checks. */
  datatype Envelope = Envelope(id: string, protocolVersion: string, issuedAt: int, expiresAt: int)

  datatype ErrorCode = NotAuthorized | InvalidJob | Timeout | ReplayDetected | GuardFailed | ActionFailed

  datatype Result = Success | Failure(code: ErrorCode)

  /** verifyJob: the signature first, then the version, then the two clock checks. */
  function VerifyJob(e: Envelope, authentic: bool, now: int): Option<ErrorCode> {
    if !authentic then Some(NotAuthorized)
    else if e.protocolVersion != PROTOCOL_VERSION then Some(InvalidJob)
    else if now > e.expiresAt then Some(Timeout)
    else if e.issuedAt > now + MAX_CLOCK_SKEW_MS then Some(Timeout)
    else None
  }

  /** The window assertFresh asks the guard for. */
  function ReplayTtl(e: Envelope, now: int): int {
    Max(1, e.expiresAt - now)
  }

  /** Where one delivery stands between two awaits. */
  datatype Stage =
    | Verifying(e: Envelope)
    | Claiming(e: Envelope, checkedAt: int)
    | Executing(e: Envelope)
    | Settled(result: Result)

  type Ticket = nat

  /** What the verifier saw of a delivery. */
  datatype Check = Check(e: Envelope, authentic: bool, at: int)
  {
    /** Authentic, of the one version, not expired, and not issued more than a minute ahead. */
    predicate Passed() {
      authentic && e.protocolVersion == "1" && at <= e.expiresAt && e.issuedAt <= at + 60000
    }

    /** The error for the first of these that fails. */
    predicate FailsWith(code: ErrorCode) {
      match code
      case NotAuthorized => !authentic
      case InvalidJob => authentic && e.protocolVersion != "1"
      case Timeout => authentic && e.protocolVersion == "1" && !(at <= e.expiresAt && e.issuedAt <= at + 60000)
      case _ => false
    }
  }

  /**
   * One claim: the delivery that made it, when it computed its window, when the guard ran, what the guard
   * answered, and whether the local allowlist would let the action run.
   */
  datatype Claim = Claim(ticket: Ticket, e: Envelope, checkedAt: int, now: int, answer: Answer, authorised: bool)
  {
    /** Accepted by the guard and by the allowlist. */
    predicate Passed() {
      answer == Fresh && authorised
    }

    predicate FailsWith(code: ErrorCode) {
      match code
      case ReplayDetected => answer == Replay
      case GuardFailed => answer == InvalidInput || answer == Internal
      case NotAuthorized => answer == Fresh && !authorised
      case _ => false
    }
  }

  function CallOf(c: Claim): Call {
    Call(c.e.id, ReplayTtl(c.e, c.checkedAt), c.now)
  }

  /**
   * What was seen of every delivery the verifier looked at, every claim since the guard was opened on `rows`, and
   * the deliveries that reached an adapter.
   */
  datatype History = History(max: nat, rows: Table, claims: seq<Claim>, started: set<Ticket>, checks: map<Ticket, Check>)
  {
    ghost predicate Sound() {
      && max >= 1 && Distinct(rows) && |rows| <= max
      && Answers(claims) == DurableAnswers(max, rows, Calls(claims))
      && (forall i, j :: 0 <= i < j < |claims| ==> claims[i].ticket != claims[j].ticket)
      && (forall i :: 0 <= i < |claims| ==> (claims[i].ticket in started <==> claims[i].Passed()))
      && (forall t :: t in started ==> t in checks && checks[t].Passed())
      && (forall i :: 0 <= i < |claims| ==> Cleared(claims[i].ticket, claims[i].e))
    }

    /** The verifier let the delivery through, with this envelope. */
    predicate Cleared(t: Ticket, e: Envelope) {
      t in checks && checks[t].Passed() && checks[t].e == e
    }

    /** Every claim belongs to a delivery that is past claiming; what executes has claimed. */
    ghost predicate Fits(stages: map<Ticket, Stage>) {
      && (forall i :: 0 <= i < |claims| ==> Past(stages, claims[i].ticket))
      && (forall t :: t in started ==> Past(stages, t))
      && (forall t :: t in stages && stages[t].Executing? ==> t in started)
    }

    /** Where a delivery stands is what its check and its claim left it. */
    ghost predicate Explains(stages: map<Ticket, Stage>) {
      && (forall t :: t in checks ==> t in stages)
      && (forall t :: t in stages ==> (t in checks <==> !stages[t].Verifying?))
      && (forall t :: t in stages && (stages[t].Claiming? || stages[t].Executing?) ==> Cleared(t, stages[t].e))
      && (forall t :: t in checks && !checks[t].Passed() ==>
            stages[t].Settled? && stages[t].result.Failure? && checks[t].FailsWith(stages[t].result.code))
      && (forall i :: 0 <= i < |claims| && !claims[i].Passed() ==>
            var r := StageOf(stages, claims[i].ticket);
            r.Settled? && r.result.Failure? && claims[i].FailsWith(r.result.code))
    }

    static function StageOf(stages: map<Ticket, Stage>, t: Ticket): Stage {
      if t in stages then stages[t] else Settled(Success)
    }

    static predicate Past(stages: map<Ticket, Stage>, t: Ticket) {
      t in stages && (stages[t].Executing? || stages[t].Settled?)
    }

    function Extended(c: Claim): History {
      this.(claims := claims + [c], started := if c.Passed() then started + {c.ticket} else started)
    }

    function Looked(t: Ticket, c: Check): History {
      this.(checks := checks[t := c])
    }
  }

  // ----- the slots that cancel finds

  /** A delivery takes or frees the cancel slot of its envelope id. */
  datatype SlotEvent = Starts(ticket: Ticket, id: string) | Ends(ticket: Ticket, id: string)

  /** `inflight` after these events: set by id, and deleted by id whoever holds the slot. */
  function SlotsAfter(log: seq<SlotEvent>): map<string, Ticket> {
    if log == [] then map[]
    else
      var before, last := SlotsAfter(log[..|log| - 1]), log[|log| - 1];
      if last.Starts? then before[last.id := last.ticket] else before - {last.id}
  }

  /** The delivery whose start is the latest event of that id, if the latest is a start. */
  function LatestStart(log: seq<SlotEvent>, id: string): Option<Ticket> {
    if log == [] then None
    else
      var last := log[|log| - 1];
      if last.id != id then LatestStart(log[..|log| - 1], id)
      else if last.Starts? then Some(last.ticket)
      else None
  }

  lemma {:induction false} SlotIsLatestStart(log: seq<SlotEvent>, id: string)
    ensures LatestStart(log, id) == if id in SlotsAfter(log) then Some(SlotsAfter(log)[id]) else None
    decreases |log|
  {
    if log != [] { SlotIsLatestStart(log[..|log| - 1], id); }
  }

  lemma OneMoreSlotEvent(log: seq<SlotEvent>, e: SlotEvent)
    ensures SlotsAfter(log + [e]) == if e.Starts? then SlotsAfter(log)[e.id := e.ticket] else SlotsAfter(log) - {e.id}
  {
    assert (log + [e])[..|log|] == log;
  }

  ghost predicate StartsOnce(log: seq<SlotEvent>) {
    forall i, j :: 0 <= i < j < |log| && log[i].Starts? && log[j].Starts? ==> log[i].ticket != log[j].ticket
  }

  /**
   * A delivery that started can be cancelled exactly as long as no delivery of the same id starts or ends
   * after it: a second one takes the slot over, and the first to end takes it away.
   */
  lemma {:induction false} CancellableUntilNextEvent(log: seq<SlotEvent>, i: nat)
    requires StartsOnce(log) && i < |log| && log[i].Starts?
    ensures LatestStart(log, log[i].id) == Some(log[i].ticket) <==> forall j :: i < j < |log| ==> log[j].id != log[i].id
    decreases |log|
  {
    var last := |log| - 1;
    if i < last {
      CancellableUntilNextEvent(log[..last], i);
      assert forall j :: i < j < last ==> log[..last][j] == log[j];
    }
  }

  /** Every slot leads to an executing delivery of its id, and every executing delivery started, once. */
  ghost predicate SlotsFit(inflight: map<string, Ticket>, slots: seq<SlotEvent>, stages: map<Ticket, Stage>) {
    && inflight == SlotsAfter(slots) && StartsOnce(slots)
    && (forall id :: id in inflight ==>
          inflight[id] in stages && stages[inflight[id]].Executing? && stages[inflight[id]].e.id == id)
    && (forall t :: t in stages && stages[t].Executing? ==> Starts(t, stages[t].e.id) in slots)
    && (forall i :: 0 <= i < |slots| && slots[i].Starts? ==> History.Past(stages, slots[i].ticket))
  }

  lemma SlotsUnmoved(inflight: map<string, Ticket>, slots: seq<SlotEvent>, stages: map<Ticket, Stage>, t: Ticket, next: Stage)
    requires SlotsFit(inflight, slots, stages) && !History.Past(stages, t) && !next.Executing?
    ensures SlotsFit(inflight, slots, stages[t := next])
  {
    hide SlotsAfter;
  }

  lemma SlotsStart(inflight: map<string, Ticket>, slots: seq<SlotEvent>, stages: map<Ticket, Stage>, t: Ticket, e: Envelope)
    requires SlotsFit(inflight, slots, stages) && !History.Past(stages, t)
    ensures SlotsFit(inflight[e.id := t], slots + [Starts(t, e.id)], stages[t := Executing(e)])
  {
    OneMoreSlotEvent(slots, Starts(t, e.id));
    hide SlotsAfter;
  }

  lemma SlotsEnd(inflight: map<string, Ticket>, slots: seq<SlotEvent>, stages: map<Ticket, Stage>, t: Ticket, r: Result)
    requires SlotsFit(inflight, slots, stages) && t in stages && stages[t].Executing?
    ensures SlotsFit(inflight - {stages[t].e.id}, slots + [Ends(t, stages[t].e.id)], stages[t := Settled(r)])
  {
    OneMoreSlotEvent(slots, Ends(t, stages[t].e.id));
    hide SlotsAfter;
  }

  class JobRunner {
    const replay: DurableReplayGuard
    /** envelope id -> the delivery whose abort controller is registered under it. */
    var inflight: map<string, Ticket>
    var stages: map<Ticket, Stage>
    ghost var history: History
    ghost var slots: seq<SlotEvent>

    constructor (replay: DurableReplayGuard)
      requires replay.Valid() && !replay.closed
      ensures Valid() && this.replay == replay && stages == map[] && inflight == map[]
      ensures history == History(replay.maxEntries, replay.table, [], {}, map[]) && slots == []
    {
      this.replay := replay;
      inflight, stages, slots := map[], map[], [];
      history := History(replay.maxEntries, replay.table, [], {}, map[]);
    }

    /**
     * The guard answered every claim as DurableStep says, starting from the rows it was opened on, and where every
     * delivery stands is explained by what was seen of it.
     */
    ghost predicate Valid()
      reads this, replay
    {
      && replay.Valid() && !replay.closed
      && history.max == replay.maxEntries && history.Sound() && history.Fits(stages) && history.Explains(stages)
      && replay.table == TableAfter(history.max, history.rows, Calls(history.claims))
      && SlotsFit(inflight, slots, stages)
    }

    /** A job frame arrives: `run` begins with an await on the verifier. */
    method Deliver(t: Ticket, e: Envelope)
      requires Valid() && t !in stages
      modifies this`stages
      ensures Valid()
      ensures stages == old(stages)[t := Verifying(e)]
    {
      DeliverKeeps(history, stages, t, e);
      hide SlotsFit, History.Sound, History.Fits, History.Explains;
      SlotsUnmoved(inflight, slots, stages, t, Verifying(e));
      stages := stages[t := Verifying(e)];
    }

    /** The verifier answered; assertFresh reads the clock to compute its window and awaits the guard. */
    method Verified(t: Ticket, authentic: bool, verifiedAt: int, now: int)
      requires Valid() && t in stages && stages[t].Verifying?
      modifies this`stages, this`history
      ensures Valid()
      ensures history == old(history).Looked(t, Check(old(stages[t]).e, authentic, verifiedAt))
      ensures t in stages && stages == old(stages)[t := stages[t]]
      ensures if history.checks[t].Passed() then stages[t] == Claiming(old(stages[t]).e, now)
              else stages[t].Settled? && stages[t].result.Failure? && history.checks[t].FailsWith(stages[t].result.code)
    {
      var e := stages[t].e;
      var problem := VerifyJob(e, authentic, verifiedAt);
      VerifyJobChecks(e, authentic, verifiedAt);
      hide SlotsFit, VerifyJob, History.Sound, History.Explains, History.Fits, Check.Passed, Check.FailsWith;
      CheckFits(history, stages, t, Check(e, authentic, verifiedAt),
        if problem.Some? then Settled(Failure(problem.value)) else Claiming(e, now));
      history := history.Looked(t, Check(e, authentic, verifiedAt));
      SlotsUnmoved(inflight, slots, stages, t, if problem.Some? then Settled(Failure(problem.value)) else Claiming(e, now));
      if problem.Some? {
        stages := stages[t := Settled(Failure(problem.value))];
      } else {
        stages := stages[t := Claiming(e, now)];
      }
    }

    /**
     * The guard runs its transaction at its own clock reading; the continuation then authorises the
     * action and, if that passes, registers a controller and starts the adapter.
     */
    method Claimed(t: Ticket, now: int, authorised: bool) returns (answer: Answer)
      requires Valid() && t in stages && stages[t].Claiming?
      modifies this, replay`table
      ensures Valid()
      ensures var s := old(stages[t]);
              && history == old(history).Extended(Claim(t, s.e, s.checkedAt, now, answer, authorised))
              && inflight == (if answer == Fresh && authorised then old(inflight)[s.e.id := t] else old(inflight))
              && slots == old(slots) + (if answer == Fresh && authorised then [Starts(t, s.e.id)] else [])
              && stages == old(stages)[t := AfterClaim(s.e, answer, authorised)]
    {
      hide SlotsFit, History.Fits, History.Sound, History.Explains, DurableStep, ReplayTtl;
      var s := stages[t];
      answer := replay.Remember(s.e.id, ReplayTtl(s.e, s.checkedAt), now);
      ghost var c := Claim(t, s.e, s.checkedAt, now, answer, authorised);
      ClaimKeeps(history, stages, inflight, slots, c);
      history := history.Extended(c);
      if answer == Replay {
        stages := stages[t := Settled(Failure(ReplayDetected))];
      } else if answer != Fresh {
        stages := stages[t := Settled(Failure(GuardFailed))];
      } else if !authorised {
        stages := stages[t := Settled(Failure(NotAuthorized))];
      } else {
        inflight := inflight[s.e.id := t];
        slots := slots + [Starts(t, s.e.id)];
        stages := stages[t := Executing(s.e)];
      }
    }

    /** The adapter, its timeout or its cancellation settled; the controller is dropped either way. */
    method Finished(t: Ticket, outcome: Result)
      requires Valid() && t in stages && stages[t].Executing?
      modifies this`stages, this`inflight, this`slots
      ensures Valid()
      ensures stages == old(stages)[t := Settled(outcome)]
      ensures inflight == old(inflight) - {old(stages[t]).e.id} && slots == old(slots) + [Ends(t, old(stages[t]).e.id)]
    {
      FinishKeeps(history, stages, t, outcome);
      hide SlotsFit, History.Sound, History.Fits, History.Explains;
      SlotsEnd(inflight, slots, stages, t, outcome);
      slots := slots + [Ends(t, stages[t].e.id)];
      inflight := inflight - {stages[t].e.id};
      stages := stages[t := Settled(outcome)];
    }

    /**
     * `cancel(jobId)`: the delivery whose controller is aborted, if any. It is one that executes, of that
     * very id, and the latest to start, with none of that id having ended since.
     */
    method Cancel(jobId: string) returns (target: Option<Ticket>)
      requires Valid()
      ensures target == LatestStart(slots, jobId)
      ensures target.Some? ==> target.value in stages && stages[target.value].Executing? && stages[target.value].e.id == jobId
    {
      SlotIsLatestStart(slots, jobId);
      if jobId !in inflight {
        return None;
      }
      target := Some(inflight[jobId]);
    }
  }

  function AfterClaim(e: Envelope, answer: Answer, authorised: bool): Stage {
    if answer == Replay then Settled(Failure(ReplayDetected))
    else if answer != Fresh then Settled(Failure(GuardFailed))
    else if !authorised then Settled(Failure(NotAuthorized))
    else Executing(e)
  }

  /** verifyJob passes what its four checks pass, and names the first that fails. */
  lemma VerifyJobChecks(e: Envelope, authentic: bool, now: int)
    ensures VerifyJob(e, authentic, now).None? <==> Check(e, authentic, now).Passed()
    ensures VerifyJob(e, authentic, now).Some? ==> Check(e, authentic, now).FailsWith(VerifyJob(e, authentic, now).value)
  {
  }

  /** The verdict of the verifier takes a delivery out of Verifying, once. */
  lemma CheckFits(h: History, stages: map<Ticket, Stage>, t: Ticket, c: Check, next: Stage)
    requires h.Sound() && h.Fits(stages) && h.Explains(stages)
    requires t in stages && stages[t] == Verifying(c.e)
    requires if c.Passed() then next.Claiming? && next.e == c.e
             else next.Settled? && next.result.Failure? && c.FailsWith(next.result.code)
    ensures h.Looked(t, c).Sound() && h.Looked(t, c).Fits(stages[t := next]) && h.Looked(t, c).Explains(stages[t := next])
  {
    hide Check.Passed, Check.FailsWith, Claim.FailsWith, Claim.Passed, DurableAnswers;
    CheckExplains(h, stages, t, c, next);
    hide History.Explains;
  }

  lemma CheckExplains(h: History, stages: map<Ticket, Stage>, t: Ticket, c: Check, next: Stage)
    requires h.Fits(stages) && h.Explains(stages)
    requires t in stages && stages[t] == Verifying(c.e)
    requires if c.Passed() then next.Claiming? && next.e == c.e
             else next.Settled? && next.result.Failure? && c.FailsWith(next.result.code)
    ensures h.Looked(t, c).Explains(stages[t := next])
  {
    hide Check.Passed, Check.FailsWith, Claim.FailsWith, Claim.Passed;
    assert forall i :: 0 <= i < |h.claims| ==> History.Past(stages, h.claims[i].ticket);
  }

  /** The guard's answer and the allowlist's take a delivery out of Claiming, once. */
  lemma ClaimKeeps(h: History, stages: map<Ticket, Stage>, inflight: map<string, Ticket>, slots: seq<SlotEvent>, c: Claim)
    requires h.Sound() && h.Fits(stages) && h.Explains(stages) && SlotsFit(inflight, slots, stages)
    requires c.ticket in stages && stages[c.ticket].Claiming? && stages[c.ticket].e == c.e
    requires c.answer == DurableStep(h.max, TableAfter(h.max, h.rows, Calls(h.claims)), false, CallOf(c)).1
    ensures var after, n := stages[c.ticket := AfterClaim(c.e, c.answer, c.authorised)], h.Extended(c);
            && n.Sound() && n.Fits(after) && n.Explains(after)
            && TableAfter(n.max, n.rows, Calls(n.claims))
                 == DurableStep(h.max, TableAfter(h.max, h.rows, Calls(h.claims)), false, CallOf(c)).0
            && (if c.answer == Fresh && c.authorised
                then SlotsFit(inflight[c.e.id := c.ticket], slots + [Starts(c.ticket, c.e.id)], after)
                else SlotsFit(inflight, slots, after))
  {
    assert h.Cleared(c.ticket, c.e);
    hide SlotsFit, History.Fits, History.Sound, History.Explains, History.Cleared, DurableStep;
    HistoryExtends(h, stages, c, AfterClaim(c.e, c.answer, c.authorised));
    ClaimExplains(h, stages, c, AfterClaim(c.e, c.answer, c.authorised));
    if c.Passed() {
      SlotsStart(inflight, slots, stages, c.ticket, c.e);
    } else {
      SlotsUnmoved(inflight, slots, stages, c.ticket, AfterClaim(c.e, c.answer, c.authorised));
    }
  }

  lemma ClaimExplains(h: History, stages: map<Ticket, Stage>, c: Claim, next: Stage)
    requires h.Sound() && h.Fits(stages) && h.Explains(stages)
    requires c.ticket in stages && stages[c.ticket].Claiming? && stages[c.ticket].e == c.e
    requires if c.Passed() then next == Executing(c.e)
             else next.Settled? && next.result.Failure? && c.FailsWith(next.result.code)
    ensures h.Extended(c).Explains(stages[c.ticket := next])
  {
    hide Check.Passed, Check.FailsWith, Claim.FailsWith, DurableAnswers;
    assert forall i :: 0 <= i < |h.claims| ==> History.Past(stages, h.claims[i].ticket);
  }

  lemma DeliverKeeps(h: History, stages: map<Ticket, Stage>, t: Ticket, e: Envelope)
    requires h.Fits(stages) && h.Explains(stages) && t !in stages
    ensures h.Fits(stages[t := Verifying(e)]) && h.Explains(stages[t := Verifying(e)])
  {
    hide Check.Passed, Check.FailsWith, Claim.FailsWith, Claim.Passed;
    assert forall i :: 0 <= i < |h.claims| ==> History.Past(stages, h.claims[i].ticket);
  }

  lemma FinishKeeps(h: History, stages: map<Ticket, Stage>, t: Ticket, r: Result)
    requires h.Sound() && h.Fits(stages) && h.Explains(stages) && t in stages && stages[t].Executing?
    ensures h.Fits(stages[t := Settled(r)]) && h.Explains(stages[t := Settled(r)])
  {
    hide Check.Passed, Check.FailsWith, Claim.FailsWith, DurableAnswers;
    assert t in h.started;
  }

  lemma HistoryExtends(h: History, stages: map<Ticket, Stage>, c: Claim, next: Stage)
    requires h.Sound() && h.Fits(stages) && h.Cleared(c.ticket, c.e)
    requires c.ticket in stages && stages[c.ticket].Claiming?
    requires c.answer == DurableStep(h.max, TableAfter(h.max, h.rows, Calls(h.claims)), false, CallOf(c)).1
    requires next.Settled? || (next.Executing? && c.Passed())
    ensures h.Extended(c).Sound() && h.Extended(c).Fits(stages[c.ticket := next])
    ensures Calls(h.claims + [c]) == Calls(h.claims) + [CallOf(c)]
    ensures TableAfter(h.max, h.rows, Calls(h.claims + [c]))
         == DurableStep(h.max, TableAfter(h.max, h.rows, Calls(h.claims)), false, CallOf(c)).0
  {
    hide DurableStep, Distinct, Check.Passed, Claim.Passed, ReplayTtl;
    RunExtends(h.max, h.rows, Calls(h.claims), CallOf(c));
    assert Calls(h.claims + [c]) == Calls(h.claims) + [CallOf(c)];
    assert Answers(h.claims + [c]) == Answers(h.claims) + [c.answer];
    assert forall i :: 0 <= i < |h.claims| ==> History.Past(stages, h.claims[i].ticket);
  }

  // ----- the claims as a run of the guard

  function Calls(cs: seq<Claim>): (r: seq<Call>)
    ensures |r| == |cs|
  {
    seq(|cs|, i requires 0 <= i < |cs| => CallOf(cs[i]))
  }

  function Answers(cs: seq<Claim>): (r: seq<Answer>)
    ensures |r| == |cs|
  {
    seq(|cs|, i requires 0 <= i < |cs| => cs[i].answer)
  }

  lemma {:induction false} RunExtends(max: nat, table: Table, calls: seq<Call>, c: Call)
    ensures var last := DurableStep(max, TableAfter(max, table, calls), false, c);
            && TableAfter(max, table, calls + [c]) == last.0
            && DurableAnswers(max, table, calls + [c]) == DurableAnswers(max, table, calls) + [last.1]
    decreases calls
  {
    hide DurableStep;
    if calls == [] {
      assert [] + [c] == [c] && [c][1..] == [];
    } else {
      assert (calls + [c])[1..] == calls[1..] + [c];
      RunExtends(max, DurableStep(max, table, false, calls[0]).0, calls[1..], c);
    }
  }

  lemma {:induction false} RunSplits(max: nat, table: Table, calls: seq<Call>, k: nat)
    requires k <= |calls|
    ensures DurableAnswers(max, table, calls)[k..] == DurableAnswers(max, TableAfter(max, table, calls[..k]), calls[k..])
    ensures max >= 1 && Distinct(table) && |table| <= max ==>
              Distinct(TableAfter(max, table, calls[..k])) && |TableAfter(max, table, calls[..k])| <= max
    decreases calls
  {
    if k > 0 {
      var next := DurableStep(max, table, false, calls[0]).0;
      if max >= 1 && Distinct(table) && |table| <= max {
        LiveDistinct(table, calls[0].now);
        WindowBounded(max, Live(table, calls[0].now), calls[0]);
      }
      hide DurableStep, Distinct;
      RunSplits(max, next, calls[1..], k - 1);
      assert calls[..k][1..] == calls[1..][..k - 1];
      assert calls[k..] == calls[1..][k - 1..];
    } else {
      assert calls[..0] == [];
    }
  }

  lemma {:induction false} MonotoneSuffix(start: int, calls: seq<Call>, k: nat)
    requires Monotone(start, calls) && k < |calls|
    ensures Monotone(calls[k].now, calls[k..])
    decreases calls
  {
    if k > 0 {
      MonotoneSuffix(calls[0].now, calls[1..], k - 1);
      assert calls[k..] == calls[1..][k - 1..];
    } else {
      assert calls[0..] == calls;
    }
  }

  /**
   * Nothing unverified goes past the verifier: whatever is claiming its id, executes or was ever started was
   * authentic, of version 1, in time and not from the future when the verifier saw it; what was started was also
   * accepted by the guard and by the allowlist.
   */
  lemma OnlyGenuineRuns(runner: JobRunner, t: Ticket)
    requires runner.Valid()
    requires t in runner.history.started || (t in runner.stages && (runner.stages[t].Claiming? || runner.stages[t].Executing?))
    ensures t in runner.history.checks
    ensures var c := runner.history.checks[t];
            c.authentic && c.e.protocolVersion == "1" && c.at <= c.e.expiresAt && c.e.issuedAt <= c.at + 60000
    ensures forall i :: 0 <= i < |runner.history.claims| && runner.history.claims[i].ticket == t && t in runner.history.started ==>
              runner.history.claims[i].answer == Fresh && runner.history.claims[i].authorised
  {
    hide SlotsFit, DurableAnswers;
  }

  /** What fails a check or a claim is settled with that error, for good; a bad signature comes first. */
  lemma FailureIsNamed(runner: JobRunner, t: Ticket)
    requires runner.Valid() && t in runner.history.checks && !runner.history.checks[t].Passed()
    ensures t in runner.stages && runner.stages[t].Settled? && runner.stages[t].result.Failure? && t !in runner.history.started
    ensures var c := runner.history.checks[t];
            runner.stages[t].result.code
              == if !c.authentic then NotAuthorized else if c.e.protocolVersion != "1" then InvalidJob else Timeout
  {
    hide SlotsFit, DurableAnswers;
  }

  lemma RefusalIsNamed(runner: JobRunner, i: nat)
    requires runner.Valid() && i < |runner.history.claims|
    ensures var c := runner.history.claims[i];
            && c.ticket in runner.stages
            && (c.ticket in runner.history.started <==> c.answer == Fresh && c.authorised)
            && (c.ticket !in runner.history.started ==>
                  runner.stages[c.ticket] == Settled(Failure(if c.answer == Replay then ReplayDetected
                                                             else if c.answer == Fresh then NotAuthorized else GuardFailed)))
  {
    hide SlotsFit, DurableAnswers;
    assert History.Past(runner.stages, runner.history.claims[i].ticket);
  }

  /** A delivery whose guard call came after its freshness check keeps its id at least to the envelope's expiry. */
  lemma StoredToExpiry(c: Claim)
    requires c.checkedAt <= c.now
    ensures c.now + CallOf(c).ttlMs >= c.e.expiresAt
  {
  }

  /**
   * At most once. Over any history of the runner on a monotone clock, let two deliveries of one
   * envelope both reach an adapter, the later one claiming strictly before the envelope expires: then
   * at least `max` other ids were accepted between the two claims.
   */
  lemma ExecutedAtMostOnce(h: History, start: int, i: nat, j: nat)
    requires h.Sound() && Monotone(start, Calls(h.claims))
    requires i < j < |h.claims| && h.claims[i].ticket in h.started && h.claims[j].ticket in h.started
    requires h.claims[i].e == h.claims[j].e
    requires h.claims[i].checkedAt <= h.claims[i].now
    requires h.claims[j].now < h.claims[j].e.expiresAt
    ensures OthersAccepted(Calls(h.claims)[i..], Answers(h.claims)[i..], j - i, h.claims[i].e.id) >= h.max
  {
    hide DurableStep, Distinct, Monotone;
    var calls := Calls(h.claims);
    var table := TableAfter(h.max, h.rows, calls[..i]);
    RunSplits(h.max, h.rows, calls, i);
    MonotoneSuffix(start, calls, i);
    StoredToExpiry(h.claims[i]);
    assert Answers(h.claims)[i..] == DurableAnswers(h.max, table, calls[i..]);
    assert calls[i..][0] == calls[i] && calls[i..][j - i] == calls[j];
    assert Answers(h.claims)[i..][0] == Answers(h.claims)[i] && Answers(h.claims)[i..][j - i] == Answers(h.claims)[j];
    AtMostOnce(h.max, table, calls[i].now, calls[i..], j - i);
  }

  lemma {:induction false} HoldsSuffix(t: Table, k: nat, id: string)
    requires k <= |t| && !Holds(t, id)
    ensures !Holds(t[k..], id)
    decreases k
  {
    if k > 0 {
      HoldsSuffix(t[1..], k - 1, id);
      assert t[k..] == t[1..][k - 1..];
    }
  }

  lemma {:induction false} GetAppended(t: Table, x: Entry)
    requires !Holds(t, x.id)
    ensures Get(t + [x], x.id) == Some(x.expiresAt)
  {
    if t == [] {
      assert t + [x] == [x];
    } else {
      assert (t + [x])[1..] == t[1..] + [x];
      GetAppended(t[1..], x);
    }
  }

  /** An id is held, with the expiry it was accepted with, however full the table was. */
  lemma GetAccepted(max: nat, live: Table, x: Entry)
    requires max >= 1 && !Holds(live, x.id)
    ensures Get(Newest(live + [x], max), x.id) == Some(x.expiresAt)
  {
    var k := if |live| + 1 <= max then 0 else |live| + 1 - max;
    HoldsSuffix(live, k, x.id);
    GetAppended(live[k..], x);
    assert Newest(live + [x], max) == live[k..] + [x];
  }

  /** What the guard is asked when a delivery is checked and claimed at the instant `now`. */
  function CallAt(e: Envelope, now: int): Call {
    Call(e.id, ReplayTtl(e, now), now)
  }

  /**
   * The bound is strict: verifyJob accepts an envelope at the instant it expires, when the guard has already
   * let go of its id. Of two deliveries in a row that both pass verifyJob, the second is accepted as well if and
   * only if it comes at that very instant and the first came before it.
   */
  lemma AcceptedTwiceAtExpiry(max: nat, rows: Table, e: Envelope, first: int, second: int)
    requires max >= 1 && Distinct(rows) && |rows| <= max && !Holds(Live(rows, first), e.id)
    requires VerifyJob(e, true, first) == None && VerifyJob(e, true, second) == None && first <= second
    requires Usable(CallAt(e, first)) && SafeClock(CallAt(e, first)) && Usable(CallAt(e, second)) && SafeClock(CallAt(e, second))
    ensures DurableAnswers(max, rows, [CallAt(e, first), CallAt(e, second)])
         == [Fresh, if first < second == e.expiresAt then Fresh else Replay]
  {
    hide Distinct, Live, Newest, Get, Holds, Usable;
    var c, d := CallAt(e, first), CallAt(e, second);
    var x := Entry(e.id, first + c.ttlMs);
    var table := DurableStep(max, rows, false, c).0;
    LiveDistinct(rows, first);
    GetAccepted(max, Live(rows, first), x);
    AppendDistinct(Live(rows, first), x, max);
    LiveGet(table, e.id, second);
    assert DurableStep(max, rows, false, c) == (Newest(Live(rows, first) + [x], max), Fresh);
    assert x.expiresAt > second <==> !(first < second == e.expiresAt);
    assert DurableStep(max, table, false, d).1 == if x.expiresAt > second then Replay else Fresh;
    assert [c, d][1..] == [d] && [d][1..] == [];
    assert DurableAnswers(max, table, [d]) == [DurableStep(max, table, false, d).1];
  }

  lemma BothClaimsFresh(h: History, e: Envelope, now: int, first: Answer, second: Answer)
    requires h.Sound() && h.rows == [] && now < e.expiresAt
    requires VerifyJob(e, true, now) == None
    requires Usable(CallAt(e, now)) && SafeClock(CallAt(e, now)) && SafeClock(CallAt(e, e.expiresAt))
    requires h.claims == [Claim(0, e, now, now, first, true), Claim(1, e, e.expiresAt, e.expiresAt, second, true)]
    ensures first == Fresh && second == Fresh
  {
    AcceptedTwiceAtExpiry(h.max, [], e, now, e.expiresAt);
    hide DurableStep, DurableAnswers, Usable, SafeClock, VerifyJob;
    assert Calls(h.claims) == [CallAt(e, now), CallAt(e, e.expiresAt)];
    assert Answers(h.claims)[0] == first && Answers(h.claims)[1] == second;
  }

  lemma FirstFresh(h: History, e: Envelope, now: int, first: Answer)
    requires h.Sound() && h.rows == [] && h.claims == [Claim(0, e, now, now, first, true)]
    requires Usable(CallAt(e, now)) && SafeClock(CallAt(e, now))
    ensures first == Fresh
  {
    hide Usable, ReplayTtl;
    assert Calls(h.claims) == [CallAt(e, now)];
    assert Answers(h.claims)[0] == first;
    assert DurableAnswers(h.max, [], [CallAt(e, now)])[0] == DurableStep(h.max, [], false, CallAt(e, now)).1;
  }

  /** One delivery from arrival to its adapter, all at the instant `now`. */
  method DeliverAt(runner: JobRunner, t: Ticket, e: Envelope, now: int) returns (answer: Answer)
    requires runner.Valid() && t !in runner.stages && VerifyJob(e, true, now) == None
    modifies runner, runner.replay`table
    ensures runner.Valid() && runner.history.Sound() && runner.history == old(runner.history).Looked(t, Check(e, true, now)).Extended(Claim(t, e, now, now, answer, true))
    ensures answer == Fresh ==> runner.stages == old(runner.stages)[t := Executing(e)]
    ensures answer == Fresh ==> runner.slots == old(runner.slots) + [Starts(t, e.id)]
    ensures answer != Fresh ==> runner.stages.Keys == old(runner.stages).Keys + {t}
  {
    VerifyJobChecks(e, true, now);
    hide SlotsFit, VerifyJob, DurableStep, History.Fits, History.Sound, History.Explains, Check.Passed;
    runner.Deliver(t, e);
    runner.Verified(t, true, now, now);
    answer := runner.Claimed(t, now, true);
  }

  /** A runner on an empty guard whose first delivery executes. */
  method FirstExecutes(max: nat, e: Envelope, now: int) returns (runner: JobRunner)
    requires max >= 1 && VerifyJob(e, true, now) == None && Usable(CallAt(e, now)) && SafeClock(CallAt(e, now))
    ensures fresh(runner) && fresh(runner.replay) && runner.Valid()
    ensures runner.history.max == max && runner.history.rows == []
    ensures runner.history.claims == [Claim(0, e, now, now, Fresh, true)]
    ensures runner.stages == map[0 := Executing(e)] && runner.slots == [Starts(0, e.id)]
  {
    var replay := new DurableReplayGuard(max, []);
    runner := new JobRunner(replay);
    hide SlotsFit, VerifyJob, DurableStep, DurableAnswers, History.Sound, ReplayTtl, TableAfter, Usable, SafeClock, JobRunner.Valid;
    var first := DeliverAt(runner, 0, e, now);
    FirstFresh(runner.history, e, now, first);
  }

  /** A second delivery of the same envelope, at the instant of expiry, executes as well. */
  method SecondExecutes(runner: JobRunner, e: Envelope, now: int)
    requires runner.Valid() && now < e.expiresAt && VerifyJob(e, true, now) == None
    requires Usable(CallAt(e, now)) && SafeClock(CallAt(e, now)) && SafeClock(CallAt(e, e.expiresAt))
    requires runner.history.rows == [] && runner.history.claims == [Claim(0, e, now, now, Fresh, true)]
    requires runner.stages == map[0 := Executing(e)] && runner.slots == [Starts(0, e.id)]
    modifies runner, runner.replay`table
    ensures runner.Valid() && runner.stages == map[0 := Executing(e), 1 := Executing(e)]
    ensures runner.slots == [Starts(0, e.id), Starts(1, e.id)]
  {
    assert VerifyJob(e, true, e.expiresAt) == None;
    hide SlotsFit, VerifyJob, DurableStep, DurableAnswers, History.Sound, ReplayTtl, TableAfter, Usable, SafeClock, JobRunner.Valid;
    var second := DeliverAt(runner, 1, e, e.expiresAt);
    BothClaimsFresh(runner.history, e, now, Fresh, second);
  }

  /**
   * What cancel cannot reach: two deliveries of one envelope execute, the second accepted at the instant of
   * expiry; when the first ends, the second executes on without a slot.
   */
  method SlotLostAtExpiry(max: nat, e: Envelope, now: int) returns (runner: JobRunner, target: Option<Ticket>)
    requires max >= 1 && now < e.expiresAt && VerifyJob(e, true, now) == None
    requires Usable(CallAt(e, now)) && SafeClock(CallAt(e, now)) && SafeClock(CallAt(e, e.expiresAt))
    ensures runner.Valid() && 1 in runner.stages && runner.stages[1] == Executing(e)
    ensures target == None
  {
    hide SlotsFit, VerifyJob, Usable, SafeClock, JobRunner.Valid, ReplayTtl;
    runner := FirstExecutes(max, e, now);
    SecondExecutes(runner, e, now);
    runner.Finished(0, Success);
    target := runner.Cancel(e.id);
  }
}
