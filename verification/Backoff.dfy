/**
 * The reconnect curve of apps/agent/src/backoff.ts and the polling loop of apps/agent/src/pairing.ts.
 * Delays are real numbers; rounding is Math.round, which rounds a half up.
 */
module Backoff {
  import opened Prelude

  const RECONNECT_BASE_MS := 1000.0
  const RECONNECT_MAX_MS := 30000.0
  const JITTER_RATIO := 0.2
  const MAX_EXPONENT := 40
  const POLL_BASE_MS := 2000.0
  const POLL_MAX_MS := 10000.0
  const MAX_PAIRING_WAIT_MS := 900_000
  const CLAIM_LIMIT := 60

  function RealMin(a: real, b: real): real {
    if a < b then a else b
  }

  function RealMax(a: real, b: real): real {
    if a < b then b else a
  }

  function Clamp(value: real, low: real, high: real): real {
    RealMin(high, RealMax(low, value))
  }

  /** A missing, non-finite or non-positive option falls back. */
  function Positive(value: Option<real>, fallback: real): real {
    if value.Some? && value.value > 0.0 then value.value else fallback
  }

  function Power(steps: nat): (p: real)
    ensures p >= 1.0
  {
    if steps == 0 then 1.0 else 2.0 * Power(steps - 1)
  }

  function Steps(attempt: int): nat {
    Min(MAX_EXPONENT, Max(0, attempt - 1))
  }

  function Round(x: real): real {
    (x + 0.5).Floor as real
  }

  function Doubled(base: real, times: nat): real {
    base * Power(times)
  }

  function Target(attempt: int, base: real, max: real): real {
    RealMin(max, Doubled(base, Steps(attempt)))
  }

  function WithJitter(target: real, random: real): real {
    var jitter := target * JITTER_RATIO * (random * 2.0 - 1.0);
    target + jitter
  }

  function BackoffDelay(attempt: int, baseMs: Option<real>, maxMs: Option<real>, random: real): real {
    var base := Positive(baseMs, RECONNECT_BASE_MS);
    var max := RealMax(base, Positive(maxMs, RECONNECT_MAX_MS));
    Clamp(Round(WithJitter(Target(attempt, base, max), random)), base, max)
  }

  /** Whatever the attempt and the jitter, never below the base nor above the cap. */
  lemma DelayInBand(attempt: int, baseMs: Option<real>, maxMs: Option<real>, random: real)
    ensures var base := Positive(baseMs, RECONNECT_BASE_MS);
            base <= BackoffDelay(attempt, baseMs, maxMs, random) <= RealMax(base, Positive(maxMs, RECONNECT_MAX_MS))
  {
  }

  lemma {:induction false} PowerGrows(a: nat, b: nat)
    requires a <= b
    ensures Power(a) <= Power(b)
    decreases b
  {
    if a < b { PowerGrows(a, b - 1); }
  }

  lemma Scales(a: real, b: real, c: real)
    requires a <= b && c >= 0.0
    ensures a * c <= b * c && c * a <= c * b
  {
  }

  lemma DoubledGrows(base: real, a: nat, b: nat)
    requires a <= b && base > 0.0
    ensures Doubled(base, a) <= Doubled(base, b)
  {
    PowerGrows(a, b);
    Scales(Power(a), Power(b), base);
    hide Power;
  }

  lemma TargetGrows(a: int, b: int, base: real, max: real)
    requires a <= b && base > 0.0
    ensures Target(a, base, max) <= Target(b, base, max)
  {
    hide Doubled;
    DoubledGrows(base, Steps(a), Steps(b));
  }

  lemma RoundGrows(x: real, y: real)
    requires x <= y
    ensures Round(x) <= Round(y)
  {
    FloorGrows(x + 0.5, y + 0.5);
  }

  lemma FloorGrows(x: real, y: real)
    requires x <= y
    ensures x.Floor <= y.Floor
  {
    var a, b := x.Floor, y.Floor;
    assert a as real <= x && y < b as real + 1.0;
    assert a as real < (b + 1) as real;
  }

  lemma ClampGrows(x: real, y: real, low: real, high: real)
    requires x <= y
    ensures Clamp(x, low, high) <= Clamp(y, low, high)
  {
  }

  /** Between 80% and 120% of the target. */
  lemma JitterScales(target: real, random: real)
    ensures WithJitter(target, random) == target * (0.8 + 0.4 * random)
  {
  }

  lemma JitterGrows(t: real, u: real, r: real, s: real)
    requires 0.0 <= t <= u && 0.0 <= r <= s
    ensures WithJitter(t, r) <= WithJitter(u, s)
  {
    JitterScales(t, r);
    JitterScales(u, s);
    Scales(t, u, 0.8 + 0.4 * r);
    Scales(0.8 + 0.4 * r, 0.8 + 0.4 * s, u);
    hide WithJitter;
  }

  /** With the same jitter, a later attempt never waits less. */
  lemma DelayGrows(a: int, b: int, baseMs: Option<real>, maxMs: Option<real>, random: real)
    requires a <= b && 0.0 <= random < 1.0
    ensures BackoffDelay(a, baseMs, maxMs, random) <= BackoffDelay(b, baseMs, maxMs, random)
  {
    hide Round, Clamp, WithJitter;
    var base := Positive(baseMs, RECONNECT_BASE_MS);
    var max := RealMax(base, Positive(maxMs, RECONNECT_MAX_MS));
    TargetGrows(a, b, base, max);
    TargetPositive(a, base, max);
    hide Target;
    var t, u := Target(a, base, max), Target(b, base, max);
    JitterGrows(t, u, random, random);
    RoundGrows(WithJitter(t, random), WithJitter(u, random));
    ClampGrows(Round(WithJitter(t, random)), Round(WithJitter(u, random)), base, max);
  }

  lemma TargetPositive(attempt: int, base: real, max: real)
    requires base > 0.0 && max >= base
    ensures Target(attempt, base, max) >= 0.0
  {
    Scales(0.0, Power(Steps(attempt)), base);
  }

  /** The curve: base times 2 to the attempt less one (at most 40), capped, give or take 20% and a rounding. */
  lemma WithinTwentyPercent(attempt: nat, baseMs: Option<real>, maxMs: Option<real>, random: real)
    requires 1 <= attempt && 0.0 <= random < 1.0
    ensures var base := Positive(baseMs, 1000.0);
            var target := RealMin(RealMax(base, Positive(maxMs, 30000.0)), Doubled(base, Min(attempt - 1, 40)));
            0.8 * target - 0.5 <= BackoffDelay(attempt, baseMs, maxMs, random) <= 1.2 * target + 0.5
  {
    var base := Positive(baseMs, RECONNECT_BASE_MS);
    var max := RealMax(base, Positive(maxMs, RECONNECT_MAX_MS));
    PositiveIsPositive(baseMs, RECONNECT_BASE_MS);
    hide Clamp, WithJitter, Round, Positive, Doubled, Power;
    TargetIs(attempt, base, max);
    TargetAtLeastBase(attempt, base, max);
    hide Target, RealMin;
    NearTarget(Target(attempt, base, max), base, max, random);
  }

  lemma TargetIs(attempt: nat, base: real, max: real)
    requires 1 <= attempt
    ensures Target(attempt, base, max) == RealMin(max, Doubled(base, Min(attempt - 1, 40)))
  {
    hide Doubled, Power;
    assert Steps(attempt) == Min(attempt - 1, 40);
  }

  lemma NearTarget(target: real, base: real, max: real, random: real)
    requires 0.0 < base <= target <= max && 0.0 <= random < 1.0
    ensures 0.8 * target - 0.5 <= Clamp(Round(WithJitter(target, random)), base, max) <= 1.2 * target + 0.5
  {
    hide Clamp, WithJitter, Round;
    JitterBand(target, random);
    RoundBand(WithJitter(target, random));
    ClampBand(Round(WithJitter(target, random)), base, max, target);
  }

  lemma PositiveIsPositive(value: Option<real>, fallback: real)
    requires fallback > 0.0
    ensures Positive(value, fallback) > 0.0
  {
  }

  lemma TargetAtLeastBase(attempt: int, base: real, max: real)
    requires 0.0 < base <= max
    ensures base <= Target(attempt, base, max) <= max
  {
    Scales(1.0, Power(Steps(attempt)), base);
  }

  lemma JitterBand(target: real, random: real)
    requires target >= 0.0 && 0.0 <= random < 1.0
    ensures 0.8 * target <= WithJitter(target, random) <= 1.2 * target
  {
    JitterScales(target, random);
    Scales(0.8, 0.8 + 0.4 * random, target);
    Scales(0.8 + 0.4 * random, 1.2, target);
    hide WithJitter;
  }

  /** Math.round: the nearest whole number, and of two the higher. */
  lemma RoundsHalfUp(x: real, n: int)
    ensures Round(x) == n as real <==> n as real - 0.5 <= x < n as real + 0.5
  {
    var a := (x + 0.5).Floor;
    assert a as real <= x + 0.5 < a as real + 1.0;
    if a < n {
      AsReals(a + 1, n);
    } else if n < a {
      AsReals(n + 1, a);
    }
    hide Round;
    assert Round(x) == a as real by { RoundIs(x); }
  }

  lemma RoundIs(x: real)
    ensures Round(x) == (x + 0.5).Floor as real
  {
  }

  lemma AsReals(a: int, b: int)
    requires a <= b
    ensures a as real <= b as real && a as real == (a - 1) as real + 1.0
  {
  }

  lemma RoundBand(x: real)
    ensures x - 0.5 <= Round(x) <= x + 0.5
  {
  }

  /** Clamping to a band that holds the target brings a value no further from it. */
  lemma ClampBand(x: real, low: real, high: real, target: real)
    requires low <= target <= high
    ensures target <= x ==> target <= Clamp(x, low, high) <= x
    ensures x <= target ==> x <= Clamp(x, low, high) <= target
  {
  }

  // ----- polling

  function PollDelay(attempt: int, random: real): real {
    BackoffDelay(attempt, Some(POLL_BASE_MS), Some(POLL_MAX_MS), random)
  }

  /** The shortest wait before poll number `attempt`, at the lowest jitter. */
  function ShortestPoll(attempt: int): nat {
    if attempt <= 1 then 2000 else if attempt == 2 then 3200 else if attempt == 3 then 6400 else 8000
  }

  lemma Powers()
    ensures Power(0) == 1.0 && Power(1) == 2.0 && Power(2) == 4.0 && Power(3) == 8.0
  {
  }

  lemma PollTarget(attempt: int)
    requires attempt >= 1
    ensures Target(attempt, POLL_BASE_MS, POLL_MAX_MS)
         == if attempt == 1 then 2000.0 else if attempt == 2 then 4000.0 else if attempt == 3 then 8000.0 else 10000.0
  {
    Powers();
    if attempt > 3 {
      PowerGrows(3, Steps(attempt));
      Scales(8.0, Power(Steps(attempt)), POLL_BASE_MS);
    }
    hide Power;
  }

  lemma LowestPoll(attempt: int)
    requires attempt >= 1
    ensures PollDelay(attempt, 0.0) == ShortestPoll(attempt) as real
  {
    PollTarget(attempt);
    JitterScales(Target(attempt, POLL_BASE_MS, POLL_MAX_MS), 0.0);
    hide Target, WithJitter;
    assert 1600.5.Floor == 1600 && 3200.5.Floor == 3200 && 6400.5.Floor == 6400 && 8000.5.Floor == 8000;
  }

  lemma PollDelayAtLeast(attempt: int, random: real)
    requires attempt >= 1 && 0.0 <= random < 1.0
    ensures PollDelay(attempt, random) >= ShortestPoll(attempt) as real
  {
    hide Round, Clamp, WithJitter, Target, ShortestPoll;
    LowestPoll(attempt);
    var t := Target(attempt, POLL_BASE_MS, POLL_MAX_MS);
    TargetPositive(attempt, POLL_BASE_MS, POLL_MAX_MS);
    JitterGrows(t, t, 0.0, random);
    RoundGrows(WithJitter(t, 0.0), WithJitter(t, random));
    ClampGrows(Round(WithJitter(t, 0.0)), Round(WithJitter(t, random)), POLL_BASE_MS, POLL_MAX_MS);
  }

  /** The least time between the start and the end of `polls` waits. */
  function Shortest(polls: nat): nat {
    if polls == 0 then 0 else Shortest(polls - 1) + ShortestPoll(polls)
  }

  lemma {:induction false} ShortestIs(polls: nat)
    ensures polls >= 3 ==> Shortest(polls) == 11_600 + 8000 * (polls - 3)
    ensures polls < 3 ==> Shortest(polls) <= 5200
  {
    if polls > 0 { ShortestIs(polls - 1); }
  }

  lemma NoPollYet()
    ensures Shortest(0) == 0
  {
  }

  lemma NextPoll(attempt: nat, random: real)
    requires attempt >= 1 && 0.0 <= random < 1.0
    ensures Shortest(attempt - 1) as real + PollDelay(attempt, random) >= Shortest(attempt) as real
  {
    PollDelayAtLeast(attempt, random);
    hide PollDelay;
  }

  datatype Claim = Pending | Expired | Approved | Threw(code: string)

  predicate Retryable(code: string) {
    code == "UPSTREAM_ERROR" || code == "TIMEOUT" || code == "APPROVAL_REQUIRED" || code == "RATE_LIMITED"
  }

  /** What the world does around one poll: the jitter drawn, how much longer than asked it took, and the answer. */
  datatype Turn = Turn(random: real, late: real, claim: Claim)

  datatype Outcome = Paired | CodeExpired | Fatal(code: string) | NotApproved | Transport(code: string)

  /** The loop goes on while the code is pending, and after these errors. */
  predicate GoesOn(c: Claim) {
    c.Pending? || (c.Threw? && c.code in {"UPSTREAM_ERROR", "TIMEOUT", "APPROVAL_REQUIRED", "RATE_LIMITED"})
  }

  function LastError(world: nat -> Turn, polls: nat): Option<string> {
    if polls == 0 then None
    else if world(polls - 1).claim.Threw? then Some(world(polls - 1).claim.code)
    else LastError(world, polls - 1)
  }

  ghost predicate Fair(world: nat -> Turn) {
    forall i: nat :: 0.0 <= world(i).random < 1.0 && world(i).late >= 0.0
  }

  /** What the answers decide once the loop is over after `polls` polls. */
  ghost predicate Decides(world: nat -> Turn, polls: nat, outcome: Outcome) {
    match outcome
    case Paired => polls > 0 && world(polls - 1).claim == Approved && AllGoOn(world, polls - 1)
    case CodeExpired => polls > 0 && world(polls - 1).claim == Expired && AllGoOn(world, polls - 1)
    case Fatal(code) =>
      polls > 0 && world(polls - 1).claim == Threw(code) && !GoesOn(Threw(code)) && AllGoOn(world, polls - 1)
    case Transport(code) => AllGoOn(world, polls) && LastError(world, polls) == Some(code) && (code == "UPSTREAM_ERROR" || code == "TIMEOUT")
    case NotApproved =>
      AllGoOn(world, polls) && LastError(world, polls) != Some("UPSTREAM_ERROR") && LastError(world, polls) != Some("TIMEOUT")
  }

  ghost predicate AllGoOn(world: nat -> Turn, polls: nat) {
    forall i: nat :: i < polls ==> GoesOn(world(i).claim)
  }

  function Deadline(start: real, expiresAt: real): real {
    RealMin(expiresAt, start + MAX_PAIRING_WAIT_MS as real)
  }

  /** The clock after so many polls. */
  function ClockAfter(start: real, world: nat -> Turn, polls: nat): real {
    if polls == 0 then start
    else ClockAfter(start, world, polls - 1) + PollDelay(polls, world(polls - 1).random) + world(polls - 1).late
  }

  /** Every poll was begun before the deadline, and giving up means that it has passed. */
  ghost predicate Paces(start: real, expiresAt: real, world: nat -> Turn, polls: nat, outcome: Outcome) {
    && (forall i: nat :: i < polls ==> ClockAfter(start, world, i) < Deadline(start, expiresAt))
    && (TimedOut(outcome) ==> ClockAfter(start, world, polls) >= Deadline(start, expiresAt))
  }

  predicate TimedOut(outcome: Outcome) {
    outcome.NotApproved? || outcome.Transport?
  }

  /**
   * The loop of runPairing from the moment the code is shown. Whatever the jitter and the latencies, a code
   * that lives five minutes costs at most 40 claims, which leaves a third of the gateway's budget.
   */
  method RunPairing(start: real, expiresAt: real, world: nat -> Turn) returns (outcome: Outcome, polls: nat)
    requires Fair(world)
    ensures Decides(world, polls, outcome) && Paces(start, expiresAt, world, polls, outcome)
    ensures expiresAt - start <= 300_000.0 ==> polls <= 40 && 3 * polls <= 2 * CLAIM_LIMIT
    ensures polls <= 115
  {
    hide PollDelay, Shortest;
    NoPollYet();
    var deadline := Deadline(start, expiresAt);
    var now := start;
    var attempt: nat := 0;
    var lastError: Option<string> := None;
    while now < deadline
      invariant now >= start + Shortest(attempt) as real && now == ClockAfter(start, world, attempt)
      invariant forall i: nat :: i < attempt ==> ClockAfter(start, world, i) < deadline
      invariant AllGoOn(world, attempt) && lastError == LastError(world, attempt)
      invariant attempt > 0 ==> start + Shortest(attempt - 1) as real < deadline
      decreases 116 - attempt
    {
      BudgetOf(start, deadline, attempt);
      attempt := attempt + 1;
      var turn := world(attempt - 1);
      NextPoll(attempt, turn.random);
      now := now + PollDelay(attempt, turn.random) + turn.late;
      match turn.claim {
        case Threw(code) =>
          if !Retryable(code) {
            return Fatal(code), attempt;
          }
          lastError := Some(code);
        case Expired => return CodeExpired, attempt;
        case Approved => return Paired, attempt;
        case Pending =>
      }
    }
    if attempt > 0 { BudgetOf(start, deadline, attempt - 1); }
    polls := attempt;
    var transport := lastError == Some("UPSTREAM_ERROR") || lastError == Some("TIMEOUT");
    outcome := if transport then Transport(lastError.value) else NotApproved;
  }

  /** A poll after `done` others starts before the deadline only if so many fit. */
  lemma BudgetOf(start: real, deadline: real, done: nat)
    requires start + Shortest(done) as real < deadline && deadline <= start + 900_000.0
    ensures done <= 114 && (deadline - start <= 300_000.0 ==> done <= 39)
  {
    ShortestIs(done);
  }

  /** Forty polls do fit in five minutes when every draw is the lowest, and a forty-first does not. */
  lemma FortyPollsFit()
    ensures Shortest(39) < 300_000 <= Shortest(40)
  {
    ShortestIs(39);
    ShortestIs(40);
  }

  lemma {:induction false} LowestClock(start: real, world: nat -> Turn, polls: nat)
    requires forall i: nat :: world(i) == Turn(0.0, 0.0, Pending)
    ensures ClockAfter(start, world, polls) == start + Shortest(polls) as real
    decreases polls
  {
    hide PollDelay;
    if polls > 0 {
      LowestClock(start, world, polls - 1);
      LowestPoll(polls);
    }
  }

  lemma {:induction false} NoErrorSeen(world: nat -> Turn, polls: nat)
    requires forall i: nat :: world(i) == Turn(0.0, 0.0, Pending)
    ensures LastError(world, polls) == None
    decreases polls
  {
    if polls > 0 { NoErrorSeen(world, polls - 1); }
  }

  lemma ShortestGrows(a: nat, b: nat)
    requires a <= b
    ensures Shortest(a) <= Shortest(b)
  {
    ShortestIs(a);
    ShortestIs(b);
    if b < 3 { assert Shortest(2) == Shortest(1) + 3200 && Shortest(1) == Shortest(0) + 2000; }
  }

  /** The bound is reached: lowest jitter, no latency and nobody to approve cost exactly forty polls. */
  method FortyPolls(start: real) returns (outcome: Outcome, polls: nat)
    ensures polls == 40 && outcome == NotApproved
  {
    var world: nat -> Turn := i => Turn(0.0, 0.0, Pending);
    outcome, polls := RunPairing(start, start + 300_000.0, world);
    NoErrorSeen(world, polls);
    LowestClock(start, world, polls);
    FortyPollsFit();
    if polls <= 39 { ShortestGrows(polls, 39); }
  }

  /** A code that lives longer is polled for fifteen minutes: at lowest jitter that takes exactly 115 polls. */
  method LongestPairing(start: real, expiresAt: real) returns (outcome: Outcome, polls: nat)
    requires expiresAt >= start + 900_000.0
    ensures polls == 115 && outcome == NotApproved
  {
    var world: nat -> Turn := i => Turn(0.0, 0.0, Pending);
    outcome, polls := RunPairing(start, expiresAt, world);
    NoErrorSeen(world, polls);
    LowestClock(start, world, polls);
    ShortestIs(114);
    ShortestIs(115);
    if polls <= 114 { ShortestGrows(polls, 114); }
  }
}
