/**
 * Coordinated renewal of upstream credentials: resolveCredential, resolveExpiring, renewOwnedLease and
 * abort of apps/gateway/src/store/connections.ts, cut at every await. The control plane, the
 * authorization server and the sealing key answer as they please.
 */
module Connections {
  import opened Prelude

  const MAX_WAIT_PASSES := 12

  type ConnectionId = nat
  type CallerId = nat
  type TaskId = nat

  datatype Failure = QueryFailed | Unavailable | StillRenewing | CannotOpen | NotRenewed | Unexpected

  datatype Result = Credential(id: ConnectionId) | Missing | Failed(reason: Failure)

  /** A read of the stored credential. */
  datatype Read = ReadFailed | NoRow | Row(id: ConnectionId, needsRefresh: bool)

  datatype BeginAnswer =
    | BeginThrew
    | BeginMalformed
    | BeginMissing
    | BeginReady(id: ConnectionId)
    | BeginWait
    | BeginGranted(id: ConnectionId, hasRenewal: bool)

  datatype Opened = OpenThrew | NotARenewal | Renewal

  datatype Exchange = Exchanged | RefusedForGood | RefusedForNow | ExchangeThrew

  /** `took`: the control plane committed, although the reply that said so was lost or unreadable. */
  datatype FinishAnswer = FinishThrew(took: bool) | FinishMalformed(took: bool) | Committed | Superseded

  datatype Stage =
    | Beginning
    | Sleeping
    | Rereading
    | Opening
    | Exchanging
    | SealingToken
    | SealingRenewal
    | Finishing
    | ReadingWinner
    | Aborting(next: Result)
    | Settled(result: Result)

  /**
   * What a task asked of the control plane, the verdict on its finish, and whether the finish took effect; before
   * that, whether it opened its renewal document and exchanged it, and how many of the two ciphers it has sealed.
   */
  datatype Ledger = Ledger(
    begins: nat, granted: bool, unsealed: bool, exchanged: bool, seals: nat,
    finishes: nat, verdict: Option<bool>, aborts: nat, permanent: bool, took: bool)

  /** One resolveExpiring: the key it is registered under and the connection it asks about now. */
  datatype Task = Task(key: ConnectionId, current: ConnectionId, pass: nat, leased: ConnectionId, stage: Stage, ledger: Ledger)
  {
    predicate Running() {
      !stage.Settled?
    }

    /** The connection the task renews: the one it was granted, before that the one it asks about. */
    function On(): ConnectionId {
      if ledger.granted then leased else current
    }

    function Settle(r: Result): Task {
      this.(stage := Settled(r))
    }

    function Abort(permanent: bool, r: Result): Task {
      this.(stage := Aborting(r), ledger := ledger.(aborts := ledger.aborts + 1, permanent := permanent))
    }

    function OnBegin(a: BeginAnswer): Task {
      match a
      case BeginThrew => Settle(Failed(Unexpected))
      case BeginMalformed => Settle(Failed(Unavailable))
      case BeginMissing => Settle(Missing)
      case BeginReady(id) => Settle(Credential(id))
      case BeginWait => this.(stage := Sleeping)
      case BeginGranted(id, hasRenewal) =>
        var t := this.(leased := id, ledger := ledger.(granted := true));
        if hasRenewal then t.(stage := Opening) else t.Abort(true, Missing)
    }

    function OnReread(r: Read): Task {
      match r
      case ReadFailed => Settle(Failed(QueryFailed))
      case NoRow => Settle(Missing)
      case Row(id, needsRefresh) =>
        if !needsRefresh then Settle(Credential(id))
        else if pass + 1 >= MAX_WAIT_PASSES then this.(current := id, pass := pass + 1).Settle(Failed(StillRenewing))
        else this.(current := id, pass := pass + 1, stage := Beginning, ledger := ledger.(begins := ledger.begins + 1))
    }

    function OnOpened(o: Opened): Task {
      match o
      case OpenThrew => Abort(false, Failed(CannotOpen))
      case NotARenewal => Abort(true, Missing)
      case Renewal => this.(stage := Exchanging, ledger := ledger.(unsealed := true))
    }

    function OnExchanged(x: Exchange): Task {
      match x
      case Exchanged => this.(stage := SealingToken, ledger := ledger.(exchanged := true))
      case RefusedForGood => Abort(true, Missing)
      case RefusedForNow => Abort(false, Failed(NotRenewed))
      case ExchangeThrew => Abort(false, Failed(Unexpected))
    }

    function OnSealed(ok: bool): Task {
      if !ok then Abort(false, Failed(Unexpected))
      else
        var sealed := ledger.(seals := ledger.seals + 1);
        if stage.SealingToken? then this.(stage := SealingRenewal, ledger := sealed)
        else this.(stage := Finishing, ledger := sealed.(finishes := ledger.finishes + 1))
    }

    function OnFinished(a: FinishAnswer): Task {
      match a
      case FinishThrew(took) => this.(ledger := ledger.(took := took)).Abort(false, Failed(Unexpected))
      case FinishMalformed(took) => this.(ledger := ledger.(took := took)).Abort(false, Failed(Unavailable))
      case Committed => this.(ledger := ledger.(verdict := Some(true), took := true)).Settle(Credential(leased))
      case Superseded => this.(stage := ReadingWinner, ledger := ledger.(verdict := Some(false)))
    }

    function OnWinner(r: Read): Task {
      match r
      case ReadFailed => Abort(false, Failed(QueryFailed))
      case NoRow => Settle(Missing)
      case Row(id, needsRefresh) => Settle(if needsRefresh then Missing else Credential(id))
    }

    /** What the ledger can hold at each stage. */
    predicate LedgerFits() {
      && ledger.begins <= MAX_WAIT_PASSES
      && match stage
         case Beginning => pass < MAX_WAIT_PASSES && ledger == Asked(pass + 1)
         case Sleeping => pass < MAX_WAIT_PASSES && ledger == Asked(pass + 1)
         case Rereading => pass < MAX_WAIT_PASSES && ledger == Asked(pass + 1)
         case Opening => Holding(false, false, 0)
         case Exchanging => Holding(true, false, 0)
         case SealingToken => Holding(true, true, 0)
         case SealingRenewal => Holding(true, true, 1)
         case Finishing => Finished(None)
         case ReadingWinner => Finished(Some(false))
         case Aborting(r) => Released(r)
         case Settled(r) =>
           || (ledger == Asked(ledger.begins) && (r == Failed(StillRenewing) <==> pass == MAX_WAIT_PASSES)
                && (pass == MAX_WAIT_PASSES ==> ledger.begins == MAX_WAIT_PASSES))
           || Released(r)
           || (Finished(Some(true)) && r == Credential(leased))
           || (Finished(Some(false)) && !r.Failed?)
    }

    /** Granted the lease, with nothing asked of the control plane since. */
    predicate Holding(unsealed: bool, exchanged: bool, seals: nat) {
      ledger == Ledger(ledger.begins, true, unsealed, exchanged, seals, 0, None, 0, false, false)
    }

    /** One finish was sent, of a token that was opened, exchanged and sealed with its renewal. */
    predicate Finished(verdict: Option<bool>) {
      ledger == Ledger(ledger.begins, true, true, true, 2, 1, verdict, 0, false, verdict == Some(true))
    }

    /** One abort, no commit; the caller hears nothing of a permanent one but that there is no credential. */
    predicate Released(r: Result) {
      && ledger.granted && ledger.aborts == 1 && ledger.finishes <= 1 && ledger.verdict != Some(true)
      && (ledger.took ==> ledger.finishes == 1 && ledger.verdict.None?)
      && (ledger.finishes == 1 ==> ledger.unsealed && ledger.exchanged && ledger.seals == 2)
      && r != Failed(StillRenewing)
      && (if ledger.permanent then r == Missing else r.Failed?)
    }
  }

  function Asked(begins: nat): Ledger {
    Ledger(begins, false, false, false, 0, 0, None, 0, false, false)
  }

  datatype Caller = Querying | Joined(task: TaskId) | Answered(result: Result)

  datatype Event =
    | Resolve(caller: CallerId)
    | StoredRead(caller: CallerId, read: Read)
    | BeginReply(task: TaskId, answer: BeginAnswer)
    | Slept(task: TaskId)
    | Reread(task: TaskId, read: Read)
    | CipherOpened(task: TaskId, outcome: Opened)
    | ExchangeDone(task: TaskId, exchange: Exchange)
    | SealDone(task: TaskId, ok: bool)
    | FinishReply(task: TaskId, finish: FinishAnswer)
    | WinnerRead(task: TaskId, read: Read)
    | AbortReply(task: TaskId)
    | Cleanup(task: TaskId)

  /** `tasks` keeps settled tasks too: their promises may still be awaited; `seen` is what each caller read. */
  datatype State = State(
    inFlight: map<ConnectionId, TaskId>, tasks: seq<Task>, callers: map<CallerId, Caller>, seen: map<CallerId, Read>)
  {
    function With(t: TaskId, task: Task): State
      requires t < |tasks|
    {
      this.(tasks := tasks[t := task])
    }

    /** resolveCredential after its first read: join the refresh in flight, or start one. */
    function OnStored(c: CallerId, r: Read): State {
      var s := this.(seen := seen[c := r]);
      match r
      case ReadFailed => s.(callers := callers[c := Answered(Failed(QueryFailed))])
      case NoRow => s.(callers := callers[c := Answered(Missing)])
      case Row(id, needsRefresh) =>
        if !needsRefresh then s.(callers := callers[c := Answered(Credential(id))])
        else if id in inFlight then s.(callers := callers[c := Joined(inFlight[id])])
        else State(inFlight[id := |tasks|], tasks + [Task(id, id, 0, id, Beginning, Asked(1))], callers[c := Joined(|tasks|)], s.seen)
    }

    /** The task after an event of its own, if the event can happen at its stage. */
    function Advanced(e: Event): Option<Task>
      requires !e.Resolve? && !e.StoredRead? && e.task < |tasks|
    {
      var t := tasks[e.task];
      match e
      case BeginReply(_, a) => if t.stage.Beginning? then Some(t.OnBegin(a)) else None
      case Slept(_) => if t.stage.Sleeping? then Some(t.(stage := Rereading)) else None
      case Reread(_, r) => if t.stage.Rereading? then Some(t.OnReread(r)) else None
      case CipherOpened(_, o) => if t.stage.Opening? then Some(t.OnOpened(o)) else None
      case ExchangeDone(_, x) => if t.stage.Exchanging? then Some(t.OnExchanged(x)) else None
      case SealDone(_, ok) => if t.stage.SealingToken? || t.stage.SealingRenewal? then Some(t.OnSealed(ok)) else None
      case FinishReply(_, a) => if t.stage.Finishing? then Some(t.OnFinished(a)) else None
      case WinnerRead(_, r) => if t.stage.ReadingWinner? then Some(t.OnWinner(r)) else None
      case AbortReply(_) => if t.stage.Aborting? then Some(t.Settle(t.stage.next)) else None
      case Cleanup(_) => None
    }

    function CleanedUp(t: TaskId): State
      requires t < |tasks|
    {
      var k := tasks[t].key;
      if tasks[t].stage.Settled? && k in inFlight && inFlight[k] == t then this.(inFlight := inFlight - {k}) else this
    }

    /** A running task is the one its key leads to; a key leads to a task of that key. */
    ghost predicate SingleFlight() {
      && (forall t :: 0 <= t < |tasks| && tasks[t].Running() ==> tasks[t].key in inFlight && inFlight[tasks[t].key] == t)
      && (forall k :: k in inFlight ==> inFlight[k] < |tasks| && tasks[inFlight[k]].key == k)
    }

    ghost predicate LedgersFit() {
      forall t :: 0 <= t < |tasks| ==> tasks[t].LedgerFits()
    }

    /**
     * A caller awaits the refresh of the very row it read, if that was due; it is answered at once exactly if its
     * read failed, found no row or found a fresh one, and then with that row.
     */
    ghost predicate CallersFit() {
      && (forall c :: c in seen ==> c in callers)
      && (forall c :: c in callers ==> (callers[c].Querying? <==> c !in seen))
      && (forall c :: c in seen && callers[c].Joined? ==> Awaits(seen[c], callers[c].task))
      && (forall c :: c in seen && callers[c].Answered? ==> AnsweredAtOnce(seen[c], callers[c].result))
    }

    predicate Awaits(r: Read, t: TaskId) {
      r.Row? && r.needsRefresh && t < |tasks| && tasks[t].key == r.id
    }

    ghost predicate Valid() {
      SingleFlight() && LedgersFit() && CallersFit()
    }

    predicate Renews(t: TaskId, id: ConnectionId) {
      t < |tasks| && tasks[t].Running() && tasks[t].On() == id
    }

    /** One connection is renewed by one task at a time. */
    ghost predicate Exclusive() {
      forall t, u, id :: Renews(t, id) && Renews(u, id) ==> t == u
    }

    /** Every running task still renews the connection it was started for. */
    ghost predicate AtHome() {
      forall t :: 0 <= t < |tasks| && tasks[t].Running() ==> tasks[t].On() == tasks[t].key
    }
  }

  predicate AnsweredAtOnce(r: Read, a: Result) {
    match r
    case ReadFailed => a == Failed(QueryFailed)
    case NoRow => a == Missing
    case Row(id, needsRefresh) => !needsRefresh && a == Credential(id)
  }

  const EMPTY := State(map[], [], map[], map[])

  function Step(s: State, e: Event): State {
    match e
    case Resolve(c) => if c in s.callers then s else s.(callers := s.callers[c := Querying])
    case StoredRead(c, r) => if c in s.callers && s.callers[c].Querying? then s.OnStored(c, r) else s
    case Cleanup(t) => if t < |s.tasks| then s.CleanedUp(t) else s
    case _ =>
      if e.task < |s.tasks| && s.Advanced(e).Some? then s.With(e.task, s.Advanced(e).value) else s
  }

  function Run(s: State, es: seq<Event>): State
    decreases |es|
  {
    if es == [] then s else Run(Step(s, es[0]), es[1..])
  }

  // ----- safety

  lemma AdvancedFits(s: State, e: Event)
    requires !e.Resolve? && !e.StoredRead? && e.task < |s.tasks| && s.Advanced(e).Some?
    requires s.tasks[e.task].LedgerFits()
    ensures s.Advanced(e).value.LedgerFits() && s.Advanced(e).value.key == s.tasks[e.task].key
    ensures s.tasks[e.task].Running()
  {
  }

  lemma OnStoredValid(s: State, c: CallerId, r: Read)
    requires s.Valid()
    ensures s.OnStored(c, r).Valid()
  {
    OnStoredSingle(s, c, r);
    OnStoredCallers(s, c, r);
    assert s.OnStored(c, r).LedgersFit();
    hide State.SingleFlight, State.LedgersFit, State.CallersFit, State.OnStored;
  }

  lemma OnStoredSingle(s: State, c: CallerId, r: Read)
    requires s.SingleFlight()
    ensures s.OnStored(c, r).SingleFlight()
  {
  }

  lemma OnStoredCallers(s: State, c: CallerId, r: Read)
    requires s.SingleFlight() && s.CallersFit()
    ensures s.OnStored(c, r).CallersFit()
  {
    hide Task.LedgerFits;
  }

  lemma WithValid(s: State, t: TaskId, task: Task)
    requires s.Valid() && t < |s.tasks| && s.tasks[t].Running() && task.key == s.tasks[t].key && task.LedgerFits()
    ensures s.With(t, task).Valid()
  {
    hide Task.LedgerFits;
  }

  lemma CleanedUpValid(s: State, t: TaskId)
    requires s.Valid() && t < |s.tasks|
    ensures s.CleanedUp(t).Valid()
  {
    hide Task.LedgerFits;
  }

  lemma StepValid(s: State, e: Event)
    requires s.Valid()
    ensures Step(s, e).Valid()
  {
    match e
    case Resolve(_) =>
    case StoredRead(c, r) => OnStoredValid(s, c, r);
    case Cleanup(t) => if t < |s.tasks| { CleanedUpValid(s, t); }
    case _ =>
      if e.task < |s.tasks| && s.Advanced(e).Some? {
        AdvancedFits(s, e);
        WithValid(s, e.task, s.Advanced(e).value);
      }
    hide State.Advanced, State.OnStored, State.CleanedUp, State.With, Task.LedgerFits, Task.Running;
  }

  lemma {:induction false} RunValid(s: State, es: seq<Event>)
    requires s.Valid()
    ensures Run(s, es).Valid()
    decreases |es|
  {
    if es != [] {
      StepValid(s, es[0]);
      RunValid(Step(s, es[0]), es[1..]);
    }
  }

  /** Two refreshes that run at the same time were started for different connections. */
  lemma OneTaskPerKey(es: seq<Event>, t: TaskId, u: TaskId)
    requires var s := Run(EMPTY, es); t < |s.tasks| && u < |s.tasks| && s.tasks[t].Running() && s.tasks[u].Running()
    ensures var s := Run(EMPTY, es); s.tasks[t].key == s.tasks[u].key ==> t == u
  {
    RunValid(EMPTY, es);
  }

  /**
   * However a renewal went, a settled task that was granted the lease gave it up: its finish got a verdict
   * or it called abort once. A commit it was told of is not aborted and is what its callers get; a commit is
   * aborted exactly if the reply that reported it was lost or unreadable.
   */
  lemma GrantedLeaseIsGivenUp(es: seq<Event>, t: TaskId)
    requires t < |Run(EMPTY, es).tasks|
    ensures var task := Run(EMPTY, es).tasks[t];
            && task.ledger.begins <= MAX_WAIT_PASSES && task.ledger.finishes <= 1 && task.ledger.aborts <= 1
            && (task.ledger.finishes + task.ledger.aborts > 0 ==> task.ledger.granted)
            && (task.ledger.finishes == 1 ==> task.ledger.unsealed && task.ledger.exchanged && task.ledger.seals == 2)
            && (task.stage == Settled(Failed(StillRenewing)) ==> task.ledger == Asked(MAX_WAIT_PASSES))
            && (task.stage.Settled? && task.ledger.granted ==> task.ledger.verdict.Some? || task.ledger.aborts == 1)
            && (task.ledger.verdict == Some(true) ==> task.ledger.aborts == 0 && task.stage == Settled(Credential(task.leased)))
            && (task.stage.Settled? && task.ledger.took ==> (task.ledger.aborts == 1 <==> task.ledger.verdict.None?))
            && (task.stage.Settled? && task.ledger.aborts == 1 ==> (task.ledger.permanent <==> !task.stage.result.Failed?))
  {
    RunValid(EMPTY, es);
    assert Run(EMPTY, es).tasks[t].LedgerFits();
    hide Run;
  }

  /** What an event vouches for: a fresh row, a ready answer, or the task's own commit. */
  predicate Vouches(task: Task, e: Event, id: ConnectionId)
    requires !e.Resolve? && !e.StoredRead?
  {
    || e == BeginReply(e.task, BeginReady(id))
    || e == Reread(e.task, Row(id, false))
    || e == WinnerRead(e.task, Row(id, false))
    || (e == FinishReply(e.task, Committed) && id == task.leased && task.ledger.granted)
  }

  /** No task hands out a credential that is due for renewal, except the one it has just renewed itself. */
  lemma CredentialIsGood(s: State, e: Event, id: ConnectionId)
    requires s.LedgersFit() && !e.Resolve? && !e.StoredRead? && e.task < |s.tasks| && s.tasks[e.task].Running()
    requires Step(s, e).tasks[e.task].stage == Settled(Credential(id))
    ensures Vouches(s.tasks[e.task], e, id)
  {
    assert s.tasks[e.task].LedgerFits();
    assert s.Advanced(e).Some? && Step(s, e).tasks[e.task] == s.Advanced(e).value;
    hide State.LedgersFit;
  }

  // ----- what callers and tasks are told

  /** In every run a caller awaits a refresh exactly if the row it read was due, and it is the refresh of that row. */
  lemma CallersAreServed(es: seq<Event>, c: CallerId)
    requires c in Run(EMPTY, es).seen
    ensures var s := Run(EMPTY, es);
            && c in s.callers && !s.callers[c].Querying?
            && (s.callers[c].Joined? <==> s.seen[c].Row? && s.seen[c].needsRefresh)
            && (s.callers[c].Joined? ==>
                  s.callers[c].task < |s.tasks| && s.tasks[s.callers[c].task].key == s.seen[c].id)
            && (s.callers[c].Answered? ==>
                  s.callers[c].result == (if s.seen[c].ReadFailed? then Failed(QueryFailed)
                                          else if s.seen[c].NoRow? then Missing else Credential(s.seen[c].id)))
  {
    RunValid(EMPTY, es);
    hide Run;
  }

  /** A refresh that has settled while the map still leads to it: its cleanup has yet to run. */
  predicate AwaitsCleanup(s: State, id: ConnectionId) {
    id in s.inFlight && s.inFlight[id] < |s.tasks| && !s.tasks[s.inFlight[id]].Running()
  }

  /**
   * The refresh that a caller joins is the running one of that row, or a new one, if there is none; it is over
   * already exactly if it has just settled and its cleanup has yet to run.
   */
  lemma JoinsTheRunningOne(s: State, c: CallerId, id: ConnectionId, u: TaskId)
    requires s.Valid() && c in s.callers && s.callers[c].Querying?
    ensures var n := Step(s, StoredRead(c, Row(id, true)));
            && n.callers[c].Joined? && n.callers[c].task < |n.tasks| && n.tasks[n.callers[c].task].key == id
            && (u < |s.tasks| && s.tasks[u].Running() && s.tasks[u].key == id ==> n.callers[c] == Joined(u))
            && (n.tasks[n.callers[c].task].Running() <==> !AwaitsCleanup(s, id))
            && (AwaitsCleanup(s, id) ==> id !in Step(n, Cleanup(n.callers[c].task)).inFlight)
  {
    hide Task.LedgerFits, State.CallersFit;
  }

  /** The result a task has settled with, or settles with once the control plane has heard its abort. */
  function OutcomeOf(t: Task): Option<Result> {
    if t.stage.Settled? then Some(t.stage.result) else if t.stage.Aborting? then Some(t.stage.next) else None
  }

  /** There is no credential: no row, no usable renewal document, or an authorization withdrawn for good. */
  predicate SaysGone(e: Event) {
    match e
    case BeginReply(_, a) => a.BeginMissing? || (a.BeginGranted? && !a.hasRenewal)
    case Reread(_, r) => r.NoRow?
    case CipherOpened(_, o) => o.NotARenewal?
    case ExchangeDone(_, x) => x.RefusedForGood?
    case WinnerRead(_, r) => r.NoRow? || (r.Row? && r.needsRefresh)
    case _ => false
  }

  /** What went wrong; `begins` counts the leases asked for so far. */
  function Trouble(e: Event, begins: nat): Option<Failure> {
    match e
    case BeginReply(_, BeginThrew) => Some(Unexpected)
    case BeginReply(_, BeginMalformed) => Some(Unavailable)
    case Reread(_, ReadFailed) => Some(QueryFailed)
    case Reread(_, Row(_, true)) => if begins == 12 then Some(StillRenewing) else None
    case CipherOpened(_, OpenThrew) => Some(CannotOpen)
    case ExchangeDone(_, RefusedForNow) => Some(NotRenewed)
    case ExchangeDone(_, ExchangeThrew) => Some(Unexpected)
    case SealDone(_, false) => Some(Unexpected)
    case FinishReply(_, FinishThrew(_)) => Some(Unexpected)
    case FinishReply(_, FinishMalformed(_)) => Some(Unavailable)
    case WinnerRead(_, ReadFailed) => Some(QueryFailed)
    case _ => None
  }

  /** The event moves its task. */
  predicate Moves(s: State, e: Event) {
    !e.Resolve? && !e.StoredRead? && !e.Cleanup? && e.task < |s.tasks| && s.Advanced(e).Some?
  }

  /** The answer a task waits for at its stage. */
  predicate Awaited(stage: Stage, e: Event) {
    match e
    case BeginReply(_, _) => stage == Beginning
    case Slept(_) => stage == Sleeping
    case Reread(_, _) => stage == Rereading
    case CipherOpened(_, _) => stage == Opening
    case ExchangeDone(_, _) => stage == Exchanging
    case SealDone(_, _) => stage == SealingToken || stage == SealingRenewal
    case FinishReply(_, _) => stage == Finishing
    case WinnerRead(_, _) => stage == ReadingWinner
    case AbortReply(_) => stage.Aborting?
    case _ => false
  }

  /** A task moves at the answer it waits for and at no other event; asking for the lease again follows a reread only. */
  lemma MovesInTurn(s: State, e: Event, t: TaskId)
    requires s.LedgersFit() && t < |s.tasks|
    ensures t < |Step(s, e).tasks|
    ensures var was, n := s.tasks[t], Step(s, e).tasks[t];
            && (n != was <==> !e.Resolve? && !e.StoredRead? && e.task == t && Awaited(was.stage, e))
            && (n != was ==> n.stage != was.stage)
            && (n != was && n.stage.Beginning? ==> e.Reread? && e.read.Row? && n.ledger.begins == was.ledger.begins + 1 && n.current == e.read.id)
            && (n != was && n.stage.Sleeping? ==> e == BeginReply(t, BeginWait))
            && (n != was && n.stage.Rereading? ==> e == Slept(t))
            && (n != was && n.stage.Opening? ==> e.BeginReply? && e.answer.BeginGranted? && n.leased == e.answer.id)
  {
    assert s.tasks[t].LedgerFits();
    hide State.LedgersFit, Task.LedgerFits;
    if e.Resolve? || e.StoredRead? || e.Cleanup? || e.task >= |s.tasks| {
      OnlyItsOwnMove(s, e, t);
    } else {
      MovesWhenAwaited(s, e);
      if Moves(s, e) && e.task == t { MovesOn(s, e); }
      hide State.Advanced, Awaited;
    }
  }

  lemma OnlyItsOwnMove(s: State, e: Event, t: TaskId)
    requires t < |s.tasks| && (e.Resolve? || e.StoredRead? || e.Cleanup? || e.task >= |s.tasks|)
    ensures t < |Step(s, e).tasks| && Step(s, e).tasks[t] == s.tasks[t]
  {
  }

  lemma MovesWhenAwaited(s: State, e: Event)
    requires !e.Resolve? && !e.StoredRead? && e.task < |s.tasks|
    ensures Moves(s, e) <==> Awaited(s.tasks[e.task].stage, e)
  {
  }

  lemma MovesOn(s: State, e: Event)
    requires Moves(s, e) && s.tasks[e.task].LedgerFits()
    ensures var was, n := s.tasks[e.task], s.Advanced(e).value;
            && n.stage != was.stage
            && (n.stage.Beginning? ==> e.Reread? && e.read.Row? && n.ledger.begins == was.ledger.begins + 1 && n.current == e.read.id)
            && (n.stage.Sleeping? ==> e == BeginReply(e.task, BeginWait))
            && (n.stage.Rereading? ==> e == Slept(e.task))
            && (n.stage.Opening? ==> e.BeginReply? && e.answer.BeginGranted? && n.leased == e.answer.id)
  {
  }

  /** A task ends in each of its ways exactly at the answers that mean it. */
  lemma EndsAsTold(s: State, e: Event, id: ConnectionId)
    requires s.LedgersFit() && !e.Resolve? && !e.StoredRead? && !e.AbortReply?
    requires e.task < |s.tasks| && Awaited(s.tasks[e.task].stage, e)
    ensures e.task < |Step(s, e).tasks|
    ensures var was, o := s.tasks[e.task], OutcomeOf(Step(s, e).tasks[e.task]);
            && (o == Some(Credential(id)) <==> Vouches(was, e, id))
            && (o == Some(Missing) <==> SaysGone(e))
            && (o.Some? && o.value.Failed? <==> Trouble(e, was.ledger.begins).Some?)
            && (o.Some? && o.value.Failed? ==> Trouble(e, was.ledger.begins) == Some(o.value.reason))
  {
    assert s.tasks[e.task].LedgerFits();
    MovesWhenAwaited(s, e);
    assert Step(s, e).tasks[e.task] == s.Advanced(e).value;
    hide State.LedgersFit, Step;
  }

  /** The abort is told whether the authorization is withdrawn for good, and its own reply changes nothing. */
  lemma AbortIsTold(s: State, e: Event)
    requires s.LedgersFit() && !e.Resolve? && !e.StoredRead?
    requires e.task < |s.tasks| && Awaited(s.tasks[e.task].stage, e)
    ensures e.task < |Step(s, e).tasks|
    ensures var was, n := s.tasks[e.task], Step(s, e).tasks[e.task];
            && (n.stage.Aborting? <==>
                  n.ledger.granted && (SaysGone(e) || Trouble(e, was.ledger.begins).Some?) && !(e.WinnerRead? && SaysGone(e)))
            && (n.stage.Aborting? ==> (n.ledger.permanent <==> SaysGone(e)))
            && (e.AbortReply? ==> was.stage.Aborting? && n.stage == Settled(was.stage.next))
  {
    assert s.tasks[e.task].LedgerFits();
    MovesWhenAwaited(s, e);
    assert Step(s, e).tasks[e.task] == s.Advanced(e).value;
    hide State.LedgersFit, Step;
  }

  // ----- one refresh per connection

  /** An event that puts a task, running or new, on a connection. */
  datatype Arrival = Arrival(task: TaskId, id: ConnectionId)

  function ArrivalOf(s: State, e: Event): Option<Arrival> {
    match e
    case Reread(t, Row(id, needsRefresh)) =>
      if t < |s.tasks| && s.tasks[t].stage.Rereading? && needsRefresh && s.tasks[t].pass + 1 < MAX_WAIT_PASSES
      then Some(Arrival(t, id)) else None
    case BeginReply(t, BeginGranted(id, _)) =>
      if t < |s.tasks| && s.tasks[t].stage.Beginning? then Some(Arrival(t, id)) else None
    case StoredRead(c, Row(id, needsRefresh)) =>
      if c in s.callers && s.callers[c].Querying? && needsRefresh && id !in s.inFlight
      then Some(Arrival(|s.tasks|, id)) else None
    case _ => None
  }

  /** The connection it arrives at is being renewed by another task. */
  ghost predicate Collides(s: State, e: Event) {
    ArrivalOf(s, e).Some? && exists u :: u != ArrivalOf(s, e).value.task && s.Renews(u, ArrivalOf(s, e).value.id)
  }

  /** The task at `t` renews `id` after the event: it arrived there, or it did so before and did not leave. */
  ghost predicate RenewsAsArrived(s: State, e: Event, t: TaskId, id: ConnectionId) {
    var a, n := ArrivalOf(s, e), Step(s, e);
    && (n.Renews(t, id) ==> a == Some(Arrival(t, id)) || s.Renews(t, id))
    && (a == Some(Arrival(t, id)) ==> n.Renews(t, id))
    && (a.Some? && a.value.task != t ==> (n.Renews(t, id) <==> s.Renews(t, id)))
    && (a.Some? && a.value.task == t && n.Renews(t, id) ==> a.value.id == id)
  }

  /** Tasks on the event's way: the arriving one is on its new connection, the others stay or settle. */
  lemma StepRenews(s: State, e: Event, t: TaskId, id: ConnectionId)
    requires s.Valid()
    ensures RenewsAsArrived(s, e, t, id)
  {
    match e
    case Resolve(_) => IdleRenews(s, e, t, id);
    case Cleanup(_) => IdleRenews(s, e, t, id);
    case StoredRead(_, _) => StoredRenews(s, e, t, id);
    case _ => if e.task < |s.tasks| && s.Advanced(e).Some? { MovedRenews(s, e, t, id); } else { IdleRenews(s, e, t, id); }
    hide RenewsAsArrived, State.Advanced, State.Valid;
  }

  lemma IdleRenews(s: State, e: Event, t: TaskId, id: ConnectionId)
    requires e.Resolve? || e.Cleanup? || (!e.StoredRead? && !(e.task < |s.tasks| && s.Advanced(e).Some?))
    ensures RenewsAsArrived(s, e, t, id)
  {
  }

  lemma StoredRenews(s: State, e: Event, t: TaskId, id: ConnectionId)
    requires e.StoredRead?
    ensures RenewsAsArrived(s, e, t, id)
  {
  }

  lemma MovedRenews(s: State, e: Event, t: TaskId, id: ConnectionId)
    requires s.LedgersFit() && Moves(s, e)
    ensures RenewsAsArrived(s, e, t, id)
  {
    var was, now := s.tasks[e.task], s.Advanced(e).value;
    assert was.LedgerFits();
    MovedArrives(s, e);
    assert Step(s, e).tasks == s.tasks[e.task := now];
    hide State.Advanced, State.LedgersFit, Task.LedgerFits;
    hide ArrivalOf, Task.On;
  }

  /** A moved task that runs on is where it was, unless the event takes it elsewhere. */
  lemma MovedArrives(s: State, e: Event)
    requires Moves(s, e) && s.tasks[e.task].LedgerFits()
    ensures var was, now, a := s.tasks[e.task], s.Advanced(e).value, ArrivalOf(s, e);
            && was.Running()
            && (a.Some? ==> a.value.task == e.task && now.Running() && now.On() == a.value.id)
            && (a.None? && now.Running() ==> now.On() == was.On())
  {
  }

  /** Exclusive renewal breaks at exactly the events that bring a task to a connection another task renews. */
  lemma StepExclusive(s: State, e: Event)
    requires s.Valid() && s.Exclusive()
    ensures Step(s, e).Exclusive() <==> !Collides(s, e)
  {
    var n := Step(s, e);
    hide Step, ArrivalOf, State.Renews, State.Valid;
    if Collides(s, e) {
      var a := ArrivalOf(s, e).value;
      var u :| u != a.task && s.Renews(u, a.id);
      StepRenews(s, e, u, a.id);
      StepRenews(s, e, a.task, a.id);
    } else {
      forall t, u, id | n.Renews(t, id) && n.Renews(u, id) ensures t == u {
        StepRenews(s, e, t, id);
        StepRenews(s, e, u, id);
      }
    }
  }

  ghost predicate AlwaysExclusive(s: State, es: seq<Event>)
    decreases |es|
  {
    s.Exclusive() && (es == [] || AlwaysExclusive(Step(s, es[0]), es[1..]))
  }

  ghost predicate NeverCollides(s: State, es: seq<Event>)
    decreases |es|
  {
    es == [] || (!Collides(s, es[0]) && NeverCollides(Step(s, es[0]), es[1..]))
  }

  /** At every point of a run one connection is renewed by one task, if and only if no event of it collides. */
  lemma {:induction false} RunExclusive(s: State, es: seq<Event>)
    requires s.Valid() && s.Exclusive()
    ensures AlwaysExclusive(s, es) <==> NeverCollides(s, es)
    decreases |es|
  {
    hide Step, State.Exclusive, State.Valid, Collides;
    if es != [] {
      StepValid(s, es[0]);
      StepExclusive(s, es[0]);
      if !Collides(s, es[0]) { RunExclusive(Step(s, es[0]), es[1..]); }
    }
  }

  lemma EmptyExclusive()
    ensures EMPTY.Valid() && EMPTY.Exclusive() && EMPTY.AtHome()
  {
  }

  // ----- rows that keep their id

  /** Every answer that puts a task on a connection names the one it was started for. */
  predicate KeepsConnection(s: State, e: Event) {
    var a := ArrivalOf(s, e);
    a.Some? && a.value.task < |s.tasks| ==> a.value.id == s.tasks[a.value.task].key
  }

  /** A task leaves its connection at exactly the waits and grants that answer with another one. */
  lemma StepAtHome(s: State, e: Event)
    requires s.Valid() && s.AtHome()
    ensures Step(s, e).AtHome() <==> KeepsConnection(s, e)
  {
    if e.StoredRead? || e.Resolve? || e.Cleanup? || !Moves(s, e) {
      OthersAtHome(s, e);
    } else {
      MovedAtHome(s, e);
    }
    hide Step, State.Valid, State.AtHome, KeepsConnection, Moves;
  }

  lemma MovedAtHome(s: State, e: Event)
    requires s.LedgersFit() && s.AtHome() && Moves(s, e)
    ensures Step(s, e).AtHome() <==> KeepsConnection(s, e)
  {
    var was, now := s.tasks[e.task], s.Advanced(e).value;
    assert was.LedgerFits();
    MovedArrives(s, e);
    AdvancedFits(s, e);
    assert Step(s, e).tasks == s.tasks[e.task := now];
    hide Step, State.Advanced, State.LedgersFit, Task.LedgerFits, ArrivalOf, Task.On;
    assert now == Step(s, e).tasks[e.task];
  }

  lemma OthersAtHome(s: State, e: Event)
    requires s.SingleFlight() && s.AtHome()
    requires e.StoredRead? || e.Resolve? || e.Cleanup? || !Moves(s, e)
    ensures Step(s, e).AtHome() && KeepsConnection(s, e)
  {
  }

  predicate AllKeepConnection(s: State, es: seq<Event>)
    decreases |es|
  {
    es == [] || (KeepsConnection(s, es[0]) && AllKeepConnection(Step(s, es[0]), es[1..]))
  }

  lemma {:induction false} RunAtHome(s: State, es: seq<Event>)
    requires s.Valid() && s.AtHome() && AllKeepConnection(s, es)
    ensures Run(s, es).Valid() && Run(s, es).AtHome()
    decreases |es|
  {
    hide State.Valid, State.AtHome, Step, KeepsConnection;
    if es != [] {
      StepValid(s, es[0]);
      StepAtHome(s, es[0]);
      RunAtHome(Step(s, es[0]), es[1..]);
    }
  }

  /** If every answer keeps to the row a task was started for, one connection is renewed by one task at a time. */
  lemma OneRefreshPerConnection(es: seq<Event>)
    requires AllKeepConnection(EMPTY, es)
    ensures Run(EMPTY, es).Exclusive()
  {
    EmptyExclusive();
    RunAtHome(EMPTY, es);
    hide Run, AllKeepConnection;
  }

  lemma Starts(s: State, c: CallerId, id: ConnectionId)
    requires c !in s.callers && id !in s.inFlight
    ensures Step(Step(s, Resolve(c)), StoredRead(c, Row(id, true)))
         == State(s.inFlight[id := |s.tasks|], s.tasks + [Task(id, id, 0, id, Beginning, Asked(1))], s.callers[c := Joined(|s.tasks|)],
              s.seen[c := Row(id, true)])
  {
  }

  lemma WaitEndsOn(s: State, t: TaskId, id: ConnectionId)
    requires t < |s.tasks| && s.tasks[t].stage.Beginning? && s.tasks[t].pass + 1 < MAX_WAIT_PASSES
    ensures Step(Step(Step(s, BeginReply(t, BeginWait)), Slept(t)), Reread(t, Row(id, true)))
         == s.With(t, s.tasks[t].(stage := Rereading).OnReread(Row(id, true)))
  {
  }

  lemma GrantedAndOpened(s: State, t: TaskId, id: ConnectionId)
    requires t < |s.tasks| && s.tasks[t].stage.Beginning?
    ensures Step(Step(s, BeginReply(t, BeginGranted(id, true))), CipherOpened(t, Renewal))
         == s.With(t, s.tasks[t].(leased := id, stage := Exchanging, ledger := s.tasks[t].ledger.(granted := true, unsealed := true)))
  {
  }

  /** A caller that reads the row between the end of a refresh and its cleanup is told what that refresh ended with. */
  lemma JoinsASettledOne()
    ensures var s := Step(Step(Step(EMPTY, Resolve(0)), StoredRead(0, Row(1, true))), BeginReply(0, BeginMissing));
            var n := Step(Step(s, Resolve(1)), StoredRead(1, Row(1, true)));
            1 in n.callers && n.callers[1] == Joined(0) && |n.tasks| == 1 && n.tasks[0].stage == Settled(Missing)
  {
    Starts(EMPTY, 0, 1);
    var s := Step(Step(EMPTY, Resolve(0)), StoredRead(0, Row(1, true)));
    assert s.tasks == [Task(1, 1, 0, 1, Beginning, Asked(1))] && s.inFlight == map[1 := 0] && s.callers == map[0 := Joined(0)];
    var n := Step(s, BeginReply(0, BeginMissing));
    assert n.tasks == [s.tasks[0].Settle(Missing)] && n.inFlight == s.inFlight && n.callers == s.callers;
    var m := Step(n, Resolve(1));
    assert m.callers == map[0 := Joined(0), 1 := Querying] && m.tasks == n.tasks && m.inFlight == n.inFlight;
  }

  /** Row 1 is replaced by row 2 while its refresh waits; the next caller starts a second refresh of row 2. */
  lemma ReplacedRowIsRefreshedTwice()
    ensures var s1 := Step(Step(EMPTY, Resolve(0)), StoredRead(0, Row(1, true)));
            var s2 := Step(Step(Step(s1, BeginReply(0, BeginWait)), Slept(0)), Reread(0, Row(2, true)));
            var s := Step(Step(s2, Resolve(1)), StoredRead(1, Row(2, true)));
            s.Renews(0, 2) && s.Renews(1, 2)
  {
    hide Step;
    Starts(EMPTY, 0, 1);
    var s1 := Step(Step(EMPTY, Resolve(0)), StoredRead(0, Row(1, true)));
    WaitEndsOn(s1, 0, 2);
    var s2 := Step(Step(Step(s1, BeginReply(0, BeginWait)), Slept(0)), Reread(0, Row(2, true)));
    Starts(s2, 1, 2);
  }

  /** Two refreshes of rows 1 and 2 are both granted the lease of row 7, and both exchange its renewal document. */
  lemma GrantsOfOneRowMeet()
    ensures var s1 := Step(Step(EMPTY, Resolve(0)), StoredRead(0, Row(1, true)));
            var s2 := Step(Step(s1, BeginReply(0, BeginGranted(7, true))), CipherOpened(0, Renewal));
            var s3 := Step(Step(s2, Resolve(1)), StoredRead(1, Row(2, true)));
            var s := Step(Step(s3, BeginReply(1, BeginGranted(7, true))), CipherOpened(1, Renewal));
            s.Renews(0, 7) && s.Renews(1, 7) && s.tasks[0].stage == s.tasks[1].stage == Exchanging
  {
    hide Step;
    Starts(EMPTY, 0, 1);
    var s1 := Step(Step(EMPTY, Resolve(0)), StoredRead(0, Row(1, true)));
    GrantedAndOpened(s1, 0, 7);
    var s2 := Step(Step(s1, BeginReply(0, BeginGranted(7, true))), CipherOpened(0, Renewal));
    Starts(s2, 1, 2);
    var s3 := Step(Step(s2, Resolve(1)), StoredRead(1, Row(2, true)));
    GrantedAndOpened(s3, 1, 7);
  }
}
