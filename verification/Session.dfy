/**
 * The agent's outbound connection: apps/agent/src/session.ts with session-inbound.ts and heartbeat.ts.
 * Every callback is one event; a promise in progress is a member of a multiset until its event fires.
 * A socket is known by the generation that dialled it.
 */
module Session {
  import opened Prelude

  const PROTOCOL_VERSION := "1"
  const NORMAL_CLOSURE := 1000
  const PERMANENT_CLOSE_CODES := {4001, 4003, 4004}
  const HEARTBEAT_TIMEOUT_MS := 45_000

  type Generation = nat

  datatype Connection = Idle | Connecting | Online | Offline | Stopped

  /** One heartbeat instance; `armed` says whether its interval runs. */
  datatype Beat = Beat(lastFrameAt: int, armed: bool)

  datatype Frame =
    | Unreadable
    | Welcome(protocolVersion: string, deviceId: nat)
    | Job
    | Cancel
    | Revoked
    | Refused

  datatype Payload = Hello | Result | Heartbeat

  /** What the session did. `origin` is the generation whose callback did it, `target` the socket written to. */
  datatype Output =
    | Dial(gen: Generation)
    | DialFailed(gen: Generation)
    | Sent(origin: Generation, target: Generation, payload: Payload)
    | CloseAsked(origin: Generation, target: Generation)
    | Retry(attempt: nat)

  /** The events ending in `Fails` are the same calls with a `connect` that throws. */
  datatype Event =
    | Start(now: int)
    | StartFails(now: int)
    | Stop
    | SocketOpen(gen: Generation)
    | Detected(gen: Generation, now: int)
    | DetectFailed(gen: Generation)
    | FrameArrives(gen: Generation, frame: Frame, now: int)
    | KeyTrusted(gen: Generation)
    | JobDone(gen: Generation)
    | SocketClose(gen: Generation, code: nat)
    | Tick(gen: Generation, now: int)
    | TimerFires(now: int)
    | TimerFails(now: int)
  {
    predicate OfSocket() {
      !Start? && !StartFails? && !Stop? && !TimerFires? && !TimerFails?
    }
  }

  /**
   * What the session acts on: timers, sockets, promises in progress, and the record of what it did;
   * `since` is how long that record was when the current socket's welcome was last accepted, and
   * `failed` the generations whose `connect` threw.
   */
  datatype World = World(
    timers: nat, dialled: set<Generation>, greeted: set<Generation>,
    detecting: multiset<Generation>, trusting: multiset<Generation>, working: multiset<Generation>,
    log: seq<Output>, since: nat, failed: set<Generation>)
  {
    function Did(o: Output): World {
      this.(log := log + [o])
    }
  }

  /** The closure variables of createSession, and the heartbeat instances by the generation that made them. */
  datatype State = State(
    device: nat, generation: Generation, connection: Connection, attempt: nat, stopped: bool,
    socket: Option<Generation>, heartbeat: Option<Generation>, beats: map<Generation, Beat>, world: World)
  {
    function Did(o: Output): State {
      this.(world := world.Did(o))
    }

    function Send(origin: Generation, p: Payload): State {
      if socket.Some? then Did(Sent(origin, socket.value, p)) else this
    }

    function AskClose(origin: Generation): State {
      if socket.Some? then Did(CloseAsked(origin, socket.value)) else this
    }

    function BeatOf(g: Generation): Beat {
      if g in beats then beats[g] else Beat(0, false)
    }

    /** `heartbeat?.stop()` and forgetting it. */
    function Silenced(): State {
      if heartbeat.Some?
      then this.(beats := beats[heartbeat.value := BeatOf(heartbeat.value).(armed := false)], heartbeat := None)
      else this
    }

    function Halted(origin: Generation): State {
      this.(stopped := true, connection := Stopped, generation := generation + 1).Silenced().AskClose(origin)
      .(socket := None)
    }

    function Opened(now: int): State {
      var g := generation + 1;
      State(device, g, Connecting, attempt, stopped, Some(g), Some(g), beats[g := Beat(now, false)],
            world.(dialled := world.dialled + {g}, log := world.log + [Dial(g)]))
    }

    /** `open` when `connect` throws: everything before that call has been done and nothing undoes it. */
    function Undialled(now: int): State {
      var g := generation + 1;
      State(device, g, Connecting, attempt, stopped, socket, Some(g), beats[g := Beat(now, false)],
            world.(failed := world.failed + {g}, log := world.log + [DialFailed(g)]))
    }

    function OnClose(g: Generation, code: nat): State {
      if g != generation then this
      else
        var s := this.(generation := generation + 1).Silenced().(socket := None);
        if s.stopped then s.(connection := Stopped)
        else if code in PERMANENT_CLOSE_CODES then s.Halted(g)
        else s.Retrying()
    }

    function Retrying(): State {
      this.(connection := Offline, attempt := attempt + 1,
            world := world.(timers := world.timers + 1, log := world.log + [Retry(attempt + 1)]))
    }

    function Announce(g: Generation): State {
      if g != generation then this else this.(world := world.(detecting := world.detecting + multiset{g}))
    }

    function Undetected(g: Generation): State {
      this.(world := world.(detecting := world.detecting - multiset{g}))
    }

    function OnDetected(g: Generation, now: int): State {
      var s := Undetected(g);
      if g != generation then s
      else
        var sent := s.Send(g, Hello);
        if heartbeat.Some? then sent.(beats := beats[heartbeat.value := Beat(now, true)]) else sent
    }

    /** The catch block: it closes whatever socket is current, and only onClose looks at the generation. */
    function OnDetectFailed(g: Generation): State {
      Undetected(g).AskClose(g).OnClose(g, NORMAL_CLOSURE)
    }

    function Touched(now: int): State {
      if heartbeat.Some? then this.(beats := beats[heartbeat.value := BeatOf(heartbeat.value).(lastFrameAt := now)])
      else this
    }

    function OnFrame(g: Generation, f: Frame, now: int): State {
      var s := Touched(now);
      if g != generation then s else s.Dispatched(g, f)
    }

    function Dispatched(g: Generation, f: Frame): State {
      match f
      case Welcome(version, greeted) =>
        if version != PROTOCOL_VERSION || greeted != device then Halted(g)
        else this.(world := world.(trusting := world.trusting + multiset{g}))
      case Job => this.(world := world.(working := world.working + multiset{g}))
      case Revoked => Halted(g)
      case Unreadable => this
      case Cancel => this
      case Refused => this
    }

    /** `onOnline`, after the await in handleWelcome: nothing asks whether `g` is still current. */
    function OnKeyTrusted(g: Generation): State {
      this.(connection := Online, attempt := 0,
            world := world.(trusting := world.trusting - multiset{g}, greeted := world.greeted + {g},
                         since := if g == generation then |world.log| else world.since))
    }

    function OnJobDone(g: Generation): State {
      var s := this.(world := world.(working := world.working - multiset{g}));
      if g == generation then s.Send(g, Result) else s
    }

    function Expired(g: Generation): State {
      this.(beats := beats[g := BeatOf(g).(armed := false)])
    }

    function OnTick(g: Generation, now: int): State {
      if now - BeatOf(g).lastFrameAt > HEARTBEAT_TIMEOUT_MS
      then Expired(g).AskClose(g).OnClose(g, NORMAL_CLOSURE)
      else Send(g, Heartbeat)
    }

    function OnTimer(now: int): State
      requires world.timers > 0
    {
      var s := this.(world := world.(timers := world.timers - 1));
      if stopped then s else s.Opened(now)
    }

    function OnTimerFailing(now: int): State
      requires world.timers > 0
    {
      var s := this.(world := world.(timers := world.timers - 1));
      if stopped then s else s.Undialled(now)
    }

    /** An event whose socket, promise, interval or timer exists. */
    predicate CanHappen(e: Event) {
      match e
      case Start(_) => true
      case StartFails(_) => true
      case Stop => true
      case SocketOpen(g) => g in world.dialled
      case FrameArrives(g, _, _) => g in world.dialled
      case SocketClose(g, _) => g in world.dialled
      case Detected(g, _) => g in world.detecting
      case DetectFailed(g) => g in world.detecting
      case KeyTrusted(g) => g in world.trusting
      case JobDone(g) => g in world.working
      case Tick(g, _) => g in beats && beats[g].armed
      case TimerFires(_) => world.timers > 0
      case TimerFails(_) => world.timers > 0
    }

    // ----- what every run keeps

    predicate Started() {
      world.dialled != {} || world.failed != {}
    }

    /** A `connect` threw and nothing has stopped the session since. */
    predicate Stalled() {
      !stopped && world.failed != {}
    }

    ghost predicate NoFuture() {
      && (forall g :: g in world.dialled ==> g <= generation)
      && (forall g :: g in world.detecting ==> g in world.dialled)
      && (forall g :: g in world.trusting ==> g in world.dialled)
      && (forall g :: g in world.working ==> g in world.dialled)
      && (forall g :: g in beats ==> g <= generation)
      && (forall g :: g in world.failed ==> g <= generation)
      && (forall g :: g in world.greeted ==> g in world.dialled)
    }

    /** The current generation is a socket's exactly while there is a current socket, and that socket is its. */
    predicate SocketIsCurrent() {
      && (generation in world.dialled <==> socket.Some?)
      && (socket.Some? ==> socket.value == generation)
      && heartbeat == (if Stalled() then Some(generation) else socket)
    }

    /** Only the current socket's interval runs. */
    ghost predicate OneInterval() {
      forall g :: g in beats && beats[g].armed ==> socket == Some(g)
    }

    /** Started and not stopped: exactly one of a current socket or one armed reconnect timer. */
    predicate SocketOrTimer() {
      if stopped then socket.None?
      else if Started() then (if socket.Some? then world.timers == 0 else world.timers == 1)
      else socket.None? && world.timers == 0
    }

    /** Neither a socket nor a timer: only stopping ends this. */
    predicate Stuck() {
      socket.None? && world.timers == 0 && world.failed == {generation}
    }

    predicate IdleUntilStarted() {
      (connection == Idle) == (!stopped && !Started())
    }

    ghost predicate Valid() {
      NoFuture() && SocketIsCurrent() && OneInterval() && (if Stalled() then Stuck() else SocketOrTimer()) && IdleUntilStarted()
    }

    /** An event of a socket that is no longer the session's. */
    predicate Stale(e: Event) {
      e.OfSocket() && e.gen != generation
    }
  }

  function Initial(device: nat): State {
    State(device, 0, Idle, 0, false, None, None, map[], World(0, {}, {}, multiset{}, multiset{}, multiset{}, [], 0, {}))
  }

  function Step(s: State, e: Event): State {
    if !s.CanHappen(e) then s
    else
      match e
      case Start(now) => if s.stopped || s.connection != Idle then s else s.Opened(now)
      case StartFails(now) => if s.stopped || s.connection != Idle then s else s.Undialled(now)
      case Stop => s.Halted(s.generation)
      case SocketOpen(g) => s.Announce(g)
      case Detected(g, now) => s.OnDetected(g, now)
      case DetectFailed(g) => s.OnDetectFailed(g)
      case FrameArrives(g, f, now) => s.OnFrame(g, f, now)
      case KeyTrusted(g) => s.OnKeyTrusted(g)
      case JobDone(g) => s.OnJobDone(g)
      case SocketClose(g, code) => s.OnClose(g, code)
      case Tick(g, now) => s.OnTick(g, now)
      case TimerFires(now) => s.OnTimer(now)
      case TimerFails(now) => s.OnTimerFailing(now)
  }

  function Run(s: State, es: seq<Event>): State
    decreases |es|
  {
    if es == [] then s else Run(Step(s, es[0]), es[1..])
  }

  // ----- safety

  lemma OpenedValid(s: State, now: int)
    requires s.Valid() && !s.stopped && !s.Stalled() && s.socket.None? && s.world.timers == 0
    ensures s.Opened(now).Valid()
  {
  }

  lemma UndialledValid(s: State, now: int)
    requires s.NoFuture() && s.OneInterval() && s.SocketIsCurrent()
    requires !s.stopped && !s.Stalled() && s.socket.None? && s.world.timers == 0 && (s.connection == Idle) == !s.Started()
    ensures s.Undialled(now).Valid()
  {
  }

  lemma StartValid(s: State, now: int)
    requires s.Valid() && !s.stopped && s.connection == Idle
    ensures s.Opened(now).Valid() && s.Undialled(now).Valid()
  {
    OpenedValid(s, now);
    UndialledValid(s, now);
  }

  lemma HaltedValid(s: State, origin: Generation)
    requires s.Valid()
    ensures s.Halted(origin).Valid()
  {
  }

  /** `stopped` is never found set by onClose: halting moved the generation on. */
  lemma OnCloseValid(s: State, g: Generation, code: nat)
    requires s.Valid() && g in s.world.dialled
    ensures s.OnClose(g, code).Valid()
    ensures g == s.generation ==> !s.stopped
  {
  }

  lemma OnTickValid(s: State, g: Generation, now: int)
    requires s.Valid() && g in s.beats && s.beats[g].armed
    ensures s.OnTick(g, now).Valid()
  {
    OnCloseValid(s.Expired(g).AskClose(g), g, NORMAL_CLOSURE);
  }

  lemma OnDetectedValid(s: State, g: Generation, now: int)
    requires s.Valid() && g in s.world.detecting
    ensures s.OnDetected(g, now).Valid()
  {
    var t := s.Undetected(g);
    assert t.Valid();
    if g == s.generation {
      assert t.Send(g, Hello).Valid();
      StartedBeatValid(t.Send(g, Hello), now);
      hide State.Valid, State.Send, State.Undetected;
    }
  }

  lemma StartedBeatValid(s: State, now: int)
    requires s.Valid() && s.heartbeat.Some? && s.socket.Some?
    ensures s.(beats := s.beats[s.heartbeat.value := Beat(now, true)]).Valid()
  {
  }

  lemma OnDetectFailedValid(s: State, g: Generation)
    requires s.Valid() && g in s.world.detecting
    ensures s.OnDetectFailed(g).Valid()
  {
    OnCloseValid(s.Undetected(g).AskClose(g), g, NORMAL_CLOSURE);
  }

  lemma OnFrameValid(s: State, g: Generation, f: Frame, now: int)
    requires s.Valid() && g in s.world.dialled
    ensures s.OnFrame(g, f, now).Valid()
  {
    TouchedValid(s, now);
    hide State.Halted, State.Touched;
    HaltedValid(s.Touched(now), g);
  }

  lemma TouchedValid(s: State, now: int)
    requires s.Valid()
    ensures s.Touched(now).Valid() && s.Touched(now).world == s.world && s.Touched(now).generation == s.generation
  {
  }

  lemma OnTimerValid(s: State, now: int)
    requires s.Valid() && s.world.timers > 0
    ensures s.OnTimer(now).Valid()
  {
  }

  lemma OnTimerFailingValid(s: State, now: int)
    requires s.Valid() && s.world.timers > 0
    ensures s.OnTimerFailing(now).Valid()
  {
    if !s.stopped { UndialledValid(s.(world := s.world.(timers := 0)), now); }
    hide State.Undialled;
  }

  lemma AnnounceValid(s: State, g: Generation)
    requires s.Valid() && g in s.world.dialled
    ensures s.Announce(g).Valid()
  {
  }

  lemma OnKeyTrustedValid(s: State, g: Generation)
    requires s.Valid() && g in s.world.trusting
    ensures s.OnKeyTrusted(g).Valid()
  {
  }

  lemma OnJobDoneValid(s: State, g: Generation)
    requires s.Valid() && g in s.world.working
    ensures s.OnJobDone(g).Valid()
  {
  }

  lemma StepValid(s: State, e: Event)
    requires s.Valid()
    ensures Step(s, e).Valid()
  {
    if s.CanHappen(e) {
      match e
      case Start(now) => if !s.stopped && s.connection == Idle { StartValid(s, now); }
      case StartFails(now) => if !s.stopped && s.connection == Idle { StartValid(s, now); }
      case Stop => HaltedValid(s, s.generation);
      case SocketOpen(g) => AnnounceValid(s, g);
      case Detected(g, now) => OnDetectedValid(s, g, now);
      case DetectFailed(g) => OnDetectFailedValid(s, g);
      case FrameArrives(g, f, now) => OnFrameValid(s, g, f, now);
      case KeyTrusted(g) => OnKeyTrustedValid(s, g);
      case JobDone(g) => OnJobDoneValid(s, g);
      case SocketClose(g, code) => OnCloseValid(s, g, code);
      case Tick(g, now) => OnTickValid(s, g, now);
      case TimerFires(now) => OnTimerValid(s, now);
      case TimerFails(now) => OnTimerFailingValid(s, now);
    }
    hide State.Valid, State.Opened, State.Undialled, State.OnTimerFailing, State.Halted, State.OnDetected, State.OnDetectFailed, State.OnFrame, State.OnClose;
    hide State.OnTick, State.OnTimer, State.Announce, State.OnKeyTrusted, State.OnJobDone;
  }

  /** After any events, a started and unstopped session has one socket or one timer, exactly unless a dial threw. */
  lemma {:induction false} RunSocketOrTimer(device: nat, es: seq<Event>)
    ensures var s := Run(Initial(device), es); s.Valid() && (s.SocketOrTimer() <==> !s.Stalled())
  {
    RunValid(Initial(device), es);
  }

  lemma {:induction false} RunValid(s: State, es: seq<Event>)
    requires s.Valid()
    ensures Run(s, es).Valid()
    decreases |es|
  {
    if es != [] {
      StepValid(s, es[0]);
      RunValid(Step(s, es[0]), es[1..]);
    }
  }

  // ----- a dial that throws

  /** The dial of this event throws. */
  predicate FailsDial(s: State, e: Event) {
    s.CanHappen(e) && !s.stopped && (e.TimerFails? || (e.StartFails? && s.connection == Idle))
  }

  lemma StepFailed(s: State, e: Event)
    ensures Step(s, e).world.failed == if FailsDial(s, e) then s.world.failed + {s.generation + 1} else s.world.failed
  {
    match e
    case SocketClose(g, code) => OnCloseFailed(s, g, code);
    case DetectFailed(g) => EndFailed(s, g, 0);
    case Tick(g, now) => EndFailed(s, g, now);
    case FrameArrives(_, _, _) => QuietTimers(s, e);
    case Stop => QuietTimers(s, e);
    case SocketOpen(_) => QuietTimers(s, e);
    case Detected(_, _) => QuietTimers(s, e);
    case KeyTrusted(_) => QuietTimers(s, e);
    case JobDone(_) => QuietTimers(s, e);
    case Start(_) =>
    case StartFails(_) =>
    case TimerFires(_) =>
    case TimerFails(_) =>
    hide State.OnClose, State.OnFrame, State.OnDetectFailed, State.OnTick, State.OnDetected, State.Halted;
    hide State.Announce, State.OnKeyTrusted, State.OnJobDone;
  }

  lemma EndFailed(s: State, g: Generation, now: int)
    ensures s.OnDetectFailed(g).world.failed == s.world.failed == s.OnTick(g, now).world.failed
  {
    OnCloseFailed(s.Undetected(g).AskClose(g), g, NORMAL_CLOSURE);
    OnCloseFailed(s.Expired(g).AskClose(g), g, NORMAL_CLOSURE);
    hide State.OnClose, State.BeatOf;
  }

  lemma OnCloseFailed(s: State, g: Generation, code: nat)
    ensures s.OnClose(g, code).world.failed == s.world.failed
  {
  }

  predicate AlwaysSocketOrTimer(s: State, es: seq<Event>)
    decreases |es|
  {
    s.SocketOrTimer() && (es == [] || AlwaysSocketOrTimer(Step(s, es[0]), es[1..]))
  }

  predicate NeverFailsDial(s: State, es: seq<Event>)
    decreases |es|
  {
    es == [] || (!FailsDial(s, es[0]) && NeverFailsDial(Step(s, es[0]), es[1..]))
  }

  /** At every point of a run there is one socket or one timer if and only if no dial throws on the way. */
  lemma {:induction false} RunAlwaysSocketOrTimer(s: State, es: seq<Event>)
    requires s.Valid() && !s.Stalled()
    ensures AlwaysSocketOrTimer(s, es) <==> NeverFailsDial(s, es)
    decreases |es|
  {
    hide Step, State.NoFuture, State.SocketIsCurrent, State.OneInterval, State.IdleUntilStarted;
    if es != [] {
      StepValid(s, es[0]);
      StepFailed(s, es[0]);
      if FailsDial(s, es[0]) {
        FailingStalls(s, es[0]);
      } else {
        if s.stopped { StoppedStays(s, es[0]); }
        RunAlwaysSocketOrTimer(Step(s, es[0]), es[1..]);
      }
    }
  }

  lemma FailingStalls(s: State, e: Event)
    requires FailsDial(s, e)
    ensures Step(s, e).Stalled()
  {
  }

  /** Without a call of stop(), a stalled session stays so: nothing in flight ever dials, writes or closes again. */
  lemma {:induction false} StalledIsFinal(s: State, es: seq<Event>)
    requires s.Valid() && s.Stalled() && Stop !in es
    ensures Run(s, es).Stalled() && Run(s, es).socket.None? && Run(s, es).world.timers == 0
    ensures Run(s, es).world.log == s.world.log
    decreases |es|
  {
    assert s.Stuck();
    hide State.Valid;
    if es != [] {
      StalledStays(s, es[0]);
      StepValid(s, es[0]);
      StalledIsFinal(Step(s, es[0]), es[1..]);
    }
  }

  lemma StalledStays(s: State, e: Event)
    requires s.Valid() && s.Stalled() && e != Stop
    ensures Step(s, e).Stalled() && Step(s, e).world.log == s.world.log
  {
    if e.OfSocket() && s.CanHappen(e) {
      assert s.Stale(e);
      StaleIsHarmless(s, e);
      hide Step;
    }
  }

  /** The first retry's dial throws: the session says it is connecting and never tries again. */
  lemma ThrowingDialStrands(device: nat, es: seq<Event>)
    requires Stop !in es
    ensures var s := Run(Step(Step(Step(Initial(device), Start(0)), SocketClose(1, 1006)), TimerFails(0)), es);
            s.Stalled() && s.socket.None? && s.world.timers == 0 && s.world.log == [Dial(1), Retry(1), DialFailed(3)]
  {
    var s1 := Step(Initial(device), Start(0));
    assert s1.generation == 1 && s1.world.dialled == {1} && s1.attempt == 0 && s1.world.log == [Dial(1)] && !s1.stopped;
    assert s1.world.failed == {} && s1.world.timers == 0;
    var s2 := Step(s1, SocketClose(1, 1006));
    assert s2.generation == 2 && s2.world.timers == 1 && !s2.stopped && s2.world.log == [Dial(1), Retry(1)];
    var s3 := Step(s2, TimerFails(0));
    assert s3.Stalled() && s3.world.log == [Dial(1), Retry(1), DialFailed(3)];
    InitialCounts(device);
    StepValid(Initial(device), Start(0));
    StepValid(s1, SocketClose(1, 1006));
    StepValid(s2, TimerFails(0));
    StalledIsFinal(s3, es);
  }

  // ----- events of older sockets

  /** Everything a stale event must not move. */
  ghost predicate SameConnection(s: State, n: State) {
    && n.generation == s.generation && n.stopped == s.stopped && n.socket == s.socket && n.world.timers == s.world.timers
    && n.heartbeat == s.heartbeat && n.world.dialled == s.world.dialled && n.world.failed == s.world.failed
    && n.world.working <= s.world.working
    && forall g :: n.BeatOf(g).armed == s.BeatOf(g).armed
  }

  lemma TickIsCurrent(s: State, e: Event)
    requires s.Valid() && s.CanHappen(e) && e.Tick?
    ensures e.gen == s.generation
  {
  }

  lemma StaleFrame(s: State, e: Event)
    requires e.FrameArrives? && s.Stale(e)
    ensures SameConnection(s, Step(s, e)) && Step(s, e).world.log == s.world.log
  {
  }

  lemma StaleFailedDetection(s: State, e: Event)
    requires e.DetectFailed? && s.CanHappen(e) && s.Stale(e)
    ensures SameConnection(s, Step(s, e))
    ensures Step(s, e).world.log == if s.socket.Some? then s.world.log + [CloseAsked(e.gen, s.socket.value)] else s.world.log
  {
  }

  /**
   * An event of an older generation leaves generation, stopped flag, socket, timers and running interval
   * alone. It does nothing visible either, except that a late failed detection closes the newer socket.
   */
  lemma StaleIsHarmless(s: State, e: Event)
    requires s.Valid() && s.CanHappen(e) && s.Stale(e)
    ensures SameConnection(s, Step(s, e))
    ensures Step(s, e).world.log == s.world.log <==> !(e.DetectFailed? && s.socket.Some?)
    ensures e.DetectFailed? && s.socket.Some? ==> Step(s, e).world.log == s.world.log + [CloseAsked(e.gen, s.generation)]
  {
    if e.Tick? { TickIsCurrent(s, e); }
    if e.FrameArrives? { StaleFrame(s, e); }
    if e.DetectFailed? { StaleFailedDetection(s, e); }
    hide State.OnTick, State.OnFrame, State.OnDetectFailed, State.OneInterval, State.NoFuture, State.Halted, State.Opened;
  }

  /** Two dials, and the first one's capability detection failing late: the second socket is told to close. */
  lemma LateDetectionFailureClosesNewSocket(device: nat)
    ensures var s := Step(Step(Step(Step(Initial(device), Start(0)), SocketOpen(1)), SocketClose(1, 1006)), TimerFires(0));
            s.socket == Some(3) && Step(s, DetectFailed(1)).world.log == s.world.log + [CloseAsked(1, 3)]
  {
    var s1 := Step(Initial(device), Start(0));
    assert s1.generation == 1 && s1.world.timers == 0 && !s1.stopped && s1.world.dialled == {1} && s1.world.detecting == multiset{};
    var s2 := Step(s1, SocketOpen(1));
    assert s2 == s1.(world := s1.world.(detecting := multiset{1}));
    var s3 := Step(s2, SocketClose(1, 1006));
    assert s3.generation == 2 && s3.world.timers == 1 && !s3.stopped && s3.world.detecting == multiset{1};
    var s4 := Step(s3, TimerFires(0));
    assert s4.socket == Some(3) && s4.generation == 3 && s4.world.detecting == multiset{1};
    hide State.Opened, State.OnClose, State.OnTimer, State.Announce, Initial;
    StaleFailedDetection(s4, DetectFailed(1));
    hide Step;
  }

  // ----- halting

  lemma StoppedStays(s: State, e: Event)
    requires s.Valid() && s.stopped
    ensures Step(s, e).stopped && Step(s, e).world.dialled == s.world.dialled && Step(s, e).socket.None?
    ensures Step(s, e).world.log == s.world.log
  {
    if e.OfSocket() && s.CanHappen(e) {
      StaleIsHarmless(s, e);
    }
    hide State.OnTick, State.OnFrame, State.OnDetectFailed, State.OneInterval, State.NoFuture;
  }

  /** Once halted, whatever is still in flight, the agent never dials, writes or closes anything again. */
  lemma {:induction false} HaltIsFinal(s: State, es: seq<Event>)
    requires s.Valid() && s.stopped
    ensures Run(s, es).stopped && Run(s, es).world.dialled == s.world.dialled && Run(s, es).socket.None?
    ensures Run(s, es).world.log == s.world.log
    decreases |es|
  {
    if es != [] {
      StoppedStays(s, es[0]);
      StepValid(s, es[0]);
      HaltIsFinal(Step(s, es[0]), es[1..]);
    }
  }

  // ----- what is written where

  function Written(s: State, g: Generation, p: Payload): seq<Output> {
    if s.socket.Some? then [Sent(g, s.socket.value, p)] else []
  }

  function Asked(s: State, g: Generation): seq<Output> {
    if s.socket.Some? then [CloseAsked(g, s.socket.value)] else []
  }

  function Retried(s: State, g: Generation, code: nat): seq<Output> {
    if g != s.generation || s.stopped || code in PERMANENT_CLOSE_CODES then [] else [Retry(s.attempt + 1)]
  }

  predicate Fatal(device: nat, f: Frame) {
    f.Revoked? || (f.Welcome? && (f.protocolVersion != PROTOCOL_VERSION || f.deviceId != device))
  }

  /** What one event makes the session do. */
  function Outputs(s: State, e: Event): seq<Output> {
    if !s.CanHappen(e) then []
    else
      match e
      case Start(_) => if s.stopped || s.connection != Idle then [] else [Dial(s.generation + 1)]
      case StartFails(_) => if s.stopped || s.connection != Idle then [] else [DialFailed(s.generation + 1)]
      case Stop => Asked(s, s.generation)
      case SocketOpen(_) => []
      case Detected(g, _) => if g == s.generation then Written(s, g, Hello) else []
      case DetectFailed(g) => Asked(s, g) + Retried(s, g, NORMAL_CLOSURE)
      case FrameArrives(g, f, _) => if g == s.generation && Fatal(s.device, f) then Asked(s, g) else []
      case KeyTrusted(_) => []
      case JobDone(g) => if g == s.generation then Written(s, g, Result) else []
      case SocketClose(g, code) => Retried(s, g, code)
      case Tick(g, now) =>
        if now - s.BeatOf(g).lastFrameAt > HEARTBEAT_TIMEOUT_MS
        then Asked(s, g) + Retried(s, g, NORMAL_CLOSURE)
        else Written(s, g, Heartbeat)
      case TimerFires(_) => if s.stopped then [] else [Dial(s.generation + 1)]
      case TimerFails(_) => if s.stopped then [] else [DialFailed(s.generation + 1)]
  }

  lemma OnCloseLog(s: State, g: Generation, code: nat)
    ensures s.OnClose(g, code).world.log == s.world.log + Retried(s, g, code)
  {
  }

  lemma OnTickLog(s: State, g: Generation, now: int)
    ensures s.OnTick(g, now).world.log
         == s.world.log + (if now - s.BeatOf(g).lastFrameAt > HEARTBEAT_TIMEOUT_MS
                     then Asked(s, g) + Retried(s, g, NORMAL_CLOSURE) else Written(s, g, Heartbeat))
  {
    var t := s.Expired(g).AskClose(g);
    OnCloseLog(t, g, NORMAL_CLOSURE);
    hide State.OnClose;
  }

  lemma OnDetectFailedLog(s: State, g: Generation)
    ensures s.OnDetectFailed(g).world.log == s.world.log + (Asked(s, g) + Retried(s, g, NORMAL_CLOSURE))
  {
    OnCloseLog(s.Undetected(g).AskClose(g), g, NORMAL_CLOSURE);
    hide State.OnClose;
  }

  lemma OnFrameLog(s: State, g: Generation, f: Frame, now: int)
    ensures s.OnFrame(g, f, now).world.log == s.world.log + (if g == s.generation && Fatal(s.device, f) then Asked(s, g) else [])
  {
  }

  lemma StepLog(s: State, e: Event)
    ensures Step(s, e).world.log == s.world.log + Outputs(s, e)
  {
    match e
    case FrameArrives(g, f, now) => OnFrameLog(s, g, f, now);
    case Tick(g, now) => OnTickLog(s, g, now);
    case DetectFailed(g) => OnDetectFailedLog(s, g);
    case SocketClose(g, code) => OnCloseLog(s, g, code);
    case Start(_) =>
    case StartFails(_) =>
    case Stop =>
    case SocketOpen(_) =>
    case Detected(_, _) =>
    case KeyTrusted(_) =>
    case JobDone(_) =>
    case TimerFires(_) =>
    case TimerFails(_) =>
    hide State.OnFrame, State.OnTick, State.OnDetectFailed, State.OnClose;
  }

  ghost predicate OwnSocket(log: seq<Output>) {
    forall o :: o in log && o.Sent? ==> o.origin == o.target
  }

  /** A hello, heartbeat or result is only ever written to the socket whose open, interval or job frame caused it. */
  lemma {:induction false} RunOwnSocket(s: State, es: seq<Event>)
    requires s.Valid() && OwnSocket(s.world.log)
    ensures OwnSocket(Run(s, es).world.log)
    decreases |es|
  {
    if es != [] {
      OutputsOwnSocket(s, es[0]);
      StepLog(s, es[0]);
      StepValid(s, es[0]);
      RunOwnSocket(Step(s, es[0]), es[1..]);
    }
    hide Step, State.Valid, Outputs;
  }

  lemma OutputsOwnSocket(s: State, e: Event)
    requires s.Valid()
    ensures OwnSocket(Outputs(s, e))
  {
    if e.Tick? && s.CanHappen(e) { TickIsCurrent(s, e); }
    hide State.NoFuture, State.OneInterval, State.SocketOrTimer, State.IdleUntilStarted;
  }

  // ----- dials and retries

  predicate Dialling(o: Output) {
    o.Dial? || o.DialFailed?
  }

  /** Every attempt to dial, those that throw included. */
  function Dials(log: seq<Output>): nat {
    if log == [] then 0 else Dials(log[..|log| - 1]) + (if Dialling(log[|log| - 1]) then 1 else 0)
  }

  function Retries(log: seq<Output>): nat {
    if log == [] then 0 else Retries(log[..|log| - 1]) + (if log[|log| - 1].Retry? then 1 else 0)
  }

  lemma {:induction false} CountMore(log: seq<Output>, more: seq<Output>)
    ensures Dials(log + more) == Dials(log) + Dials(more)
    ensures Retries(log + more) == Retries(log) + Retries(more)
    decreases |more|
  {
    if more == [] {
      assert log + more == log;
    } else {
      CountMore(log, more[..|more| - 1]);
      assert (log + more)[..|log + more| - 1] == log + more[..|more| - 1];
    }
  }

  /** While unstopped, every dial but the first was paid for by one retry, and an unspent retry is the armed timer. */
  predicate Paid(s: State) {
    s.stopped || Dials(s.world.log) + s.world.timers == Retries(s.world.log) + (if s.Started() then 1 else 0)
  }

  lemma CountOne(o: Output)
    ensures Dials([o]) == (if Dialling(o) then 1 else 0) && Retries([o]) == (if o.Retry? then 1 else 0)
  {
    assert [o][..0] == [];
  }

  lemma ClosingCounts(s: State, g: Generation, code: nat)
    ensures Dials(Retried(s, g, code)) == 0 == Retries(Asked(s, g)) == Dials(Asked(s, g))
    ensures Dials(Asked(s, g) + Retried(s, g, code)) == 0
    ensures Retries(Asked(s, g) + Retried(s, g, code)) == Retries(Retried(s, g, code))
  {
    CountOne(Retry(s.attempt + 1));
    if s.socket.Some? { CountOne(CloseAsked(g, s.socket.value)); }
    CountMore(Asked(s, g), Retried(s, g, code));
  }

  predicate SameDials(s: State, n: State) {
    n.world.dialled == s.world.dialled && n.world.failed == s.world.failed
  }

  /** A socket's end arms as many timers as it logs retries, unless it halts. */
  predicate EndCounts(s: State, n: State, o: seq<Output>) {
    n.stopped || (Dials(o) == 0 && n.world.timers == s.world.timers + Retries(o) && SameDials(s, n))
  }

  lemma OnCloseTimers(s: State, g: Generation, code: nat)
    ensures EndCounts(s, s.OnClose(g, code), Retried(s, g, code))
  {
    CountOne(Retry(s.attempt + 1));
    hide Dials, Retries;
  }

  /** An event that is neither a dial nor the end of a socket. */
  predicate Quiet(e: Event) {
    e.SocketOpen? || e.Detected? || e.FrameArrives? || e.KeyTrusted? || e.JobDone? || e.Stop?
  }

  lemma QuietOutputs(s: State, e: Event)
    requires Quiet(e)
    ensures Dials(Outputs(s, e)) == 0 == Retries(Outputs(s, e))
  {
    if s.socket.Some? {
      CountOne(CloseAsked(s.generation, s.socket.value));
      if e.OfSocket() {
        CountOne(CloseAsked(e.gen, s.socket.value));
        CountOne(Sent(e.gen, s.socket.value, Hello));
        CountOne(Sent(e.gen, s.socket.value, Result));
      }
    }
    hide Dials, Retries;
  }

  predicate SameTimers(s: State, n: State) {
    n.world.timers == s.world.timers && SameDials(s, n) && (s.stopped ==> n.stopped)
  }

  lemma FrameTimers(s: State, g: Generation, f: Frame, now: int)
    ensures SameTimers(s, s.OnFrame(g, f, now))
  {
    var t := s.Touched(now);
    assert t.world == s.world && t.stopped == s.stopped && t.generation == s.generation;
    hide State.Touched;
  }

  lemma DetectedTimers(s: State, g: Generation, now: int)
    ensures SameTimers(s, s.OnDetected(g, now))
  {
  }

  lemma SmallTimers(s: State, g: Generation)
    ensures SameTimers(s, s.Halted(g)) && SameTimers(s, s.Announce(g))
    ensures SameTimers(s, s.OnKeyTrusted(g)) && SameTimers(s, s.OnJobDone(g))
  {
  }

  lemma QuietTimers(s: State, e: Event)
    requires Quiet(e)
    ensures SameTimers(s, Step(s, e))
  {
    match e
    case FrameArrives(g, f, now) => FrameTimers(s, g, f, now);
    case Detected(g, now) => DetectedTimers(s, g, now);
    case Stop => SmallTimers(s, s.generation);
    case SocketOpen(g) => SmallTimers(s, g);
    case KeyTrusted(g) => SmallTimers(s, g);
    case JobDone(g) => SmallTimers(s, g);
    hide State.OnFrame, State.OnDetected, State.CanHappen, State.Halted, State.Announce, State.OnKeyTrusted, State.OnJobDone;
  }

  lemma FailedDetectionTimers(s: State, g: Generation)
    ensures EndCounts(s, s.OnDetectFailed(g), Asked(s, g) + Retried(s, g, NORMAL_CLOSURE))
  {
    OnCloseTimers(s.Undetected(g).AskClose(g), g, NORMAL_CLOSURE);
    ClosingCounts(s, g, NORMAL_CLOSURE);
    hide Dials, Retries, State.OnClose;
  }

  lemma TickTimers(s: State, g: Generation, now: int)
    requires now - s.BeatOf(g).lastFrameAt > HEARTBEAT_TIMEOUT_MS
    ensures EndCounts(s, s.OnTick(g, now), Asked(s, g) + Retried(s, g, NORMAL_CLOSURE))
  {
    OnCloseTimers(s.Expired(g).AskClose(g), g, NORMAL_CLOSURE);
    ClosingCounts(s, g, NORMAL_CLOSURE);
    hide Dials, Retries, State.OnClose;
  }

  lemma StepTimers(s: State, e: Event)
    requires s.Valid() && !s.stopped && !Quiet(e)
    ensures Step(s, e).stopped || (Dials(Outputs(s, e)) + Step(s, e).world.timers + (if s.Started() then 1 else 0)
                                   == Retries(Outputs(s, e)) + s.world.timers + (if Step(s, e).Started() then 1 else 0))
  {
    if s.CanHappen(e) {
      match e
      case Start(_) => CountOne(Dial(s.generation + 1));
      case StartFails(_) => CountOne(DialFailed(s.generation + 1));
      case TimerFires(_) => CountOne(Dial(s.generation + 1));
      case TimerFails(_) => CountOne(DialFailed(s.generation + 1));
      case SocketClose(g, code) => OnCloseTimers(s, g, code);
      case DetectFailed(g) => FailedDetectionTimers(s, g);
      case Tick(g, now) =>
        if now - s.BeatOf(g).lastFrameAt > HEARTBEAT_TIMEOUT_MS {
          TickTimers(s, g, now);
        } else {
          CountOne(Sent(g, s.generation, Heartbeat));
        }
    }
    hide Dials, Retries, State.BeatOf, State.NoFuture, State.OneInterval, State.OnClose, State.OnDetectFailed;
  }

  lemma StepPaid(s: State, e: Event)
    requires s.Valid() && Paid(s)
    ensures Paid(Step(s, e))
  {
    if s.stopped {
      StoppedStays(s, e);
    } else if s.CanHappen(e) {
      hide Step, State.Valid, Outputs, Dials, Retries, State.CanHappen, State.Stalled;
      StepLog(s, e);
      CountMore(s.world.log, Outputs(s, e));
      if Quiet(e) {
        QuietOutputs(s, e);
        QuietTimers(s, e);
      } else {
        StepTimers(s, e);
      }
    }
  }

  lemma {:induction false} RunPaid(device: nat, es: seq<Event>)
    ensures Paid(Run(Initial(device), es))
    decreases |es|
  {
    RunKeepsPaid(Initial(device), es);
  }

  lemma {:induction false} RunKeepsPaid(s: State, es: seq<Event>)
    requires s.Valid() && Paid(s)
    ensures Paid(Run(s, es))
    decreases |es|
  {
    if es != [] {
      StepPaid(s, es[0]);
      StepValid(s, es[0]);
      RunKeepsPaid(Step(s, es[0]), es[1..]);
    }
    hide Step, State.Valid, Paid;
  }

  // ----- the backoff curve

  /** The attempt counter is the number of retries since a current socket was last welcomed. */
  predicate AttemptCounts(s: State) {
    s.world.since <= |s.world.log| && s.attempt == Retries(s.world.log[s.world.since..])
  }

  /** A welcome of a socket that was replaced resets the counter although retries have been made since. */
  predicate Forgets(s: State, e: Event) {
    s.CanHappen(e) && e.KeyTrusted? && s.Stale(e) && s.attempt > 0
  }

  lemma OutputsAttempt(s: State, e: Event)
    requires !e.KeyTrusted?
    ensures Step(s, e).attempt == s.attempt + Retries(Outputs(s, e)) && Step(s, e).world.since == s.world.since
  {
    if s.CanHappen(e) {
      match e
      case Start(_) => CountOne(Dial(s.generation + 1));
      case StartFails(_) => CountOne(DialFailed(s.generation + 1));
      case TimerFires(_) => CountOne(Dial(s.generation + 1));
      case TimerFails(_) => CountOne(DialFailed(s.generation + 1));
      case SocketClose(g, code) => OnCloseAttempt(s, g, code);
      case DetectFailed(g) => FailedDetectionAttempt(s, g);
      case Tick(g, now) => TickAttempt(s, g, now);
      case Stop => QuietAttempt(s, e);
      case SocketOpen(_) => QuietAttempt(s, e);
      case Detected(_, _) => QuietAttempt(s, e);
      case FrameArrives(_, _, _) => QuietAttempt(s, e);
      case JobDone(_) => QuietAttempt(s, e);
    }
    hide Dials, Retries, State.OnTick, State.OnDetectFailed, State.OnClose, State.OnFrame, State.OnDetected, State.CanHappen;
  }

  lemma QuietAttempt(s: State, e: Event)
    requires Quiet(e) && !e.KeyTrusted? && s.CanHappen(e)
    ensures Step(s, e).attempt == s.attempt && Step(s, e).world.since == s.world.since && Retries(Outputs(s, e)) == 0
  {
    QuietOutputs(s, e);
    hide Dials, Retries, Outputs, State.CanHappen, State.BeatOf;
  }

  lemma OnCloseAttempt(s: State, g: Generation, code: nat)
    ensures s.OnClose(g, code).attempt == s.attempt + Retries(Retried(s, g, code))
    ensures s.OnClose(g, code).world.since == s.world.since
  {
    CountOne(Retry(s.attempt + 1));
    hide Dials, Retries;
  }

  lemma FailedDetectionAttempt(s: State, g: Generation)
    ensures s.OnDetectFailed(g).attempt == s.attempt + Retries(Asked(s, g) + Retried(s, g, NORMAL_CLOSURE))
    ensures s.OnDetectFailed(g).world.since == s.world.since
  {
    OnCloseAttempt(s.Undetected(g).AskClose(g), g, NORMAL_CLOSURE);
    ClosingCounts(s, g, NORMAL_CLOSURE);
    hide Dials, Retries, State.OnClose;
  }

  lemma TickAttempt(s: State, g: Generation, now: int)
    requires s.CanHappen(Tick(g, now))
    ensures s.OnTick(g, now).attempt == s.attempt + Retries(Outputs(s, Tick(g, now)))
    ensures s.OnTick(g, now).world.since == s.world.since
  {
    if now - s.BeatOf(g).lastFrameAt > HEARTBEAT_TIMEOUT_MS {
      OnCloseAttempt(s.Expired(g).AskClose(g), g, NORMAL_CLOSURE);
      ClosingCounts(s, g, NORMAL_CLOSURE);
    } else if s.socket.Some? {
      CountOne(Sent(g, s.socket.value, Heartbeat));
    }
    hide Dials, Retries, State.OnClose;
  }

  /** The counter keeps counting retries at every event but exactly those. */
  lemma StepAttemptCounts(s: State, e: Event)
    requires AttemptCounts(s)
    ensures AttemptCounts(Step(s, e)) <==> !Forgets(s, e)
  {
    if e.KeyTrusted? {
      TrustedAttemptCounts(s, e);
    } else {
      OtherAttemptCounts(s, e);
    }
    hide Step, AttemptCounts, State.CanHappen;
  }

  lemma TrustedAttemptCounts(s: State, e: Event)
    requires AttemptCounts(s) && e.KeyTrusted?
    ensures AttemptCounts(Step(s, e)) <==> !Forgets(s, e)
  {
    assert s.world.log[|s.world.log|..] == [];
    hide Dials;
  }

  lemma OtherAttemptCounts(s: State, e: Event)
    requires AttemptCounts(s) && !e.KeyTrusted?
    ensures AttemptCounts(Step(s, e))
  {
    hide Step, Outputs, Dials;
    var log, since := s.world.log, s.world.since;
    StepLog(s, e);
    OutputsAttempt(s, e);
    CountMore(log[since..], Outputs(s, e));
    assert (log + Outputs(s, e))[since..] == log[since..] + Outputs(s, e);
  }

  predicate AlwaysCounts(s: State, es: seq<Event>)
    decreases |es|
  {
    AttemptCounts(s) && (es == [] || AlwaysCounts(Step(s, es[0]), es[1..]))
  }

  predicate NeverForgets(s: State, es: seq<Event>)
    decreases |es|
  {
    es == [] || (!Forgets(s, es[0]) && NeverForgets(Step(s, es[0]), es[1..]))
  }

  /**
   * At every point of a run the next retry waits as one more than the retries since a current socket was
   * last welcomed, if and only if no late welcome resets the counter on the way.
   */
  lemma {:induction false} RunAttemptCounts(s: State, es: seq<Event>)
    requires AttemptCounts(s)
    ensures AlwaysCounts(s, es) <==> NeverForgets(s, es)
    decreases |es|
  {
    hide Step, AttemptCounts, Forgets;
    if es != [] {
      StepAttemptCounts(s, es[0]);
      if !Forgets(s, es[0]) { RunAttemptCounts(Step(s, es[0]), es[1..]); }
    }
  }

  lemma InitialCounts(device: nat)
    ensures Initial(device).Valid() && AttemptCounts(Initial(device)) && Honest(Initial(device))
  {
  }

  /** The first socket is lost while its welcome's key is being checked: the check then resets the retry it cost. */
  lemma LateWelcomeResetsBackoff(device: nat)
    ensures var welcome := FrameArrives(1, Welcome(PROTOCOL_VERSION, device), 0);
            var s := Step(Step(Step(Initial(device), Start(0)), welcome), SocketClose(1, 1006));
            var n := Step(s, KeyTrusted(1));
            && s.attempt == 1 && s.socket.None? && s.world.timers == 1 && !s.stopped && AttemptCounts(s)
            && n.attempt == 0 && n.socket.None? && n.world.timers == 1 && !AttemptCounts(n)
  {
    var s1 := Step(Initial(device), Start(0));
    assert s1.generation == 1 && s1.world.dialled == {1} && s1.world.trusting == multiset{} && s1.device == device;
    assert s1.attempt == 0 && s1.world.since == 0 && s1.world.log == [Dial(1)] && s1.world.timers == 0 && !s1.stopped;
    var s2 := Step(s1, FrameArrives(1, Welcome(PROTOCOL_VERSION, device), 0));
    assert s2.world == s1.world.(trusting := multiset{1}) && s2.generation == 1 && s2.attempt == 0 && !s2.stopped;
    hide State.OnFrame, State.Opened, Initial;
    var s3 := Step(s2, SocketClose(1, 1006));
    assert s3.world.log == [Dial(1), Retry(1)] && s3.generation == 2 && s3.world.since == 0;
    assert Retries([Dial(1), Retry(1)]) == 1 by {
      CountMore([Dial(1)], [Retry(1)]);
      CountOne(Dial(1));
      CountOne(Retry(1));
      assert [Dial(1)] + [Retry(1)] == [Dial(1), Retry(1)];
    }
    assert s3.world.log[0..] == s3.world.log;
    hide Retries, State.OnClose;
  }

  // ----- what state() reports

  /** What the connection really is. */
  function Truth(s: State): Connection {
    if s.stopped then Stopped
    else if !s.Started() then Idle
    else if s.socket.None? then Offline
    else if s.generation in s.world.greeted then Online
    else Connecting
  }

  predicate Honest(s: State) {
    s.connection == Truth(s)
  }

  lemma OnCloseHonest(s: State, g: Generation, code: nat)
    requires s.Valid() && Honest(s) && g in s.world.dialled
    ensures Honest(s.OnClose(g, code))
  {
  }

  lemma OnTimerHonest(s: State, now: int)
    requires s.Valid() && Honest(s) && s.world.timers > 0
    ensures Honest(s.OnTimer(now))
    ensures Honest(s.OnTimerFailing(now)) <==> s.stopped
  {
  }

  lemma OnTickHonest(s: State, g: Generation, now: int)
    requires s.Valid() && Honest(s) && g in s.beats && s.beats[g].armed
    ensures Honest(s.OnTick(g, now))
  {
  }

  lemma OnDetectFailedHonest(s: State, g: Generation)
    requires s.Valid() && Honest(s) && g in s.world.detecting
    ensures Honest(s.OnDetectFailed(g))
  {
  }

  lemma OnFrameHonest(s: State, g: Generation, f: Frame, now: int)
    requires s.Valid() && Honest(s) && g in s.world.dialled
    ensures Honest(s.OnFrame(g, f, now))
  {
  }

  /** A welcome whose key check ends after its socket was replaced, or a dial that throws. */
  predicate Misreports(s: State, e: Event) {
    (s.CanHappen(e) && e.KeyTrusted? && s.Stale(e) && s.connection != Online) || FailsDial(s, e)
  }

  /** The reported state stays the true one at every event but those. */
  lemma ReportedStateIsTrue(s: State, e: Event)
    requires s.Valid() && Honest(s)
    ensures Honest(Step(s, e)) <==> !Misreports(s, e)
  {
    if s.CanHappen(e) { HonestStep(s, e); }
    hide State.CanHappen, State.Valid, Honest;
  }

  lemma HonestStep(s: State, e: Event)
    requires s.Valid() && Honest(s) && s.CanHappen(e)
    ensures Honest(Step(s, e)) <==> !Misreports(s, e)
  {
    match e
    case FrameArrives(g, f, now) => OnFrameHonest(s, g, f, now);
    case Tick(g, now) => OnTickHonest(s, g, now);
    case DetectFailed(g) => OnDetectFailedHonest(s, g);
    case SocketClose(g, code) => OnCloseHonest(s, g, code);
    case TimerFires(now) => OnTimerHonest(s, now);
    case TimerFails(now) => OnTimerHonest(s, now);
    case Detected(g, now) => QuietHonest(s, g, now);
    case KeyTrusted(g) => OnKeyTrustedHonest(s, g);
    case JobDone(g) => QuietHonest(s, g, 0);
    case SocketOpen(g) => QuietHonest(s, g, 0);
    case Start(_) => StartHonest(s, e);
    case StartFails(_) => StartHonest(s, e);
    case Stop => StartHonest(s, e);
    hide State.Opened, State.Undialled, State.Halted, Honest;
    hide State.OnFrame, State.OnTick, State.OnDetectFailed, State.OnClose, State.OnTimer, State.OnTimerFailing;
    hide State.OnDetected, State.OnKeyTrusted, State.OnJobDone, State.Announce, State.OneInterval, State.NoFuture;
    hide State.BeatOf, State.Silenced, State.AskClose;
  }

  lemma StartHonest(s: State, e: Event)
    requires s.Valid() && Honest(s) && (e.Start? || e.StartFails? || e.Stop?)
    ensures Honest(Step(s, e)) <==> !FailsDial(s, e)
  {
  }

  lemma QuietHonest(s: State, g: Generation, now: int)
    requires Honest(s)
    ensures Honest(s.OnDetected(g, now)) && Honest(s.OnJobDone(g)) && Honest(s.Announce(g))
  {
  }

  lemma OnKeyTrustedHonest(s: State, g: Generation)
    requires s.Valid() && Honest(s) && g in s.world.trusting
    ensures Honest(s.OnKeyTrusted(g)) <==> g == s.generation || s.connection == Online
  {
  }

  predicate AlwaysHonest(s: State, es: seq<Event>)
    decreases |es|
  {
    Honest(s) && (es == [] || AlwaysHonest(Step(s, es[0]), es[1..]))
  }

  predicate NeverMisreports(s: State, es: seq<Event>)
    decreases |es|
  {
    es == [] || (!Misreports(s, es[0]) && NeverMisreports(Step(s, es[0]), es[1..]))
  }

  /** At every point of a run the session reports its true state if and only if no such event is on the way. */
  lemma {:induction false} RunReportsTruth(s: State, es: seq<Event>)
    requires s.Valid() && Honest(s)
    ensures AlwaysHonest(s, es) <==> NeverMisreports(s, es)
    decreases |es|
  {
    hide Step, State.Valid, Honest, Misreports;
    if es != [] {
      ReportedStateIsTrue(s, es[0]);
      StepValid(s, es[0]);
      if !Misreports(s, es[0]) { RunReportsTruth(Step(s, es[0]), es[1..]); }
    }
  }

  /** Stopped while the key of a welcome is being checked: the session then says it is online for ever. */
  lemma StoppedYetOnline(device: nat)
    ensures var welcome := FrameArrives(1, Welcome(PROTOCOL_VERSION, device), 0);
            var s := Step(Step(Step(Step(Initial(device), Start(0)), welcome), Stop), KeyTrusted(1));
            s.stopped && s.connection == Online
  {
    var s1 := Step(Initial(device), Start(0));
    assert s1.generation == 1 && s1.world.dialled == {1} && s1.world.trusting == multiset{} && s1.device == device;
    var s2 := Step(s1, FrameArrives(1, Welcome(PROTOCOL_VERSION, device), 0));
    assert s2.world.trusting == multiset{1};
    var s3 := Step(s2, Stop);
    assert s3.world.trusting == multiset{1} && s3.stopped;
    hide State.Halted, State.OnFrame, State.Opened, Initial;
  }

  // ----- what each event starts and ends

  /** A frame of the current socket that ends the session: revoked, or a welcome of another version or device. */
  predicate Unwelcome(s: State, e: Event) {
    && e.FrameArrives? && e.gen == s.generation
    && (e.frame.Revoked? || (e.frame.Welcome? && !(e.frame.protocolVersion == "1" && e.frame.deviceId == s.device)))
  }

  /** A session stops at a call of stop(), an unwelcome frame, or a close with a permanent code; at nothing else. */
  lemma StopsExactly(s: State, e: Event)
    requires s.Valid() && s.CanHappen(e)
    ensures Step(s, e).stopped
       <==> s.stopped || e.Stop? || Unwelcome(s, e) || (e.SocketClose? && e.gen == s.generation && e.code in {4001, 4003, 4004})
  {
    match e
    case FrameArrives(g, f, now) => FrameStops(s, g, f, now);
    case Tick(g, now) => EndStops(s, g, now);
    case DetectFailed(g) => EndStops(s, g, 0);
    case SocketClose(g, code) => CloseStops(s, g, code);
    case TimerFires(_) =>
    case TimerFails(_) =>
    case Start(_) =>
    case StartFails(_) =>
    case Detected(_, _) =>
    case KeyTrusted(_) =>
    case JobDone(_) =>
    case SocketOpen(_) =>
    case Stop =>
    hide State.OnFrame, State.OnTick, State.OnDetectFailed, State.OnClose, State.NoFuture, State.OneInterval;
  }

  lemma CloseStops(s: State, g: Generation, code: nat)
    ensures s.OnClose(g, code).stopped <==> s.stopped || (g == s.generation && code in {4001, 4003, 4004})
  {
  }

  lemma EndStops(s: State, g: Generation, now: int)
    ensures s.OnDetectFailed(g).stopped == s.stopped == s.OnTick(g, now).stopped
  {
    CloseStops(s.Undetected(g).AskClose(g), g, NORMAL_CLOSURE);
    CloseStops(s.Expired(g).AskClose(g), g, NORMAL_CLOSURE);
    hide State.OnClose, State.BeatOf;
  }

  lemma FrameStops(s: State, g: Generation, f: Frame, now: int)
    ensures s.OnFrame(g, f, now).stopped <==> s.stopped || Unwelcome(s, FrameArrives(g, f, now))
  {
  }

  function DetectingAfter(s: State, e: Event): multiset<Generation> {
    match e
    case SocketOpen(g) => if g == s.generation then s.world.detecting + multiset{g} else s.world.detecting
    case Detected(g, _) => s.world.detecting - multiset{g}
    case DetectFailed(g) => s.world.detecting - multiset{g}
    case _ => s.world.detecting
  }

  function TrustingAfter(s: State, e: Event): multiset<Generation> {
    match e
    case FrameArrives(g, f, _) =>
      if g == s.generation && f == Welcome("1", s.device) then s.world.trusting + multiset{g} else s.world.trusting
    case KeyTrusted(g) => s.world.trusting - multiset{g}
    case _ => s.world.trusting
  }

  function WorkingAfter(s: State, e: Event): multiset<Generation> {
    match e
    case FrameArrives(g, f, _) => if g == s.generation && f.Job? then s.world.working + multiset{g} else s.world.working
    case JobDone(g) => s.world.working - multiset{g}
    case _ => s.world.working
  }

  /** A capability detection, a key check and a job start exactly at an open, a welcome and a job of the current socket. */
  lemma PromisesExactly(s: State, e: Event)
    requires s.CanHappen(e)
    ensures Step(s, e).world.detecting == DetectingAfter(s, e)
    ensures Step(s, e).world.trusting == TrustingAfter(s, e)
    ensures Step(s, e).world.working == WorkingAfter(s, e)
  {
    match e
    case FrameArrives(g, f, now) => FramePromises(s, g, f, now);
    case Tick(g, now) => EndPromises(s, g, now);
    case DetectFailed(g) => EndPromises(s, g, 0);
    case SocketClose(g, code) => ClosePromises(s, g, code);
    case Detected(g, now) => DetectedPromises(s, g, now);
    case _ => OtherPromises(s, e);
    hide State.OnFrame, State.OnClose, State.OnDetected, State.OnTick, State.OnDetectFailed, State.BeatOf, State.CanHappen;
    hide State.Opened, State.Undialled, State.OnTimer, State.OnTimerFailing, State.Halted, State.Announce, State.OnKeyTrusted, State.OnJobDone;
  }

  lemma OtherPromises(s: State, e: Event)
    requires s.CanHappen(e) && !e.FrameArrives? && !e.Tick? && !e.DetectFailed? && !e.SocketClose? && !e.Detected?
    ensures Step(s, e).world.detecting == DetectingAfter(s, e)
    ensures Step(s, e).world.trusting == TrustingAfter(s, e)
    ensures Step(s, e).world.working == WorkingAfter(s, e)
  {
    HaltedPromises(s, s.generation);
    if e.SocketOpen? || e.KeyTrusted? || e.JobDone? {
      SocketPromises(s, e);
      hide Step, DetectingAfter, TrustingAfter, WorkingAfter;
    }
    hide State.Halted, State.Announce, State.OnKeyTrusted, State.OnJobDone;
  }

  lemma SocketPromises(s: State, e: Event)
    requires s.CanHappen(e) && (e.SocketOpen? || e.KeyTrusted? || e.JobDone?)
    ensures Step(s, e).world.detecting == DetectingAfter(s, e)
    ensures Step(s, e).world.trusting == TrustingAfter(s, e)
    ensures Step(s, e).world.working == WorkingAfter(s, e)
  {
    hide State.CanHappen;
  }

  predicate SamePromises(w: World, n: World) {
    n.detecting == w.detecting && n.trusting == w.trusting && n.working == w.working
  }

  lemma ClosePromises(s: State, g: Generation, code: nat)
    ensures SamePromises(s.world, s.OnClose(g, code).world)
  {
  }

  lemma EndPromises(s: State, g: Generation, now: int)
    ensures SamePromises(s.world, s.OnTick(g, now).world)
    ensures SamePromises(s.world.(detecting := s.world.detecting - multiset{g}), s.OnDetectFailed(g).world)
  {
    ClosePromises(s.Undetected(g).AskClose(g), g, NORMAL_CLOSURE);
    ClosePromises(s.Expired(g).AskClose(g), g, NORMAL_CLOSURE);
    hide State.OnClose, State.BeatOf;
  }

  lemma DetectedPromises(s: State, g: Generation, now: int)
    ensures SamePromises(s.world.(detecting := s.world.detecting - multiset{g}), s.OnDetected(g, now).world)
  {
  }

  lemma FramePromises(s: State, g: Generation, f: Frame, now: int)
    ensures s.OnFrame(g, f, now).world.detecting == s.world.detecting
    ensures s.OnFrame(g, f, now).world.trusting == TrustingAfter(s, FrameArrives(g, f, now))
    ensures s.OnFrame(g, f, now).world.working == WorkingAfter(s, FrameArrives(g, f, now))
  {
    var t := s.Touched(now);
    assert t.world == s.world && t.generation == s.generation && t.device == s.device;
    HaltedPromises(t, g);
    hide State.Touched, State.Halted;
  }

  lemma HaltedPromises(s: State, g: Generation)
    ensures SamePromises(s.world, s.Halted(g).world)
  {
  }

  // ----- the heartbeat

  /** The time that counts as a sign of life for the current socket: its hello, or any frame at all. */
  function SignOfLife(s: State, e: Event): Option<int> {
    match e
    case Detected(g, now) => if g == s.generation then Some(now) else None
    case FrameArrives(_, _, now) => Some(now)
    case _ => None
  }

  /**
   * The heartbeat of a socket counts from its dial and then from the last sign of life, and its interval runs exactly
   * from the end of its capability detection. A frame of an older socket counts as well.
   */
  lemma HeartbeatExactly(s: State, e: Event)
    requires s.Valid() && s.CanHappen(e) && Step(s, e).socket.Some?
    ensures var n, g := Step(s, e), Step(s, e).socket.value;
            && (s.socket != n.socket ==> (e.Start? || e.TimerFires?) && n.BeatOf(g) == Beat(e.now, false))
            && (s.socket == n.socket ==>
                  n.BeatOf(g).lastFrameAt == if SignOfLife(s, e).Some? then SignOfLife(s, e).value else s.BeatOf(g).lastFrameAt)
            && (s.socket == n.socket ==> (n.BeatOf(g).armed <==> s.BeatOf(g).armed || (e.Detected? && e.gen == g)))
  {
    match e
    case FrameArrives(g, f, now) => FrameBeats(s, g, f, now);
    case Tick(g, now) => TickBeats(s, g, now);
    case DetectFailed(g) => CloseBeats(s.Undetected(g).AskClose(g), g, NORMAL_CLOSURE);
    case SocketClose(g, code) => CloseBeats(s, g, code);
    case TimerFires(_) =>
    case TimerFails(_) =>
    case Start(_) =>
    case StartFails(_) =>
    case Detected(_, _) =>
    case KeyTrusted(_) =>
    case JobDone(_) =>
    case SocketOpen(_) =>
    case Stop =>
    hide State.OnFrame, State.OnClose, State.OnTick, State.OneInterval, State.IdleUntilStarted;
  }

  lemma CloseBeats(s: State, g: Generation, code: nat)
    requires s.OnClose(g, code).socket.Some?
    ensures s.OnClose(g, code) == s
  {
  }

  lemma TickBeats(s: State, g: Generation, now: int)
    requires s.Valid() && g in s.beats && s.beats[g].armed && s.OnTick(g, now).socket.Some?
    ensures s.OnTick(g, now).beats == s.beats && s.OnTick(g, now).socket == s.socket
  {
    if now - s.BeatOf(g).lastFrameAt > HEARTBEAT_TIMEOUT_MS { CloseBeats(s.Expired(g).AskClose(g), g, NORMAL_CLOSURE); }
  }

  lemma FrameBeats(s: State, g: Generation, f: Frame, now: int)
    requires s.Valid() && s.OnFrame(g, f, now).socket.Some?
    ensures var n := s.OnFrame(g, f, now);
            n.socket == s.socket && n.BeatOf(n.socket.value) == s.BeatOf(n.socket.value).(lastFrameAt := now)
  {
    hide State.OneInterval, State.NoFuture;
  }

  /** At a tick more than 45 s after the last sign of life the socket is given up, at any other it lives on. */
  lemma SilenceIsNoticed(s: State, g: Generation, now: int)
    requires s.Valid() && s.CanHappen(Tick(g, now))
    ensures var n := Step(s, Tick(g, now));
            && (now - s.BeatOf(g).lastFrameAt > 45000 ==> n.socket.None? && n.world.timers == 1 && n.connection == Offline)
            && (now - s.BeatOf(g).lastFrameAt > 45000 ==>
                  n.world.log == s.world.log + [CloseAsked(g, g), Retry(s.attempt + 1)])
            && (now - s.BeatOf(g).lastFrameAt <= 45000 ==> n.socket == Some(g) && n.world.log == s.world.log + [Sent(g, g, Heartbeat)])
  {
    TickIsCurrent(s, Tick(g, now));
    assert s.socket == Some(g) && !s.stopped && s.world.timers == 0;
    hide State.NoFuture, State.OneInterval, State.IdleUntilStarted;
  }

  /** What a current socket is sent: one hello when its capabilities are known, and the result of each job done on it. */
  lemma CurrentSocketIsAnswered(s: State, e: Event)
    requires s.Valid() && s.CanHappen(e) && e.OfSocket() && e.gen == s.generation
    ensures e.Detected? ==> Step(s, e).world.log == s.world.log + [Sent(e.gen, e.gen, Hello)]
    ensures e.JobDone? ==> Step(s, e).world.log == s.world.log + [Sent(e.gen, e.gen, Result)]
  {
    hide State.OneInterval, State.IdleUntilStarted, State.OnFrame, State.OnClose, State.OnTick;
  }
}
