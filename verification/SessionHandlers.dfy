/**
 * The callbacks of apps/agent/src/session.ts and session-inbound.ts as they run, each up to its next
 * await. Each is proved to make the transition that module Session reasons about.
 */
module SessionHandlers {
  import opened Prelude
  import opened Session

  class AgentSession {
    const device: nat
    var socket: Option<Generation>
    var heartbeat: Option<Generation>
    var connection: Connection
    var generation: Generation
    var attempt: nat
    var stopped: bool
    /** The heartbeat instances, by the generation that created them. */
    var beats: map<Generation, Beat>
    ghost var world: World

    ghost function Abstract(): State
      reads this
    {
      State(device, generation, connection, attempt, stopped, socket, heartbeat, beats, world)
    }

    constructor (device: nat)
      ensures this.device == device && Abstract() == Initial(device)
    {
      this.device := device;
      socket, heartbeat, connection, generation, attempt, stopped := None, None, Idle, 0, 0, false;
      beats, world := map[], World(0, {}, {}, multiset{}, multiset{}, multiset{}, [], 0, {});
    }

    method Send(origin: Generation, p: Payload)
      modifies this`world
      ensures Abstract() == old(Abstract()).Send(origin, p)
    {
      if socket.Some? {
        world := world.Did(Sent(origin, socket.value, p));
      }
    }

    method CloseSocket(origin: Generation)
      modifies this`world
      ensures Abstract() == old(Abstract()).AskClose(origin)
    {
      if socket.Some? {
        world := world.Did(CloseAsked(origin, socket.value));
      }
    }

    method StopHeartbeat()
      modifies this`heartbeat, this`beats
      ensures Abstract() == old(Abstract()).Silenced()
    {
      if heartbeat.Some? {
        var beat := if heartbeat.value in beats then beats[heartbeat.value] else Beat(0, false);
        beats := beats[heartbeat.value := beat.(armed := false)];
      }
      heartbeat := None;
    }

    method Halt(origin: Generation)
      modifies this
      ensures Abstract() == old(Abstract()).Halted(origin)
    {
      stopped := true;
      connection := Stopped;
      generation := generation + 1;
      StopHeartbeat();
      CloseSocket(origin);
      socket := None;
    }

    /** `connectThrows` is what the dial does; `threw` says that the exception leaves the function. */
    method Open(now: int, connectThrows: bool) returns (threw: bool)
      modifies this
      ensures threw == connectThrows
      ensures Abstract() == if connectThrows then old(Abstract()).Undialled(now) else old(Abstract()).Opened(now)
    {
      generation := generation + 1;
      connection := Connecting;
      heartbeat := Some(generation);
      beats := beats[generation := Beat(now, false)];
      if connectThrows {
        world := world.(failed := world.failed + {generation}, log := world.log + [DialFailed(generation)]);
        return true;
      }
      socket := Some(generation);
      world := world.(dialled := world.dialled + {generation}, log := world.log + [Dial(generation)]);
      return false;
    }

    method OnStart(now: int, connectThrows: bool) returns (threw: bool)
      modifies this
      ensures threw == FailsDial(old(Abstract()), if connectThrows then StartFails(now) else Start(now))
      ensures Abstract() == Step(old(Abstract()), if connectThrows then StartFails(now) else Start(now))
    {
      if stopped || connection != Idle { return false; }
      threw := Open(now, connectThrows);
    }

    method OnStop()
      modifies this
      ensures Abstract() == old(Abstract()).Halted(old(generation))
    {
      Halt(generation);
    }

    /** `announce`, up to the capability detection. */
    method Announce(g: Generation)
      requires g in world.dialled
      modifies this`world
      ensures Abstract() == old(Abstract()).Announce(g)
    {
      if g != generation { return; }
      world := world.(detecting := world.detecting + multiset{g});
    }

    method OnDetected(g: Generation, now: int)
      requires g in world.detecting
      modifies this`beats, this`world
      ensures Abstract() == old(Abstract()).OnDetected(g, now)
    {
      world := world.(detecting := world.detecting - multiset{g});
      if g != generation { return; }
      Send(g, Hello);
      if heartbeat.Some? {
        beats := beats[heartbeat.value := Beat(now, true)];
      }
    }

    method OnDetectFailed(g: Generation)
      requires g in world.detecting
      modifies this
      ensures Abstract() == old(Abstract()).OnDetectFailed(g)
    {
      world := world.(detecting := world.detecting - multiset{g});
      CloseSocket(g);
      OnClose(g, NORMAL_CLOSURE);
    }

    method OnClose(g: Generation, code: nat)
      modifies this
      ensures Abstract() == old(Abstract()).OnClose(g, code)
    {
      if g != generation { return; }
      generation := generation + 1;
      StopHeartbeat();
      socket := None;
      assert Abstract() == old(Abstract()).(generation := old(generation) + 1).Silenced().(socket := None);
      hide State.Silenced, State.Halted;
      if stopped {
        connection := Stopped;
        return;
      }
      if code in PERMANENT_CLOSE_CODES {
        Halt(g);
        return;
      }
      connection := Offline;
      attempt := attempt + 1;
      world := world.(timers := world.timers + 1, log := world.log + [Retry(attempt)]);
    }

    method OnTimer(now: int, connectThrows: bool) returns (threw: bool)
      requires world.timers > 0
      modifies this
      ensures threw == FailsDial(old(Abstract()), if connectThrows then TimerFails(now) else TimerFires(now))
      ensures Abstract() == Step(old(Abstract()), if connectThrows then TimerFails(now) else TimerFires(now))
    {
      world := world.(timers := world.timers - 1);
      if stopped { return false; }
      threw := Open(now, connectThrows);
    }

    method OnTick(g: Generation, now: int)
      requires g in beats && beats[g].armed
      modifies this
      ensures Abstract() == old(Abstract()).OnTick(g, now)
    {
      if now - beats[g].lastFrameAt > HEARTBEAT_TIMEOUT_MS {
        beats := beats[g := beats[g].(armed := false)];
        CloseSocket(g);
        OnClose(g, NORMAL_CLOSURE);
        return;
      }
      Send(g, Heartbeat);
    }

    /** A frame, up to the first await of its handler. */
    method OnFrame(g: Generation, f: Frame, now: int)
      requires g in world.dialled
      modifies this
      ensures Abstract() == old(Abstract()).OnFrame(g, f, now)
    {
      if heartbeat.Some? {
        var beat := if heartbeat.value in beats then beats[heartbeat.value] else Beat(0, false);
        beats := beats[heartbeat.value := beat.(lastFrameAt := now)];
      }
      if g != generation { return; }
      match f
      case Welcome(version, greetedDevice) =>
        if version != PROTOCOL_VERSION {
          Halt(g);
        } else if greetedDevice != device {
          Halt(g);
        } else {
          world := world.(trusting := world.trusting + multiset{g});
        }
      case Job => world := world.(working := world.working + multiset{g});
      case Revoked => Halt(g);
      case Unreadable =>
      case Cancel =>
      case Refused =>
    }

    method OnKeyTrusted(g: Generation)
      requires g in world.trusting
      modifies this
      ensures Abstract() == old(Abstract()).OnKeyTrusted(g)
    {
      world := world.(trusting := world.trusting - multiset{g}, greeted := world.greeted + {g},
                      since := if g == generation then |world.log| else world.since);
      connection := Online;
      attempt := 0;
    }

    method OnJobDone(g: Generation)
      requires g in world.working
      modifies this`world
      ensures Abstract() == old(Abstract()).OnJobDone(g)
    {
      world := world.(working := world.working - multiset{g});
      if g == generation {
        Send(g, Result);
      }
    }
  }
}
