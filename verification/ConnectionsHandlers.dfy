/**
 * The pieces of apps/gateway/src/store/connections.ts between two awaits, as they run over the shared
 * inFlight map. Each is proved to make the transition that module Connections reasons about.
 */
module ConnectionsHandlers {
  import opened Prelude
  import opened Connections

  class ConnectionStore {
    var inFlight: map<ConnectionId, TaskId>
    var tasks: seq<Task>
    var callers: map<CallerId, Caller>
    ghost var seen: map<CallerId, Read>

    ghost function Abstract(): State
      reads this
    {
      State(inFlight, tasks, callers, seen)
    }

    constructor ()
      ensures Abstract() == EMPTY
    {
      inFlight, tasks, callers, seen := map[], [], map[], map[];
    }

    method ResolveCredential(c: CallerId)
      requires c !in callers
      modifies this`callers
      ensures Abstract() == Step(old(Abstract()), Resolve(c))
    {
      callers := callers[c := Querying];
    }

    method OnStoredRead(c: CallerId, stored: Read)
      requires c in callers && callers[c].Querying?
      modifies this
      ensures Abstract() == old(Abstract()).OnStored(c, stored)
    {
      seen := seen[c := stored];
      if stored.ReadFailed? {
        callers := callers[c := Answered(Failed(QueryFailed))];
        return;
      }
      if stored.NoRow? {
        callers := callers[c := Answered(Missing)];
        return;
      }
      if !stored.needsRefresh {
        callers := callers[c := Answered(Credential(stored.id))];
        return;
      }
      if stored.id in inFlight {
        callers := callers[c := Joined(inFlight[stored.id])];
        return;
      }
      var refreshing := |tasks|;
      tasks := tasks + [Task(stored.id, stored.id, 0, stored.id, Beginning, Asked(1))];
      inFlight := inFlight[stored.id := refreshing];
      callers := callers[c := Joined(refreshing)];
    }

    method Settle(t: TaskId, r: Result)
      requires t < |tasks|
      modifies this`tasks
      ensures tasks == old(tasks)[t := old(tasks)[t].Settle(r)]
    {
      tasks := tasks[t := tasks[t].(stage := Settled(r))];
    }

    /** Calls abortRefresh, then goes on to `r` whatever the control plane answers. */
    method Abort(t: TaskId, permanent: bool, r: Result)
      requires t < |tasks|
      modifies this`tasks
      ensures tasks == old(tasks)[t := old(tasks)[t].Abort(permanent, r)]
    {
      var ledger := tasks[t].ledger;
      tasks := tasks[t := tasks[t].(stage := Aborting(r), ledger := ledger.(aborts := ledger.aborts + 1, permanent := permanent))];
    }

    method OnBeginReply(t: TaskId, decision: BeginAnswer)
      requires t < |tasks| && tasks[t].stage.Beginning?
      modifies this`tasks
      ensures Abstract() == old(Abstract()).With(t, old(tasks[t]).OnBegin(decision))
    {
      if decision.BeginThrew? {
        Settle(t, Failed(Unexpected));
      } else if decision.BeginMalformed? {
        Settle(t, Failed(Unavailable));
      } else if decision.BeginMissing? {
        Settle(t, Missing);
      } else if decision.BeginReady? {
        Settle(t, Credential(decision.id));
      } else if decision.BeginWait? {
        tasks := tasks[t := tasks[t].(stage := Sleeping)];
      } else {
        tasks := tasks[t := tasks[t].(leased := decision.id, ledger := tasks[t].ledger.(granted := true))];
        if !decision.hasRenewal {
          Abort(t, true, Missing);
        } else {
          tasks := tasks[t := tasks[t].(stage := Opening)];
        }
      }
    }

    /** The row is read again after a wait; the for loop ends or asks once more. */
    method OnReread(t: TaskId, afterWait: Read)
      requires t < |tasks| && tasks[t].stage.Rereading?
      modifies this`tasks
      ensures Abstract() == old(Abstract()).With(t, old(tasks[t]).OnReread(afterWait))
    {
      if afterWait.ReadFailed? {
        Settle(t, Failed(QueryFailed));
        return;
      }
      if afterWait.NoRow? {
        Settle(t, Missing);
        return;
      }
      if !afterWait.needsRefresh {
        Settle(t, Credential(afterWait.id));
        return;
      }
      tasks := tasks[t := tasks[t].(current := afterWait.id)];
      tasks := tasks[t := tasks[t].(pass := tasks[t].pass + 1)];
      if tasks[t].pass < MAX_WAIT_PASSES {
        var ledger := tasks[t].ledger;
        tasks := tasks[t := tasks[t].(stage := Beginning, ledger := ledger.(begins := ledger.begins + 1))];
      } else {
        Settle(t, Failed(StillRenewing));
      }
    }

    method OnOpened(t: TaskId, outcome: Opened)
      requires t < |tasks| && tasks[t].stage.Opening?
      modifies this`tasks
      ensures Abstract() == old(Abstract()).With(t, old(tasks[t]).OnOpened(outcome))
    {
      match outcome
      case OpenThrew => Abort(t, false, Failed(CannotOpen));
      case NotARenewal => Abort(t, true, Missing);
      case Renewal => tasks := tasks[t := tasks[t].(stage := Exchanging, ledger := tasks[t].ledger.(unsealed := true))];
    }

    method OnExchanged(t: TaskId, exchange: Exchange)
      requires t < |tasks| && tasks[t].stage.Exchanging?
      modifies this`tasks
      ensures Abstract() == old(Abstract()).With(t, old(tasks[t]).OnExchanged(exchange))
    {
      match exchange
      case Exchanged => tasks := tasks[t := tasks[t].(stage := SealingToken, ledger := tasks[t].ledger.(exchanged := true))];
      case RefusedForGood => Abort(t, true, Missing);
      case RefusedForNow => Abort(t, false, Failed(NotRenewed));
      case ExchangeThrew => Abort(t, false, Failed(Unexpected));
    }

    method OnSealed(t: TaskId, ok: bool)
      requires t < |tasks| && (tasks[t].stage.SealingToken? || tasks[t].stage.SealingRenewal?)
      modifies this`tasks
      ensures Abstract() == old(Abstract()).With(t, old(tasks[t]).OnSealed(ok))
    {
      if !ok {
        Abort(t, false, Failed(Unexpected));
      } else if tasks[t].stage.SealingToken? {
        tasks := tasks[t := tasks[t].(stage := SealingRenewal, ledger := tasks[t].ledger.(seals := tasks[t].ledger.seals + 1))];
      } else {
        var ledger := tasks[t].ledger.(seals := tasks[t].ledger.seals + 1);
        tasks := tasks[t := tasks[t].(stage := Finishing, ledger := ledger.(finishes := ledger.finishes + 1))];
      }
    }

    method OnFinishReply(t: TaskId, committed: FinishAnswer)
      requires t < |tasks| && tasks[t].stage.Finishing?
      modifies this`tasks
      ensures Abstract() == old(Abstract()).With(t, old(tasks[t]).OnFinished(committed))
    {
      if committed.FinishThrew? {
        tasks := tasks[t := tasks[t].(ledger := tasks[t].ledger.(took := committed.took))];
        Abort(t, false, Failed(Unexpected));
      } else if committed.FinishMalformed? {
        tasks := tasks[t := tasks[t].(ledger := tasks[t].ledger.(took := committed.took))];
        Abort(t, false, Failed(Unavailable));
      } else {
        tasks := tasks[t := tasks[t].(ledger := tasks[t].ledger.(verdict := Some(committed.Committed?)))];
        if committed.Committed? {
          tasks := tasks[t := tasks[t].(ledger := tasks[t].ledger.(took := true))];
          Settle(t, Credential(tasks[t].leased));
        } else {
          tasks := tasks[t := tasks[t].(stage := ReadingWinner)];
        }
      }
    }

    method OnWinnerRead(t: TaskId, winner: Read)
      requires t < |tasks| && tasks[t].stage.ReadingWinner?
      modifies this`tasks
      ensures Abstract() == old(Abstract()).With(t, old(tasks[t]).OnWinner(winner))
    {
      if winner.ReadFailed? {
        Abort(t, false, Failed(QueryFailed));
      } else if winner.Row? && !winner.needsRefresh {
        Settle(t, Credential(winner.id));
      } else {
        Settle(t, Missing);
      }
    }

    /** The `finally` of the promise. */
    method OnCleanup(t: TaskId)
      requires t < |tasks| && tasks[t].stage.Settled?
      modifies this`inFlight
      ensures Abstract() == old(Abstract()).CleanedUp(t)
    {
      var key := tasks[t].key;
      if key in inFlight && inFlight[key] == t {
        inFlight := inFlight - {key};
      }
    }
  }
}
