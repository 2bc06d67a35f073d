/**
 * The run of `src/bb/terminal-command.ts` as an object that is handed its events one by one and
 * updates its fields in place, proved to take exactly the steps of the state machine.
 */
module TerminalRunner {
  import opened Prelude
  import opened T = Terminal

  class TerminalRun {
    const config: Config
    var phase: Phase
    var creationPending: bool
    var terminalId: Option<string>
    var closed: bool
    var output: string
    var nextSeq: int
    var truncated: bool
    /** The sessions created, and the forced closes sent, in order. */
    var sessions: seq<string>
    var closes: seq<string>
    ghost var streamed: string

    ghost function View(): State
      reads this
    {
      State(phase, creationPending, terminalId, closed, output, nextSeq, truncated, sessions, closes, streamed)
    }

    constructor (config: Config, before: Clock, atCall: Clock)
      ensures this.config == config && View() == Start(before, atCall)
    {
      this.config := config;
      terminalId, closed, output, nextSeq, truncated := None, false, "", 0, false;
      sessions, closes, streamed := [], [], "";
      if before.aborted || atCall.aborted {
        phase, creationPending := Returned(Aborted), false;
      } else if atCall.expired {
        phase, creationPending := Returned(TimedOut), false;
      } else {
        phase, creationPending := Waiting(Creating), true;
      }
    }

    method CloseOnce()
      modifies `closed, `closes
      ensures View() == T.CloseOnce(old(View()))
    {
      if terminalId.None? || terminalId.value == "" || closed {
        return;
      }
      closed := true;
      closes := closes + [terminalId.value];
    }

    method ReturnWith(result: CommandResult)
      modifies this
      ensures View() == Return(old(View()), result)
    {
      CloseOnce();
      phase := Returned(result);
    }

    method Enter(wait: Wait, clock: Clock)
      modifies this
      ensures View() == T.Enter(old(View()), wait, clock)
    {
      if clock.aborted {
        ReturnWith(Aborted);
      } else if clock.expired {
        ReturnWith(TimedOut);
      } else {
        phase := Waiting(wait);
      }
    }

    method CompleteOr(stretch: Stretch, next: Wait)
      modifies this
      ensures View() == T.CompleteOr(config, old(View()), stretch, next)
    {
      var exit := config.exitOf(output);
      if exit.None? {
        Enter(next, stretch.call);
      } else if stretch.observerThrows {
        phase := Threw;
      } else {
        ReturnWith(Exited(exit.value.exitCode, exit.value.output, truncated));
      }
    }

    method ExitLoop(stretch: Stretch)
      modifies this
      ensures View() == T.ExitLoop(config, old(View()), stretch)
    {
      if stretch.head.aborted {
        ReturnWith(Aborted);
      } else if stretch.head.expired {
        ReturnWith(TimedOut);
      } else {
        CompleteOr(stretch, StatusWait);
      }
    }

    method ReadyLoop(stretch: Stretch)
      modifies this
      ensures View() == T.ReadyLoop(old(View()), stretch)
    {
      if stretch.head.aborted {
        ReturnWith(Aborted);
      } else if stretch.head.expired {
        ReturnWith(TimedOut);
      } else {
        Enter(ReadyOutput, stretch.call);
      }
    }

    method Append(chunk: Reply)
      requires chunk.Chunk?
      modifies this
      ensures View() == T.Append(config, old(View()), chunk)
    {
      if chunk.nextSeq.Some? {
        nextSeq := chunk.nextSeq.value;
      }
      var all := output + chunk.text;
      if |all| > config.maximumBytes {
        output, truncated := all[|all| - config.maximumBytes..], true;
      } else {
        output, truncated := all, truncated || chunk.truncated;
      }
      streamed := streamed + chunk.text;
    }

    // ----- events

    method DeadlinePasses()
      modifies this
      ensures View() == Step(config, old(View()), Event.DeadlinePasses)
    {
      if phase.Waiting? {
        ReturnWith(TimedOut);
      }
    }

    method SignalAborts()
      modifies this
      ensures View() == Step(config, old(View()), Event.SignalAborts)
    {
      if phase.Waiting? {
        ReturnWith(Aborted);
      }
    }

    /** The session of a run that has already returned is closed as soon as it is there. */
    method SessionCreated(id: string, stretch: Stretch)
      modifies this
      ensures View() == Step(config, old(View()), Event.SessionCreated(id, stretch))
    {
      if !creationPending {
        return;
      }
      creationPending, terminalId, sessions := false, Some(id), sessions + [id];
      if phase != Waiting(Creating) {
        CloseOnce();
      } else if stretch.observerThrows {
        phase := Threw;
      } else if config.hasStdin {
        ReadyLoop(stretch);
      } else {
        ExitLoop(stretch);
      }
    }

    method SessionRefused()
      modifies this
      ensures View() == Step(config, old(View()), Event.SessionRefused)
    {
      if creationPending {
        creationPending := false;
        if phase == Waiting(Creating) {
          phase := Threw;
        }
      }
    }

    method Resolve(reply: Reply, stretch: Stretch)
      modifies this
      ensures View() == Step(config, old(View()), Resolved(reply, stretch))
    {
      hide T.Enter, T.CompleteOr, T.ExitLoop, T.ReadyLoop, T.Append, T.CloseOnce;
      if !phase.Waiting? || !Answers(phase.wait, reply) {
        return;
      }
      match phase.wait {
        case ReadyOutput => ResolveReadyOutput(reply, stretch);
        case ReadyStatus =>
          if reply.exited {
            CloseOnce();
            phase := Threw;
          } else {
            Enter(ReadyDelay, stretch.call);
          }
        case ReadyDelay => ReadyLoop(stretch);
        case Sending => ExitLoop(stretch);
        case StatusWait =>
          if stretch.observerThrows {
            phase := Threw;
          } else if reply.exited {
            ReturnWith(Exited(if reply.exitCode.Some? then reply.exitCode.value else 1, output, truncated));
          } else {
            Enter(OutputWait, stretch.call);
          }
        case OutputWait =>
          Append(reply);
          CompleteOr(stretch, DelayWait);
        case DelayWait => ExitLoop(stretch);
      }
    }

    /** What follows the ready marker is where the command's own output starts. */
    method ResolveReadyOutput(reply: Reply, stretch: Stretch)
      requires phase == Waiting(ReadyOutput) && reply.Chunk?
      modifies this
      ensures View() == Continue(config, old(View()), reply, stretch)
    {
      hide T.Enter, T.Append;
      Append(reply);
      var rest := config.readyRest(output);
      if rest.Some? {
        output, streamed := rest.value, rest.value;
        Enter(Sending, stretch.call);
      } else {
        Enter(ReadyStatus, stretch.call);
      }
    }

    method Reject()
      modifies this
      ensures View() == Step(config, old(View()), Rejected)
    {
      if !phase.Waiting? || phase.wait == Creating {
        return;
      }
      if phase.wait == DelayWait {
        ReturnWith(Aborted);
      } else {
        phase := Threw;
      }
    }
  }
}
