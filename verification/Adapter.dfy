/**
 The Claude Code adapter: the fields its mutex guards, one method for each critical section, and the same sections as
 functions of the guarded state (agent/internal/coding/claude.go).
 */
module Adapter {
  import opened Prelude
  import opened Protocol

  datatype Stream = Stdout | Stderr

  datatype Line = Line(stream: Stream, text: string)

  const OUTPUT_BUFFER := 4096

  datatype SendError = NotRunning | NotAcceptingInput

  /**
   `accepted` lists every line ever put on the output channel and `taken` how many the consumer has received; `closed`
   is whether the channel is closed.
   */
  datatype Guarded = Guarded(
    state: AgentState, exited: bool, exitCode: int, failed: bool, task: string,
    accepted: seq<Line>, taken: nat, closed: bool)

  // --- the critical sections ---

  function Started(): Guarded {
    Guarded(Starting, false, 0, false, "", [], 0, false)
  }

  /** readStream, a line scanned: the first output leaves `starting`, and output resumes from `waiting_input`. */
  function OutputSeen(g: Guarded): Guarded {
    if g.state == Starting || g.state == WaitingInput then g.(state := Running) else g
  }

  predicate Full(g: Guarded) {
    |g.accepted| - g.taken >= OUTPUT_BUFFER
  }

  /** readStream, the select: a full buffer drops the line. */
  function Offered(g: Guarded, line: Line): Guarded {
    if Full(g) then g else g.(accepted := g.accepted + [line])
  }

  function Taken(g: Guarded): Guarded {
    g.(taken := g.taken + 1)
  }

  /** reap, once Wait has returned: `ok` is a nil error. */
  function ExitRecorded(g: Guarded, ok: bool, code: int): Guarded {
    var g' := g.(exited := true, exitCode := code);
    if g.state == Stopping then g'.(state := Stopped)
    else if ok && code == 0 then g'.(state := Stopped)
    else g'.(state := Crashed, failed := !ok)
  }

  function OutputClosed(g: Guarded): Guarded {
    g.(closed := true)
  }

  function StopRequested(g: Guarded): Guarded {
    if g.exited then g else g.(state := Stopping)
  }

  function PromptCheck(g: Guarded): Result<(), SendError> {
    if g.exited then Err(NotRunning)
    else if g.state == Starting then Err(NotAcceptingInput)
    else if g.state.Terminal() then Err(NotRunning)
    else Ok(())
  }

  function PromptNoted(g: Guarded, task: string): Guarded {
    var g' := g.(task := task);
    if g.state == WaitingInput then g'.(state := Running) else g'
  }

  function WaitingMarked(g: Guarded): Guarded {
    if g.state == Running then g.(state := WaitingInput) else g
  }

  class ClaudeAdapter {
    var launched: bool
    var state: AgentState
    var exited: bool
    var exitCode: int
    var failed: bool
    var task: string
    var accepted: seq<Line>
    var taken: nat
    var closed: bool

    ghost function State(): Guarded
      reads this
    {
      Guarded(state, exited, exitCode, failed, task, accepted, taken, closed)
    }

    constructor ()
      ensures !launched && state == Idle && !exited && !closed
    {
      launched, state, exited, exitCode, failed := false, Idle, false, 0, false;
      task, accepted, taken, closed := "", [], 0, false;
    }

    /** Refused while a session is active; a launch that fails changes nothing. */
    method Start(launches: bool) returns (ok: bool)
      modifies this
      ensures ok <==> !old(state).Active() && launches
      ensures ok ==> launched && State() == Started() == Guarded(Starting, false, 0, false, "", [], 0, false)
      ensures !ok ==> launched == old(launched) && State() == old(State())
    {
      if state.Active() || !launches {
        return false;
      }
      launched := true;
      state, exited, exitCode, failed, task := Starting, false, 0, false, "";
      accepted, taken, closed := [], 0, false;
      return true;
    }

    method ObserveOutput()
      modifies this
      ensures State() == OutputSeen(old(State())) && launched == old(launched)
    {
      if state == Starting {
        state := Running;
      } else if state == WaitingInput {
        state := Running;
      }
    }

    /** Sending on a closed channel would panic, hence the precondition; Supervision.SendNeverPanics meets it. */
    method OfferLine(line: Line)
      requires !closed
      modifies this
      ensures State() == Offered(old(State()), line) && launched == old(launched)
    {
      if |accepted| - taken < OUTPUT_BUFFER {
        accepted := accepted + [line];
      }
    }

    method RecordExit(ok: bool, code: int)
      modifies this
      ensures State() == ExitRecorded(old(State()), ok, code) && launched == old(launched)
    {
      exited := true;
      exitCode := code;
      if state == Stopping {
        state := Stopped;
      } else if ok && code == 0 {
        state := Stopped;
      } else {
        state := Crashed;
        failed := !ok;
      }
    }

    method CloseOutput()
      requires !closed
      modifies this
      ensures State() == OutputClosed(old(State())) && launched == old(launched)
    {
      closed := true;
    }

    /** The first section of Stop; `proceed` is whether there is a process to bring down. */
    method RequestStop() returns (proceed: bool)
      modifies this
      ensures proceed == (old(launched) && !old(exited)) && launched == old(launched)
      ensures State() == if proceed then StopRequested(old(State())) else old(State())
    {
      if !launched || exited {
        return false;
      }
      state := Stopping;
      return true;
    }

    method CheckPrompt() returns (r: Result<(), SendError>)
      ensures r == if !launched then Err(NotRunning) else PromptCheck(State())
      ensures r == Err(NotAcceptingInput) <==> launched && !exited && state == Starting
      ensures r.Ok? <==> launched && !exited && state != Starting && state != Stopped && state != Crashed
    {
      if !launched || exited {
        return Err(NotRunning);
      }
      if state == Starting {
        return Err(NotAcceptingInput);
      }
      if state.Terminal() {
        return Err(NotRunning);
      }
      return Ok(());
    }

    method NotePrompt(text: string)
      modifies this
      ensures State() == PromptNoted(old(State()), text) && launched == old(launched)
      ensures task == text
    {
      task := text;
      if state == WaitingInput {
        state := Running;
      }
    }

    method MarkWaiting()
      modifies this
      ensures State() == WaitingMarked(old(State())) && launched == old(launched)
    {
      if state == Running {
        state := WaitingInput;
      }
    }
  }
}
