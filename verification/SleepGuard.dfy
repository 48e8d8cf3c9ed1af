/**
 Sleep inhibition: the Linux power manager around one systemd-inhibit child (agent/internal/power/power.go,
 agent/internal/power/power_linux.go) and the session manager that takes and releases it
 (agent/internal/session/manager.go:133-272).
 */
module SleepGuard {
  import opened Prelude
  import opened Protocol

  type Pid = nat
  type SessionId = nat

  /** `alive`, kept by the operating system: the inhibitor processes running. Sleep is inhibited while there is one. */
  datatype Power = Power(proc: Option<Pid>, prevented: bool, reason: string, alive: set<Pid>) {
    predicate Held() {
      alive != {}
    }
  }

  const REASON := "Beuvian is running a coding session"

  /** `started` is the child the operating system ran, or None when there is no systemd-inhibit or it did not start. */
  function Prevented(p: Power, reason: string, started: Option<Pid>): Power {
    if p.proc.Some? then p.(prevented := true, reason := reason)
    else if started.None? then p
    else Power(started, true, reason, p.alive + {started.value})
  }

  /** `killed` is whether the operating system carries out the kill; a process that is gone already is no failure. */
  function Allowed(p: Power, killed: bool): Power {
    if p.proc.None? then p.(prevented := false, reason := "")
    else if p.proc.value in p.alive && !killed then p.(proc := None)
    else Power(None, false, "", p.alive - {p.proc.value})
  }

  function Died(p: Power, pid: Pid): Power {
    p.(alive := p.alive - {pid})
  }

  /** The goroutine waiting on `pid`, once it is gone. */
  function Noticed(p: Power, pid: Pid): Power {
    if p.proc != Some(pid) then p
    else if p.prevented then Power(None, false, "", p.alive)
    else p.(proc := None)
  }

  class LinuxPower {
    var proc: Option<Pid>
    var prevented: bool
    var reason: string
    var alive: set<Pid>

    ghost function State(): Power
      reads this
    {
      Power(proc, prevented, reason, alive)
    }

    constructor ()
      ensures State() == Power(None, false, "", {})
    {
      proc, prevented, reason, alive := None, false, "", {};
    }

    method PreventSleep(why: string, started: Option<Pid>) returns (ok: bool)
      modifies this
      ensures State() == Prevented(old(State()), why, started)
      ensures ok <==> old(proc).Some? || started.Some?
    {
      if proc.Some? {
        MarkPrevented(why);
        return true;
      }
      if started.None? {
        return false;
      }
      alive := alive + {started.value};
      proc := started;
      MarkPrevented(why);
      return true;
    }

    method AllowSleep(killed: bool) returns (ok: bool)
      modifies this
      ensures State() == Allowed(old(State()), killed)
      ensures ok <==> (old(proc).Some? && old(proc).value in alive ==> killed)
    {
      if proc.None? {
        MarkAllowed();
        return true;
      }
      var pid := proc.value;
      proc := None;
      if pid in alive {
        if !killed {
          return false;
        }
        alive := alive - {pid};
      }
      MarkAllowed();
      return true;
    }

    /** The watcher, once Wait has returned. */
    method OnExit(pid: Pid)
      requires pid !in alive
      modifies this
      ensures State() == Noticed(old(State()), pid)
    {
      if proc == Some(pid) {
        proc := None;
        if prevented {
          MarkAllowed();
        }
      }
    }

    method MarkPrevented(why: string)
      modifies this`prevented, this`reason
      ensures prevented && reason == why
    {
      prevented, reason := true, why;
    }

    method MarkAllowed()
      modifies this`prevented, this`reason
      ensures !prevented && reason == ""
    {
      prevented, reason := false, "";
    }
  }

  /** What the world answers a StartSession: the adapter known and implemented, the inhibitor, the launch, the kill. */
  datatype Answers = Answers(known: bool, started: Option<Pid>, launched: bool, killed: bool)

  /** `consumers` are the sessions whose output stream has not ended yet. */
  datatype Guard = Guard(
    enabled: bool, power: Power, adapter: Option<SessionId>, session: Option<SessionId>, state: AgentState,
    consumers: set<SessionId>)

  predicate Busy(g: Guard) {
    g.adapter.Some? && g.state.Active()
  }

  function Release(g: Guard, killed: bool): Guard {
    if g.enabled then g.(power := Allowed(g.power, killed)) else g
  }

  function Started(g: Guard, s: SessionId, a: Answers): Guard {
    if Busy(g) || !a.known then g
    else
      var inhibited := if g.enabled then g.(power := Prevented(g.power, REASON, a.started)) else g;
      if !a.launched then Release(inhibited, a.killed)
      else inhibited.(adapter := Some(s), session := Some(s), state := Starting, consumers := g.consumers + {s})
  }

  function Halted(g: Guard, killed: bool): Guard {
    if g.adapter.None? then g else Release(g, killed).(adapter := None, state := Stopped)
  }

  /** The output stream of `s` ends, its adapter then being in the terminal state `final`. */
  function Ended(g: Guard, s: SessionId, final: AgentState, killed: bool): Guard {
    var g' := g.(consumers := g.consumers - {s});
    if g.session == Some(s) then Release(g'.(state := final), killed) else g'
  }

  class Manager {
    const enabled: bool
    const power: LinuxPower
    var adapter: Option<SessionId>
    var session: Option<SessionId>
    var state: AgentState
    var consumers: set<SessionId>

    ghost function State(): Guard
      reads this, power
    {
      Guard(enabled, power.State(), adapter, session, state, consumers)
    }

    constructor (enabled: bool)
      ensures fresh(power) && State() == Guard(enabled, Power(None, false, "", {}), None, None, Idle, {})
    {
      this.enabled := enabled;
      power := new LinuxPower();
      adapter, session, state, consumers := None, None, Idle, {};
    }

    method StartSession(s: SessionId, a: Answers) returns (ok: bool)
      modifies this, power
      ensures State() == Started(old(State()), s, a)
      ensures ok <==> !Busy(old(State())) && a.known && a.launched
    {
      if (adapter.Some? && state.Active()) || !a.known {
        return false;
      }
      if enabled {
        var inhibited := power.PreventSleep(REASON, a.started);
      }
      if !a.launched {
        if enabled {
          var released := power.AllowSleep(a.killed);
        }
        return false;
      }
      adapter, session, state := Some(s), Some(s), Starting;
      consumers := consumers + {s};
      return true;
    }

    method StopSession(killed: bool)
      modifies this, power
      ensures State() == Halted(old(State()), killed)
    {
      if adapter.None? {
        return;
      }
      if enabled {
        var released := power.AllowSleep(killed);
      }
      adapter, state := None, Stopped;
    }

    method StreamEnded(s: SessionId, final: AgentState, killed: bool)
      modifies this, power
      ensures State() == Ended(old(State()), s, final, killed)
    {
      consumers := consumers - {s};
      var stillCurrent := session == Some(s);
      if stillCurrent {
        state := final;
      } else {
        return;
      }
      if enabled {
        var released := power.AllowSleep(killed);
      }
    }
  }
}
