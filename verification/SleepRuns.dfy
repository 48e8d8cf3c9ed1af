/** When sleep is inhibited, over every run of the session manager (agent/internal/session/manager.go:133-272). */
module SleepRuns {
  import opened Prelude
  import opened Protocol
  import opened SleepGuard

  // --- Start and Stop calls one after another, endings as single steps between them ---

  datatype Event =
    | Start(s: SessionId, a: Answers)
    | Stop(killed: bool)
    | End(s: SessionId, final: AgentState, killed: bool)
    | Die(pid: Pid)
    | Notice(pid: Pid)

  predicate Possible(g: Guard, e: Event) {
    match e
    case Start(s, a) =>
      && Some(s) != g.session && s !in g.consumers
      && (a.started.Some? ==> a.started.value !in g.power.alive && a.started != g.power.proc)
    case Stop(_) => true
    case End(s, final, _) => s in g.consumers && final.Terminal()
    case Die(pid) => true
    case Notice(pid) => pid !in g.power.alive
  }

  function Do(g: Guard, e: Event): Guard {
    match e
    case Start(s, a) => Started(g, s, a)
    case Stop(killed) => Halted(g, killed)
    case End(s, final, killed) => Ended(g, s, final, killed)
    case Die(pid) => g.(power := Died(g.power, pid))
    case Notice(pid) => g.(power := Noticed(g.power, pid))
  }

  /** Every kill is carried out. */
  predicate Kills(e: Event) {
    match e
    case Start(_, a) => a.killed
    case Stop(killed) => killed
    case End(_, _, killed) => killed
    case _ => true
  }

  /** Besides, systemd-inhibit is there, and stays. */
  predicate Fortunate(e: Event) {
    && Kills(e)
    && (e.Start? ==> e.a.started.Some?)
    && !e.Die?
  }

  function Initial(enabled: bool): Guard {
    Guard(enabled, Power(None, false, "", {}), None, None, Idle, {})
  }

  ghost predicate Run(gs: seq<Guard>, events: seq<Event>) {
    && |gs| == |events| + 1
    && gs[0] == Initial(gs[0].enabled)
    && forall i :: 0 <= i < |events| ==> Possible(gs[i], events[i]) && gs[i + 1] == Do(gs[i], events[i])
  }

  predicate Tracked(p: Power) {
    && p.alive <= (if p.proc.Some? then {p.proc.value} else {})
    && (p.prevented <==> p.proc.Some?)
  }

  /** Nothing is held, nor thought to be held, without an active session. */
  predicate NoLeak(g: Guard) {
    && Tracked(g.power)
    && (g.state.Active() ==> g.adapter.Some? && g.adapter == g.session)
    && (g.power.proc.Some? ==> g.enabled && g.state.Active())
  }

  predicate Held(g: Guard) {
    g.enabled && g.state.Active() ==> g.power.proc.Some? && g.power.alive == {g.power.proc.value}
  }

  lemma StepKeepsNoLeak(g: Guard, e: Event)
    requires NoLeak(g) && Possible(g, e) && Kills(e)
    ensures NoLeak(Do(g, e))
  {
  }

  lemma {:induction false} RunKeepsNoLeak(gs: seq<Guard>, events: seq<Event>, n: nat)
    requires Run(gs, events) && n < |gs| && forall i :: 0 <= i < n ==> Kills(events[i])
    ensures NoLeak(gs[n]) && gs[n].enabled == gs[0].enabled
  {
    if n > 0 {
      RunKeepsNoLeak(gs, events, n - 1);
      StepKeepsNoLeak(gs[n - 1], events[n - 1]);
    }
  }

  /** Sleep is inhibited exactly while the manager's state is active. */
  lemma {:induction false} InhibitedExactlyWhileActive(gs: seq<Guard>, events: seq<Event>, n: nat)
    requires Run(gs, events) && n < |gs| && forall i :: 0 <= i < n ==> Fortunate(events[i])
    ensures Held(gs[n])
    ensures gs[n].power.Held() <==> gs[0].enabled && gs[n].state.Active()
    ensures gs[n].power.prevented <==> gs[n].power.Held()
  {
    RunKeepsNoLeak(gs, events, n);
    if n > 0 {
      RunKeepsNoLeak(gs, events, n - 1);
      InhibitedExactlyWhileActive(gs, events, n - 1);
    }
  }

  /** With an inhibitor that may be missing or die: still never two, and none without an active session. */
  lemma NeverHeldWhileInactive(gs: seq<Guard>, events: seq<Event>, n: nat)
    requires Run(gs, events) && n < |gs| && forall i :: 0 <= i < n ==> Kills(events[i])
    ensures |gs[n].power.alive| <= 1
    ensures gs[n].power.Held() ==> gs[n].enabled && gs[n].state.Active()
  {
    RunKeepsNoLeak(gs, events, n);
    var p := gs[n].power;
    if pid :| pid in p.alive {
      assert p.alive == {pid};
    }
  }

  /** A start that fails, at any point of a run, leaves nothing held, nor thought to be held. */
  lemma FailedStartHoldsNothing(gs: seq<Guard>, events: seq<Event>, n: nat)
    requires Run(gs, events) && n < |events| && forall i :: 0 <= i <= n ==> Kills(events[i])
    requires events[n].Start? && !Busy(gs[n]) && !events[n].a.launched
    ensures !gs[n + 1].power.Held() && !gs[n + 1].power.prevented
  {
    RunKeepsNoLeak(gs, events, n);
    RunKeepsNoLeak(gs, events, n + 1);
  }

  /** The ending of a superseded session, at any point of a run, leaves the active one with its inhibition. */
  lemma SupersededEndingKeepsInhibition(gs: seq<Guard>, events: seq<Event>, n: nat)
    requires Run(gs, events) && n < |events| && forall i :: 0 <= i <= n ==> Fortunate(events[i])
    requires events[n].End? && gs[n].session != Some(events[n].s) && gs[n].state.Active()
    ensures gs[n + 1].state.Active() && gs[n + 1].session == gs[n].session
    ensures gs[n + 1].power.Held() <==> gs[0].enabled
  {
    InhibitedExactlyWhileActive(gs, events, n + 1);
  }

  // --- what each call does, field by field ---

  /**
   StartSession is refused while a session is active; a launch installs the session, over an inhibitor that is there
   already or a new one, and a failed launch lets go of whichever it was and changes nothing else.
   */
  lemma StartEffect(g: Guard, s: SessionId, a: Answers)
    requires Tracked(g.power)
    ensures var g', p, p' := Do(g, Start(s, a)), g.power, Do(g, Start(s, a)).power;
      var refused := !a.known || (g.adapter.Some? && g.state in {Starting, Running, WaitingInput});
      && (refused ==> g' == g)
      && (!refused ==> g' == (if a.launched then Guard(g.enabled, p', Some(s), Some(s), Starting, g.consumers + {s})
                              else g.(power := p')))
      && (!g.enabled ==> p' == p)
      && (!refused && g.enabled && a.launched ==>
            p' == if p.proc.Some? then Power(p.proc, true, "Beuvian is running a coding session", p.alive)
                  else if a.started.None? then p
                  else Power(a.started, true, "Beuvian is running a coding session", {a.started.value}))
      && (!refused && g.enabled && !a.launched && a.killed ==> p' == Power(None, false, "", {}))
  {
  }

  /** StopSession without an adapter does nothing; otherwise the adapter is forgotten and the inhibitor let go. */
  lemma StopEffect(g: Guard, killed: bool)
    requires Tracked(g.power)
    ensures var g', p, p' := Do(g, Stop(killed)), g.power, Do(g, Stop(killed)).power;
      && (g.adapter.None? ==> g' == g)
      && (g.adapter.Some? ==> g' == Guard(g.enabled, p', None, g.session, Stopped, g.consumers))
      && (!g.enabled ==> p' == p)
      && (g.adapter.Some? && g.enabled && killed ==> p' == Power(None, false, "", {}))
  {
  }

  /** Only the ending of the session the manager knows takes its state along and lets the inhibitor go. */
  lemma EndEffect(g: Guard, s: SessionId, final: AgentState, killed: bool)
    requires Tracked(g.power)
    ensures var g', p, p' := Do(g, End(s, final, killed)), g.power, Do(g, End(s, final, killed)).power;
      var own := g.session == Some(s);
      && g' == Guard(g.enabled, p', g.adapter, g.session, if own then final else g.state, g.consumers - {s})
      && (!own || !g.enabled ==> p' == p)
      && (own && g.enabled && killed ==> p' == Power(None, false, "", {}))
  {
  }

  /**
   An inhibitor that dies is noticed by its watcher: if it is the one tracked, nothing is tracked or thought to be
   held any more, so that the next start takes a new one; if not, nothing changes.
   */
  lemma DeathEffect(g: Guard, pid: Pid)
    ensures var died := Do(g, Die(pid));
      var p, p' := g.power, Do(died, Notice(pid)).power;
      && died == g.(power := p.(alive := died.power.alive))
      && Possible(died, Notice(pid))
      && (forall i :: i in died.power.alive <==> i in p.alive && i != pid)
      && Do(died, Notice(pid)) == g.(power := p')
      && p'.alive == died.power.alive
      && (p.proc == Some(pid) ==> p'.proc.None? && !p'.prevented && p'.reason == (if p.prevented then "" else p.reason))
      && (p.proc != Some(pid) ==> p'.proc == p.proc && p'.prevented == p.prevented && p'.reason == p.reason)
  {
  }

  /** The status shows the reason exactly while it says that sleep is prevented. */
  lemma {:induction false} ReasonIsShown(gs: seq<Guard>, events: seq<Event>, n: nat)
    requires Run(gs, events) && n < |gs|
    ensures gs[n].power.reason == if gs[n].power.prevented then "Beuvian is running a coding session" else ""
  {
    if n > 0 {
      ReasonIsShown(gs, events, n - 1);
    }
  }

  datatype Acquisition = Acquisition(reason: string, started: Option<Pid>)

  function PreventedBy(p: Power, calls: seq<Acquisition>): Power {
    if calls == [] then p
    else
      var n := |calls| - 1;
      Prevented(PreventedBy(p, calls[..n]), calls[n].reason, calls[n].started)
  }

  /** However often PreventSleep is called, and whatever comes of it, one AllowSleep leaves nothing held. */
  lemma {:induction false} OneReleaseUndoesAll(p: Power, calls: seq<Acquisition>)
    requires Tracked(p)
    ensures Tracked(PreventedBy(p, calls))
    ensures var q := Allowed(PreventedBy(p, calls), true); !q.Held() && !q.prevented
  {
    if calls != [] {
      OneReleaseUndoesAll(p, calls[..|calls| - 1]);
    }
  }

  /** A release leaves something held exactly when it was held and the kill was refused; then nobody tracks it. */
  lemma ReleaseLeaksIff(p: Power, killed: bool)
    requires Tracked(p)
    ensures Allowed(p, killed).Held() <==> p.Held() && !killed
    ensures Allowed(p, killed).Held() ==> Allowed(p, killed).proc.None? && Allowed(p, killed).prevented
  {
  }

  ghost predicate Leaked(g: Guard, pid: Pid) {
    pid in g.power.alive && g.power.proc != Some(pid)
  }

  /** An inhibition nobody tracks stays until its process dies by itself, whatever the manager does. */
  lemma {:induction false} LeakIsForever(gs: seq<Guard>, events: seq<Event>, m: nat, n: nat, pid: Pid)
    requires Run(gs, events) && m <= n < |gs| && Leaked(gs[m], pid)
    requires forall i :: m <= i < n ==> events[i] != Die(pid)
    ensures Leaked(gs[n], pid)
  {
    for i := m to n
      invariant Leaked(gs[i], pid)
    {
    }
  }

  /** And a refused kill does leak one: a session is started and stopped, and the machine stays awake. */
  lemma RefusedKillLeaks(pid: Pid) returns (gs: seq<Guard>, events: seq<Event>)
    ensures Run(gs, events) && events == [Start(1, Answers(true, Some(pid), true, true)), Stop(false)]
    ensures gs[2].state == Stopped && gs[2].adapter == None && Leaked(gs[2], pid)
  {
    events := [Start(1, Answers(true, Some(pid), true, true)), Stop(false)];
    var g1 := Do(Initial(true), events[0]);
    assert Tracked(g1.power) && g1.power.Held();
    ReleaseLeaksIff(g1.power, false);
    gs := [Initial(true), g1, Do(g1, events[1])];
  }

  // --- Start and the endings in separate steps ---
  //
  // This is about the manager as other code may call it. The agent as it is wired starts one session, once, so the
  // two losing runs at the end, which start a second one, are not among its own.

  /**
   `starting` is a StartSession between PreventSleep and its outcome; `releasing` are the endings between writing the
   manager's state and AllowSleep. Inhibition is enabled, every inhibitor starts and stays, every kill is carried out.
   */
  datatype Split = Split(g: Guard, starting: Option<SessionId>, releasing: set<SessionId>)

  datatype Step =
    | Begin(s: SessionId, pid: Pid)   // the guard, and PreventSleep
    | Install                         // the launch succeeds
    | Abort                           // the launch fails
    | Mark(s: SessionId, final: AgentState)
    | DoRelease(s: SessionId)
    | StopNow                         // Start and Stop do not overlap

  predicate Can(w: Split, x: Step) {
    match x
    case Begin(s, pid) =>
      && w.starting.None? && !Busy(w.g) && pid !in w.g.power.alive
      && Some(s) != w.g.session && s !in w.g.consumers && s !in w.releasing
    case Install => w.starting.Some?
    case Abort => w.starting.Some?
    case Mark(s, final) => s in w.g.consumers && final.Terminal()
    case DoRelease(s) => s in w.releasing
    case StopNow => w.starting.None?
  }

  function Move(w: Split, x: Step): Split
    requires Can(w, x)
  {
    match x
    case Begin(s, pid) => w.(g := w.g.(power := Prevented(w.g.power, REASON, Some(pid))), starting := Some(s))
    case Install =>
      var s := w.starting.value;
      Split(w.g.(adapter := Some(s), session := Some(s), state := Starting, consumers := w.g.consumers + {s}),
            None, w.releasing)
    case Abort => w.(g := Release(w.g, true), starting := None)
    case Mark(s, final) =>
      var rest := w.g.(consumers := w.g.consumers - {s});
      if w.g.session == Some(s) then w.(g := rest.(state := final), releasing := w.releasing + {s}) else w.(g := rest)
    case DoRelease(s) => w.(g := Release(w.g, true), releasing := w.releasing - {s})
    case StopNow => w.(g := Halted(w.g, true))
  }

  const NEW := Split(Initial(true), None, {})

  ghost predicate SplitRun(ws: seq<Split>, steps: seq<Step>) {
    && |ws| == |steps| + 1
    && ws[0] == NEW
    && forall i :: 0 <= i < |steps| ==> Can(ws[i], steps[i]) && ws[i + 1] == Move(ws[i], steps[i])
  }

  /** An ending's AllowSleep has come after the last PreventSleep. */
  predicate ReleasedSinceBegin(steps: seq<Step>) {
    steps != []
    && var last := steps[|steps| - 1];
       !last.Begin? && (last.DoRelease? || ReleasedSinceBegin(steps[..|steps| - 1]))
  }

  ghost predicate SplitInv(w: Split, released: bool) {
    && w.g.enabled
    && Tracked(w.g.power) && (w.g.power.proc.Some? ==> w.g.power.alive == {w.g.power.proc.value})
    && (w.g.state.Active() ==> w.g.adapter.Some? && w.starting.None?)
    && (w.starting.Some? || w.g.state.Active() ==> (w.g.power.Held() <==> !released))
  }

  /** An active session has its inhibition exactly when no ending has released since the session's PreventSleep. */
  lemma {:induction false} HeldIffNotReleasedSince(ws: seq<Split>, steps: seq<Step>)
    requires SplitRun(ws, steps)
    ensures SplitInv(ws[|steps|], ReleasedSinceBegin(steps))
    ensures ws[|steps|].g.state.Active() ==> (ws[|steps|].g.power.Held() <==> !ReleasedSinceBegin(steps))
  {
    if steps != [] {
      var n := |steps| - 1;
      assert SplitRun(ws[..n + 1], steps[..n]);
      HeldIffNotReleasedSince(ws[..n + 1], steps[..n]);
    }
  }

  /** No Start begins while an ending has yet to release, and none is under way when the manager's session ends. */
  ghost predicate Apart(ws: seq<Split>, steps: seq<Step>)
    requires |ws| > |steps|
  {
    forall i :: 0 <= i < |steps| ==>
      && (steps[i].Begin? ==> ws[i].releasing == {})
      && (steps[i].Mark? && ws[i].g.session == Some(steps[i].s) ==> ws[i].starting.None?)
  }

  /** Kept apart, the two never meet: an active session has its inhibition. */
  lemma {:induction false} ApartIsHeld(ws: seq<Split>, steps: seq<Step>)
    requires SplitRun(ws, steps) && Apart(ws, steps)
    ensures var w := ws[|steps|];
      && (w.starting.Some? || w.g.state.Active() ==> w.releasing == {} && !ReleasedSinceBegin(steps))
      && (w.g.state.Active() ==> w.g.power.Held())
  {
    HeldIffNotReleasedSince(ws, steps);
    if steps != [] {
      var n := |steps| - 1;
      assert SplitRun(ws[..n + 1], steps[..n]) && Apart(ws[..n + 1], steps[..n]);
      ApartIsHeld(ws[..n + 1], steps[..n]);
      HeldIffNotReleasedSince(ws[..n + 1], steps[..n]);
    }
  }

  /** Otherwise it can lose it: the old session's AllowSleep lands after the new one's PreventSleep. */
  lemma LateReleaseLosesInhibition() returns (ws: seq<Split>, steps: seq<Step>)
    ensures SplitRun(ws, steps) && ws[|steps|].g.state.Active() && !ws[|steps|].g.power.Held()
    ensures steps == [Begin(1, 1), Install, Mark(1, Stopped), Begin(2, 2), Install, DoRelease(1)]
  {
    steps := [Begin(1, 1), Install, Mark(1, Stopped), Begin(2, 2), Install, DoRelease(1)];
    var w1 := Move(NEW, steps[0]);
    var w2 := Move(w1, steps[1]);
    var w3 := Move(w2, steps[2]);
    var w4 := Move(w3, steps[3]);
    var w5 := Move(w4, steps[4]);
    ws := [NEW, w1, w2, w3, w4, w5, Move(w5, steps[5])];
  }

  /** So can a session started while the one just stopped is still ending: it is not superseded until Install. */
  lemma EndingInsideStartLosesInhibition() returns (ws: seq<Split>, steps: seq<Step>)
    ensures SplitRun(ws, steps) && ws[|steps|].g.state.Active() && !ws[|steps|].g.power.Held()
    ensures steps == [Begin(1, 1), Install, StopNow, Begin(2, 2), Mark(1, Stopped), DoRelease(1), Install]
  {
    steps := [Begin(1, 1), Install, StopNow, Begin(2, 2), Mark(1, Stopped), DoRelease(1), Install];
    var w1 := Move(NEW, steps[0]);
    var w2 := Move(w1, steps[1]);
    var w3 := Move(w2, steps[2]);
    var w4 := Move(w3, steps[3]);
    var w5 := Move(w4, steps[4]);
    var w6 := Move(w5, steps[5]);
    ws := [NEW, w1, w2, w3, w4, w5, w6, Move(w6, steps[6])];
  }

  // --- which sessions can lose it ---

  /** The session being started, or else the one the manager has. */
  function Subject(w: Split): Option<SessionId> {
    if w.starting.Some? then w.starting else w.g.session
  }

  predicate UnderWay(w: Split) {
    w.starting.Some? || w.g.state.Active()
  }

  /** A step that neither ends nor stops session `s`, nor gives up its start. */
  predicate Spares(x: Step, s: SessionId) {
    !x.Abort? && !x.StopNow? && !(x.Mark? && x.s == s)
  }

  ghost predicate Continues(ws: seq<Split>, steps: seq<Step>, w: Split, s: SessionId) {
    && |ws| == |steps| + 1 && ws[0] == w
    && forall i :: 0 <= i < |steps| ==>
         Can(ws[i], steps[i]) && Spares(steps[i], s) && ws[i + 1] == Move(ws[i], steps[i])
  }

  /** Some continuation leaves the session running, neither ended nor stopped, and without its inhibition. */
  ghost predicate MayLose(w: Split) {
    Subject(w).Some? && exists ws: seq<Split>, steps: seq<Step> ::
      && Continues(ws, steps, w, Subject(w).value)
      && ws[|steps|].g.state.Active() && ws[|steps|].g.session == Subject(w) && !ws[|steps|].g.power.Held()
  }

  /** An ending has yet to release, or the session before this one may still end while this one starts. */
  predicate Exposed(w: Split) {
    w.releasing != {} || (w.starting.Some? && w.g.session.Some? && w.g.session.value in w.g.consumers)
  }

  ghost predicate SubjectInv(w: Split) {
    && w.g.enabled && Tracked(w.g.power)
    && (w.g.state.Active() ==> w.g.adapter.Some? && w.starting.None? && w.g.session.Some?)
    && (w.starting.Some? ==> w.g.session != w.starting && w.starting.value !in w.g.consumers)
  }

  lemma MoveKeepsSubject(w: Split, x: Step)
    requires SubjectInv(w) && Can(w, x)
    ensures SubjectInv(Move(w, x))
  {
  }

  lemma {:induction false} RunKeepsSubject(ws: seq<Split>, steps: seq<Step>, n: nat)
    requires SplitRun(ws, steps) && n < |ws|
    ensures SubjectInv(ws[n])
  {
    if n > 0 {
      RunKeepsSubject(ws, steps, n - 1);
      MoveKeepsSubject(ws[n - 1], steps[n - 1]);
    }
  }

  ghost predicate Safe(w: Split, s: SessionId) {
    SubjectInv(w) && UnderWay(w) && Subject(w) == Some(s) && !Exposed(w) && w.g.power.Held()
  }

  lemma MoveKeepsSafe(w: Split, x: Step, s: SessionId)
    requires Safe(w, s) && Can(w, x) && Spares(x, s)
    ensures Safe(Move(w, x), s)
  {
  }

  lemma {:induction false} SafeStays(ws: seq<Split>, steps: seq<Step>, w: Split, s: SessionId)
    requires Continues(ws, steps, w, s) && Safe(w, s)
    ensures Safe(ws[|steps|], s)
  {
    for i := 0 to |steps|
      invariant Safe(ws[i], s)
    {
      MoveKeepsSafe(ws[i], steps[i], s);
    }
  }

  lemma Installed(w: Split, s: SessionId)
    requires w.starting == Some(s)
    ensures Can(w, Install) && Move(w, Install).g.state.Active() && Move(w, Install).g.session == Some(s)
    ensures Move(w, Install).g.power == w.g.power
  {
  }

  lemma ReleasedNow(w: Split, r: SessionId)
    requires SubjectInv(w) && r in w.releasing
    ensures var w' := Move(w, DoRelease(r));
      !w'.g.power.Held() && w'.starting == w.starting && w'.g.session == w.g.session && w'.g.state == w.g.state
  {
  }

  lemma OneMoveMore(ws: seq<Split>, steps: seq<Step>, w: Split, s: SessionId, x: Step)
    requires Continues(ws, steps, w, s) && Can(ws[|steps|], x) && Spares(x, s)
    ensures Continues(ws + [Move(ws[|steps|], x)], steps + [x], w, s)
  {
  }

  /** A pending release, come by if need be through the earlier session's ending. */
  lemma ReleasePending(w: Split, s: SessionId) returns (ws: seq<Split>, steps: seq<Step>)
    requires SubjectInv(w) && UnderWay(w) && Exposed(w) && Subject(w) == Some(s)
    ensures Continues(ws, steps, w, s)
    ensures var w' := ws[|steps|]; SubjectInv(w') && UnderWay(w') && Subject(w') == Some(s) && w'.releasing != {}
  {
    ws, steps := [w], [];
    if w.releasing == {} {
      var mark := Mark(w.g.session.value, Stopped);
      MoveKeepsSubject(w, mark);
      OneMoveMore(ws, steps, w, s, mark);
      ws, steps := ws + [Move(w, mark)], steps + [mark];
      assert w.g.session.value in Move(w, mark).releasing;
    }
  }

  lemma ExposedMayLose(w: Split)
    requires SubjectInv(w) && UnderWay(w) && Exposed(w)
    ensures MayLose(w)
  {
    var s := Subject(w).value;
    var ws, steps := ReleasePending(w, s);
    var w1 := ws[|steps|];
    var r :| r in w1.releasing;
    ReleasedNow(w1, r);
    OneMoveMore(ws, steps, w, s, DoRelease(r));
    var w2 := Move(w1, DoRelease(r));
    ws, steps := ws + [w2], steps + [DoRelease(r)];
    if w2.starting.Some? {
      Installed(w2, s);
      OneMoveMore(ws, steps, w, s, Install);
      ws, steps := ws + [Move(w2, Install)], steps + [Install];
    }
  }

  /**
   At every point of every run: a session starting or running with its inhibition may lose it without having ended or
   been stopped if and only if an ending has yet to release, or the session before it may still end during its start.
   */
  lemma MayLoseIff(ws: seq<Split>, steps: seq<Step>, n: nat)
    requires SplitRun(ws, steps) && n < |ws| && UnderWay(ws[n]) && ws[n].g.power.Held()
    ensures MayLose(ws[n]) <==> Exposed(ws[n])
  {
    var w := ws[n];
    RunKeepsSubject(ws, steps, n);
    if Exposed(w) {
      ExposedMayLose(w);
    } else {
      forall ws': seq<Split>, steps': seq<Step> | Continues(ws', steps', w, Subject(w).value)
        ensures ws'[|steps'|].g.power.Held()
      {
        SafeStays(ws', steps', w, Subject(w).value);
      }
    }
  }
}
