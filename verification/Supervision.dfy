/**
 One supervised process after Start: two stream readers, the reaper, the consumer, and any number of SendPrompt, Stop
 and MarkWaiting calls, interleaved between their critical sections (agent/internal/coding/claude.go:157-445).
 */
module Supervision {
  import opened Prelude
  import opened Protocol
  import opened Adapter

  type CallId = nat

  /** A reader between its scan and its send holds a line; `scanned` is every line it ever read. */
  datatype Reader = Reader(held: Option<Line>, finished: bool, scanned: seq<Line>)

  datatype Reaper = AwaitingStreams | Waited(ok: bool, code: int) | Recorded | Closed

  /** A SendPrompt past its check, before its write, and past its write, before its last section. */
  datatype Sender = Writing(text: string) | Written(text: string)

  datatype World = World(
    g: Guarded, stdout: Reader, stderr: Reader, reaper: Reaper, senders: map<CallId, Sender>,
    lost: bool,             // whether a full buffer ever dropped a line
    stdin: seq<string>)     // what was written to the process

  datatype Step =
    | Scan(stream: Stream, text: string)
    | Send(stream: Stream)
    | EndOfStream(stream: Stream)
    | Take
    | ProcessGone(ok: bool, code: int)       // both readers done and Wait has returned
    | Record
    | Close
    | RequestStop
    | MarkWaiting
    | Check(call: CallId, text: string)
    | Write(call: CallId, ok: bool)          // a broken or closed pipe ends the call
    | Note(call: CallId)

  function ReaderOf(w: World, s: Stream): Reader {
    if s == Stdout then w.stdout else w.stderr
  }

  function WithReader(w: World, s: Stream, r: Reader): World {
    if s == Stdout then w.(stdout := r) else w.(stderr := r)
  }

  predicate Enabled(w: World, s: Step) {
    match s
    case Scan(st, _) => !ReaderOf(w, st).finished && ReaderOf(w, st).held.None?
    case Send(st) => ReaderOf(w, st).held.Some?
    case EndOfStream(st) => !ReaderOf(w, st).finished && ReaderOf(w, st).held.None?
    case Take => w.g.taken < |w.g.accepted|
    case ProcessGone(_, _) => w.reaper.AwaitingStreams? && w.stdout.finished && w.stderr.finished
    case Record => w.reaper.Waited?
    case Close => w.reaper.Recorded?
    case RequestStop => true
    case MarkWaiting => true
    case Check(c, _) => c !in w.senders
    case Write(c, _) => c in w.senders && w.senders[c].Writing?
    case Note(c) => c in w.senders && w.senders[c].Written?
  }

  function Do(w: World, s: Step): World
    requires Enabled(w, s)
  {
    match s
    case Scan(st, text) =>
      var r := ReaderOf(w, st);
      var line := Line(st, text);
      WithReader(w, st, r.(held := Some(line), scanned := r.scanned + [line])).(g := OutputSeen(w.g))
    case Send(st) =>
      var r := ReaderOf(w, st);
      WithReader(w, st, r.(held := None)).(g := Offered(w.g, r.held.value), lost := w.lost || Full(w.g))
    case EndOfStream(st) => WithReader(w, st, ReaderOf(w, st).(finished := true))
    case Take => w.(g := Taken(w.g))
    case ProcessGone(ok, code) => w.(reaper := Waited(ok, code))
    case Record => w.(g := ExitRecorded(w.g, w.reaper.ok, w.reaper.code), reaper := Recorded)
    case Close => w.(g := OutputClosed(w.g), reaper := Closed)
    case RequestStop => w.(g := StopRequested(w.g))
    case MarkWaiting => w.(g := WaitingMarked(w.g))
    case Check(c, text) => if PromptCheck(w.g).Ok? then w.(senders := w.senders[c := Writing(text)]) else w
    case Write(c, ok) =>
      var text := w.senders[c].text;
      if ok then w.(senders := w.senders[c := Written(text)], stdin := w.stdin + [text])
      else w.(senders := w.senders - {c})
    case Note(c) => w.(g := PromptNoted(w.g, w.senders[c].text), senders := w.senders - {c})
  }

  const NEW_READER := Reader(None, false, [])
  const AFTER_START := World(Started(), NEW_READER, NEW_READER, AwaitingStreams, map[], false, [])

  ghost predicate Run(ws: seq<World>, steps: seq<Step>) {
    && |ws| == |steps| + 1 && ws[0] == AFTER_START
    && forall i :: 0 <= i < |steps| ==> Enabled(ws[i], steps[i]) && ws[i + 1] == Do(ws[i], steps[i])
  }

  function OfStream(lines: seq<Line>, s: Stream): seq<Line> {
    if lines == [] then []
    else
      var rest := OfStream(lines[..|lines| - 1], s);
      if lines[|lines| - 1].stream == s then rest + [lines[|lines| - 1]] else rest
  }

  ghost predicate ReaderInv(w: World, s: Stream) {
    var r := ReaderOf(w, s);
    && (r.finished ==> r.held.None?)
    && (r.held.Some? ==> r.held.value.stream == s)
    && (!w.lost ==> r.scanned == OfStream(w.g.accepted, s) + (if r.held.Some? then [r.held.value] else []))
  }

  ghost predicate ControlInv(w: World) {
    && (w.g.exited <==> w.g.state.Terminal()) && (w.g.failed ==> w.g.exited)
    && w.g.state != Idle
    && (w.g.exited <==> w.reaper.Recorded? || w.reaper.Closed?)
    && (w.g.closed <==> w.reaper.Closed?)
    && (!w.reaper.AwaitingStreams? ==> w.stdout.finished && w.stderr.finished)
    && (w.stdout.finished ==> w.stdout.held.None?) && (w.stderr.finished ==> w.stderr.held.None?)
    && (w.g.state == Starting ==> w.senders == map[] && w.stdin == [])
  }

  ghost predicate Inv(w: World) {
    ControlInv(w) && ReaderInv(w, Stdout) && ReaderInv(w, Stderr)
  }

  lemma StepKeepsControl(w: World, s: Step)
    requires ControlInv(w) && Enabled(w, s)
    ensures ControlInv(Do(w, s))
  {
  }

  lemma StepKeepsReader(w: World, s: Step, st: Stream)
    requires ReaderInv(w, st) && Enabled(w, s)
    requires s.Send? && ReaderOf(w, s.stream).held.Some? ==> ReaderOf(w, s.stream).held.value.stream == s.stream
    ensures ReaderInv(Do(w, s), st)
  {
    if s.Send? {
      var line := ReaderOf(w, s.stream).held.value;
      assert (w.g.accepted + [line])[..|w.g.accepted|] == w.g.accepted;
    }
  }

  lemma {:induction false} InvAt(ws: seq<World>, steps: seq<Step>, i: nat)
    requires Run(ws, steps) && i < |ws|
    ensures Inv(ws[i])
  {
    if i > 0 {
      InvAt(ws, steps, i - 1);
      var w, s := ws[i - 1], steps[i - 1];
      StepKeepsControl(w, s);
      assert ReaderInv(w, Stdout) && ReaderInv(w, Stderr);
      StepKeepsReader(w, s, Stdout);
      StepKeepsReader(w, s, Stderr);
    }
  }

  lemma StepTakesEdges(w: World, s: Step)
    requires ControlInv(w) && Enabled(w, s)
    ensures var before, after := w.g.state, Do(w, s).g.state;
      before != after && !before.CanTransitionTo(after) <==> s.RequestStop? && before == Starting
    ensures w.g.state.Terminal() ==>
      Do(w, s).g.state == w.g.state && Do(w, s).g.exitCode == w.g.exitCode && Do(w, s).g.failed == w.g.failed
    ensures s.Send? || s.Close? ==> !w.g.closed
    ensures w.g.closed ==> Do(w, s).g.closed && Do(w, s).g.accepted == w.g.accepted
  {
  }

  /**
   In every run each step leaves the state alone or takes an edge of the transition table, with one exception, and it
   is always the same: a Stop that arrives while the process is still starting.
   */
  lemma OnlyStopWhileStartingIsOffTable(ws: seq<World>, steps: seq<Step>, i: nat)
    requires Run(ws, steps) && i < |steps|
    ensures var before, after := ws[i].g.state, ws[i + 1].g.state;
      before != after && !before.CanTransitionTo(after) <==> steps[i].RequestStop? && before == Starting
  {
    InvAt(ws, steps, i);
    StepTakesEdges(ws[i], steps[i]);
  }

  /** `exited` holds exactly in the terminal states, and a terminal state, its exit code and its error are final. */
  lemma {:induction false} TerminalIsFinal(ws: seq<World>, steps: seq<Step>, i: nat, j: nat)
    requires Run(ws, steps) && i <= j < |ws|
    ensures ws[i].g.exited <==> ws[i].g.state.Terminal()
    ensures ws[i].g.state.Terminal() ==>
      ws[j].g.state == ws[i].g.state && ws[j].g.exitCode == ws[i].g.exitCode && ws[j].g.failed == ws[i].g.failed
    decreases j
  {
    InvAt(ws, steps, i);
    if i < j {
      TerminalIsFinal(ws, steps, i, j - 1);
      InvAt(ws, steps, j - 1);
      StepTakesEdges(ws[j - 1], steps[j - 1]);
    }
  }

  /** No line is ever sent on a closed channel and the channel is closed at most once. */
  lemma SendNeverPanics(ws: seq<World>, steps: seq<Step>, i: nat)
    requires Run(ws, steps) && i < |steps|
    ensures steps[i].Send? || steps[i].Close? ==> !ws[i].g.closed
  {
    InvAt(ws, steps, i);
    StepTakesEdges(ws[i], steps[i]);
  }

  lemma ClosedStays(ws: seq<World>, steps: seq<Step>, i: nat)
    requires Run(ws, steps) && i < |steps| && ws[i].g.closed
    ensures ws[i + 1].g.closed && ws[i + 1].g.accepted == ws[i].g.accepted
  {
    InvAt(ws, steps, i);
    StepTakesEdges(ws[i], steps[i]);
  }

  /** After the close nothing is added: every accepted line precedes it. */
  lemma {:induction false} AcceptedPrecedesClose(ws: seq<World>, steps: seq<Step>, i: nat, j: nat)
    requires Run(ws, steps) && i <= j < |ws| && ws[i].g.closed
    ensures ws[j].g.closed && ws[j].g.accepted == ws[i].g.accepted
  {
    for n := i to j
      invariant ws[n].g.closed && ws[n].g.accepted == ws[i].g.accepted
    {
      ClosedStays(ws, steps, n);
    }
  }

  /** When the channel closes without a drop, it has carried each stream's lines, all of them, in order. */
  lemma NothingLostWithoutDrop(ws: seq<World>, steps: seq<Step>, i: nat, s: Stream)
    requires Run(ws, steps) && i < |ws| && ws[i].g.closed && !ws[i].lost
    ensures OfStream(ws[i].g.accepted, s) == ReaderOf(ws[i], s).scanned && ws[i].g.exited
  {
    InvAt(ws, steps, i);
    assert ReaderInv(ws[i], s);
  }

  /** Nothing is written to a process that is still starting, in whichever order calls and output fall. */
  lemma NothingWrittenWhileStarting(ws: seq<World>, steps: seq<Step>, i: nat)
    requires Run(ws, steps) && i < |ws| && ws[i].g.state == Starting
    ensures ws[i].stdin == [] && ws[i].senders == map[]
  {
    InvAt(ws, steps, i);
  }

  /** And that step is taken: a stop right after the start. */
  lemma StopWhileStartingHappens()
    ensures var w := Do(AFTER_START, RequestStop);
      && Run([AFTER_START, w], [RequestStop]) && AFTER_START.g.state == Starting && w.g.state == Stopping
      && !AFTER_START.g.state.CanTransitionTo(w.g.state)
  {
  }

  // --- the state, read off the history ---

  /**
   The state changes on exactly these steps: a line read while starting or waiting, a written prompt noted while
   waiting, an idle period while running, a stop before the exit, and the exit itself.
   */
  lemma StateChangesIff(ws: seq<World>, steps: seq<Step>, n: nat)
    requires Run(ws, steps) && n < |steps|
    ensures var s, before, after := steps[n], ws[n].g.state, ws[n + 1].g.state;
      var resumes := (s.Scan? && (before == Starting || before == WaitingInput)) || (s.Note? && before == WaitingInput);
      var idles := s.MarkWaiting? && before == Running;
      var stops := s.RequestStop? && (before == Starting || before == Running || before == WaitingInput);
      && (resumes ==> after == Running) && (idles ==> after == WaitingInput) && (stops ==> after == Stopping)
      && (s.Record? ==> after == Stopped || after == Crashed)
      && (before != after <==> resumes || idles || stops || s.Record?)
  {
    InvAt(ws, steps, n);
  }

  /** Until its first line, a stop or its exit the process is starting, and never after one of them. */
  lemma {:induction false} StartingIff(ws: seq<World>, steps: seq<Step>, n: nat)
    requires Run(ws, steps) && n < |ws|
    ensures ws[n].g.state == Starting
       <==> forall i :: 0 <= i < n ==> !steps[i].Scan? && !steps[i].RequestStop? && !steps[i].Record?
  {
    if n > 0 {
      StartingIff(ws, steps, n - 1);
      InvAt(ws, steps, n - 1);
      StateChangesIff(ws, steps, n - 1);
    }
  }

  /** While the process has not exited, it is stopping exactly if a stop was asked for at some time before. */
  lemma {:induction false} StoppingIff(ws: seq<World>, steps: seq<Step>, n: nat)
    requires Run(ws, steps) && n < |ws| && !ws[n].g.exited
    ensures ws[n].g.state == Stopping <==> exists i :: 0 <= i < n && steps[i].RequestStop?
  {
    if n > 0 {
      InvAt(ws, steps, n - 1);
      InvAt(ws, steps, n);
      StepTakesEdges(ws[n - 1], steps[n - 1]);
      StoppingIff(ws, steps, n - 1);
      StateChangesIff(ws, steps, n - 1);
    }
  }

  lemma ExitedByRecord(w: World, s: Step)
    requires Enabled(w, s)
    ensures Do(w, s).g.exited <==> w.g.exited || s.Record?
  {
  }

  lemma {:induction false} ExitedIff(ws: seq<World>, steps: seq<Step>, n: nat)
    requires Run(ws, steps) && n < |ws|
    ensures ws[n].g.exited <==> exists i :: 0 <= i < n && steps[i].Record?
  {
    if n > 0 {
      ExitedIff(ws, steps, n - 1);
      ExitedByRecord(ws[n - 1], steps[n - 1]);
    }
  }

  lemma {:induction false} WaitedFor(ws: seq<World>, steps: seq<Step>, m: nat, n: nat)
    requires Run(ws, steps) && m < n < |ws| && steps[m].ProcessGone?
    ensures !ws[n].reaper.AwaitingStreams?
    ensures ws[n].reaper.Waited? ==> ws[n].reaper == Waited(steps[m].ok, steps[m].code)
  {
    if m + 1 < n {
      WaitedFor(ws, steps, m, n - 1);
    }
  }

  lemma {:induction false} NotYetWaited(ws: seq<World>, steps: seq<Step>, n: nat)
    requires Run(ws, steps) && n < |ws| && forall i :: 0 <= i < n ==> !steps[i].ProcessGone?
    ensures ws[n].reaper.AwaitingStreams?
  {
    if n > 0 {
      NotYetWaited(ws, steps, n - 1);
    }
  }

  /**
   How a process ends: the exit it is recorded with is the one Wait returned, and it counts as stopped exactly if a
   stop had been asked for before it was recorded or Wait returned no error and code 0; at every later point too.
   */
  lemma ExitIsRecorded(ws: seq<World>, steps: seq<Step>, m: nat, n: nat, k: nat)
    requires Run(ws, steps) && m < |steps| && n < k < |ws| && steps[m].ProcessGone? && steps[n].Record?
    ensures m < n
    ensures ws[k].g.exited && ws[k].g.exitCode == steps[m].code
    ensures ws[k].g.state == Stopped || ws[k].g.state == Crashed
    ensures ws[k].g.state == Stopped
       <==> (exists i :: 0 <= i < n && steps[i].RequestStop?) || (steps[m].ok && steps[m].code == 0)
    ensures ws[k].g.failed <==> ws[k].g.state == Crashed && !steps[m].ok
  {
    InvAt(ws, steps, n);
    if n <= m {
      RecordedStays(ws, steps, n, m);
      assert false;
    }
    WaitedFor(ws, steps, m, n);
    StoppingIff(ws, steps, n);
    TerminalIsFinal(ws, steps, n + 1, k);
    InvAt(ws, steps, k);
  }

  lemma {:induction false} RecordedStays(ws: seq<World>, steps: seq<Step>, n: nat, k: nat)
    requires Run(ws, steps) && n <= k < |ws| && n < |steps| && steps[n].Record?
    ensures !ws[k].reaper.AwaitingStreams?
  {
    if n < k {
      RecordedStays(ws, steps, n, k - 1);
    }
  }

  /** A prompt gets past its check exactly if a line was read or a stop asked for before, and the exit not recorded. */
  lemma PromptPassesIff(ws: seq<World>, steps: seq<Step>, n: nat)
    requires Run(ws, steps) && n < |steps| && steps[n].Check?
    ensures steps[n].call in ws[n + 1].senders
       <==> && (exists i :: 0 <= i < n && (steps[i].Scan? || steps[i].RequestStop?))
            && (forall i :: 0 <= i < n ==> !steps[i].Record?)
    ensures steps[n].call in ws[n + 1].senders ==> ws[n + 1].senders[steps[n].call] == Writing(steps[n].text)
  {
    InvAt(ws, steps, n);
    StartingIff(ws, steps, n);
    ExitedIff(ws, steps, n);
  }

  /** A line goes onto the channel unless 4096 lines wait there; otherwise it is dropped, and that is remembered. */
  lemma AcceptedUnlessFull(ws: seq<World>, steps: seq<Step>, n: nat)
    requires Run(ws, steps) && n < |steps| && steps[n].Send?
    ensures var w, w', r := ws[n], ws[n + 1], ReaderOf(ws[n], steps[n].stream);
      var waiting := |w.g.accepted| - w.g.taken;
      && w'.g == w.g.(accepted := if waiting < 4096 then w.g.accepted + [r.held.value] else w.g.accepted)
      && (w'.lost <==> w.lost || 4096 <= waiting)
      && w'.stdin == w.stdin && w'.senders == w.senders && w'.reaper == w.reaper
  {
  }

  /** From the start: one line read from either stream, and a prompt reaches the process. */
  lemma FirstLineOpensStdin(st: Stream, line: string, c: CallId, text: string)
    returns (ws: seq<World>, steps: seq<Step>)
    ensures Run(ws, steps) && steps == [Scan(st, line), Check(c, text), Write(c, true)]
    ensures ws[3].stdin == [text] && ws[3].g.state == Running
  {
    steps := [Scan(st, line), Check(c, text), Write(c, true)];
    var w1 := Do(AFTER_START, steps[0]);
    var w2 := Do(w1, steps[1]);
    ws := [AFTER_START, w1, w2, Do(w2, steps[2])];
  }

  /** Once it runs it may idle at any time, and is then waiting. */
  lemma IdleWaits(st: Stream, line: string) returns (ws: seq<World>, steps: seq<Step>)
    ensures Run(ws, steps) && steps == [Scan(st, line), MarkWaiting]
    ensures ws[1].g.state == Running && ws[2].g.state == WaitingInput && ws[2].senders == map[]
  {
    steps := [Scan(st, line), MarkWaiting];
    var w1 := Do(AFTER_START, steps[0]);
    ws := [AFTER_START, w1, Do(w1, steps[1])];
  }

  /** A waiting process runs again with the next prompt that is written and noted, and has it for its task. */
  lemma PromptEndsWaiting(w: World, c: CallId, text: string) returns (ws: seq<World>, steps: seq<Step>)
    requires ControlInv(w) && w.g.state == WaitingInput && c !in w.senders
    ensures Path(ws, steps) && ws[0] == w && steps == [Check(c, text), Write(c, true), Note(c)]
    ensures ws[2].g.state == WaitingInput && ws[3].g.state == Running
    ensures ws[3].stdin == w.stdin + [text] && ws[3].g.task == text
  {
    steps := [Check(c, text), Write(c, true), Note(c)];
    var w1 := Do(w, steps[0]);
    var w2 := Do(w1, steps[1]);
    ws := [w, w1, w2, Do(w2, steps[2])];
  }

  // --- what goes in and what comes out ---

  /** How many of the first `n` steps took a line off the channel. */
  function Takes(steps: seq<Step>, n: nat): nat
    requires n <= |steps|
  {
    if n == 0 then 0 else Takes(steps, n - 1) + if steps[n - 1].Take? then 1 else 0
  }

  lemma TakenOneMore(w: World, s: Step)
    requires Enabled(w, s) && w.g.taken <= |w.g.accepted|
    ensures Do(w, s).g.taken == w.g.taken + if s.Take? then 1 else 0
    ensures |w.g.accepted| <= |Do(w, s).g.accepted| && Do(w, s).g.accepted[..|w.g.accepted|] == w.g.accepted
    ensures Do(w, s).g.taken <= |Do(w, s).g.accepted|
  {
  }

  /** The consumer gets a line at each turn it takes, never more than there are; what it got before stays as it was. */
  lemma {:induction false} TakenInOrder(ws: seq<World>, steps: seq<Step>, i: nat, n: nat)
    requires Run(ws, steps) && i <= n < |ws|
    ensures ws[n].g.taken == Takes(steps, n) <= |ws[n].g.accepted|
    ensures ws[i].g.taken <= ws[n].g.taken && |ws[i].g.accepted| <= |ws[n].g.accepted|
    ensures ws[n].g.accepted[..|ws[i].g.accepted|] == ws[i].g.accepted
  {
    if n > 0 {
      TakenInOrder(ws, steps, if i < n then i else n - 1, n - 1);
      TakenOneMore(ws[n - 1], steps[n - 1]);
      if i < n {
        var had, has, k := ws[n - 1].g.accepted, ws[n].g.accepted, |ws[i].g.accepted|;
        assert has[..k] == has[..|had|][..k] == had[..k];
      }
    }
  }

  /** The texts the first `n` steps wrote, in the order of the writes that went through. */
  ghost function TextsWritten(ws: seq<World>, steps: seq<Step>, n: nat): seq<string>
    requires Run(ws, steps) && n <= |steps|
  {
    if n == 0 then []
    else
      var s := steps[n - 1];
      TextsWritten(ws, steps, n - 1) + if s.Write? && s.ok then [ws[n - 1].senders[s.call].text] else []
  }

  /** A call that is under way with a text has checked with that text, and has not ended since. */
  ghost predicate CheckedWith(steps: seq<Step>, n: nat, c: CallId, text: string)
    requires n <= |steps|
  {
    exists i :: 0 <= i < n && steps[i] == Check(c, text)
      && forall k :: i < k < n ==> steps[k] != Note(c) && steps[k] != Write(c, false)
  }

  lemma CheckedStays(steps: seq<Step>, n: nat, c: CallId, text: string)
    requires n < |steps| && CheckedWith(steps, n, c, text) && steps[n] != Note(c) && steps[n] != Write(c, false)
    ensures CheckedWith(steps, n + 1, c, text)
  {
    var i :| 0 <= i < n && steps[i] == Check(c, text)
      && forall k :: i < k < n ==> steps[k] != Note(c) && steps[k] != Write(c, false);
    assert steps[i] == Check(c, text);
  }

  lemma SenderStep(w: World, s: Step, c: CallId)
    requires Enabled(w, s) && c in Do(w, s).senders
    ensures s == Check(c, Do(w, s).senders[c].text)
         || (c in w.senders && w.senders[c].text == Do(w, s).senders[c].text && s != Note(c) && s != Write(c, false))
    ensures Do(w, s).senders[c].Written? ==> s == Write(c, true) || (c in w.senders && w.senders[c].Written?)
  {
  }

  lemma StdinStep(w: World, s: Step)
    requires Enabled(w, s)
    ensures Do(w, s).stdin == w.stdin + if s.Write? && s.ok then [w.senders[s.call].text] else []
  {
  }

  /** What reached the process is what the successful writes wrote, each the text its call had checked with. */
  lemma {:induction false} StdinIsWhatWasWritten(ws: seq<World>, steps: seq<Step>, n: nat, c: CallId)
    requires Run(ws, steps) && n < |ws|
    ensures ws[n].stdin == TextsWritten(ws, steps, n)
    ensures c in ws[n].senders ==> CheckedWith(steps, n, c, ws[n].senders[c].text)
  {
    if n > 0 {
      StdinIsWhatWasWritten(ws, steps, n - 1, c);
      var w, s := ws[n - 1], steps[n - 1];
      StdinStep(w, s);
      if c in ws[n].senders {
        SenderStep(w, s, c);
        if s != Check(c, ws[n].senders[c].text) {
          CheckedStays(steps, n - 1, c, ws[n].senders[c].text);
        }
      }
    }
  }

  /** The task shown is that of the prompt noted last; a call that is noted or whose write fails is over. */
  lemma CallsEnd(ws: seq<World>, steps: seq<Step>, n: nat)
    requires Run(ws, steps) && n < |steps|
    ensures var s, w, w' := steps[n], ws[n], ws[n + 1];
      && (s.Note? ==> w'.g.task == w.senders[s.call].text && s.call !in w'.senders)
      && (!s.Note? ==> w'.g.task == w.g.task)
      && (s.Write? ==> (s.call in w'.senders <==> s.ok))
      && (s.Write? && s.ok ==> w'.senders[s.call] == Written(w.senders[s.call].text))
      && forall c :: (!s.Check? && !s.Write? && !s.Note?) || c != s.call ==>
           (c in w'.senders <==> c in w.senders) && (c in w.senders ==> w'.senders[c] == w.senders[c])
  {
  }

  // --- a process can always be wound down ---

  ghost predicate Path(ws: seq<World>, steps: seq<Step>) {
    && |ws| == |steps| + 1
    && forall i :: 0 <= i < |steps| ==> Enabled(ws[i], steps[i]) && ws[i + 1] == Do(ws[i], steps[i])
  }

  lemma OneStepMore(ws: seq<World>, steps: seq<Step>, s: Step) returns (ws': seq<World>, steps': seq<Step>)
    requires Path(ws, steps) && Enabled(ws[|steps|], s)
    ensures Path(ws', steps') && ws' == ws + [Do(ws[|steps|], s)] && steps' == steps + [s]
  {
    ws', steps' := ws + [Do(ws[|steps|], s)], steps + [s];
  }

  ghost predicate DrainStep(s: Step) {
    s.Send? || s.EndOfStream? || s.ProcessGone? || s.Record? || s.Close? || s.Take?
  }

  /** One more step of winding down, from wherever it has got to. */
  function NextDrain(w: World): Step {
    if w.stdout.held.Some? then Send(Stdout)
    else if w.stderr.held.Some? then Send(Stderr)
    else if !w.stdout.finished then EndOfStream(Stdout)
    else if !w.stderr.finished then EndOfStream(Stderr)
    else if w.reaper.AwaitingStreams? then ProcessGone(true, 0)
    else if w.reaper.Waited? then Record
    else if w.reaper.Recorded? then Close
    else Take
  }

  function Remaining(w: World): nat {
    var awaits := match w.reaper case AwaitingStreams => 3 case Waited(_, _) => 2 case Recorded => 1 case Closed => 0;
    (if w.stdout.held.Some? then 2 else 0) + (if w.stderr.held.Some? then 2 else 0)
    + (if w.stdout.finished then 0 else 1) + (if w.stderr.finished then 0 else 1) + awaits
    + (if w.g.taken < |w.g.accepted| then |w.g.accepted| - w.g.taken else 0)
  }

  ghost predicate WoundDown(w: World) {
    w.stdout.finished && w.stderr.finished && w.g.exited && w.g.closed && w.g.taken == |w.g.accepted|
  }

  lemma DrainAdvances(w: World)
    requires ControlInv(w) && w.g.taken <= |w.g.accepted| && !WoundDown(w)
    ensures Enabled(w, NextDrain(w)) && Remaining(Do(w, NextDrain(w))) < Remaining(w)
  {
  }

  lemma WindDown(w: World) returns (ws: seq<World>, steps: seq<Step>)
    requires ControlInv(w) && w.g.taken <= |w.g.accepted|
    ensures Path(ws, steps) && ws[0] == w && WoundDown(ws[|steps|])
    ensures forall i :: 0 <= i < |steps| ==> DrainStep(steps[i])
  {
    ws, steps := [w], [];
    while !WoundDown(ws[|steps|])
      invariant Path(ws, steps) && ws[0] == w && forall i :: 0 <= i < |steps| ==> DrainStep(steps[i])
      invariant ControlInv(ws[|steps|]) && ws[|steps|].g.taken <= |ws[|steps|].g.accepted|
      decreases Remaining(ws[|steps|])
    {
      var last := ws[|steps|];
      DrainAdvances(last);
      StepKeepsControl(last, NextDrain(last));
      TakenOneMore(last, NextDrain(last));
      ws, steps := OneStepMore(ws, steps, NextDrain(last));
    }
  }

  /**
   Nothing gets stuck: from any point of any run, the steps of the readers, the reaper and the consumer alone lead to
   the exit recorded, the channel closed and every line the channel took handed to the consumer.
   */
  lemma CanWindDown(ws: seq<World>, steps: seq<Step>, n: nat) returns (ws': seq<World>, steps': seq<Step>)
    requires Run(ws, steps) && n < |ws|
    ensures Path(ws', steps') && ws'[0] == ws[n] && WoundDown(ws'[|steps'|])
    ensures forall i :: 0 <= i < |steps'| ==> DrainStep(steps'[i])
  {
    InvAt(ws, steps, n);
    TakenInOrder(ws, steps, n, n);
    ws', steps' := WindDown(ws[n]);
  }
}
