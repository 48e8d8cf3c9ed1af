/** Batching the coding agent's output into LOG frames (agent/internal/session/manager.go:275-371). */
module LogBatch {
  import opened Prelude
  import opened Adapter

  datatype OutputLine = OutputLine(stream: Stream, text: string, at: int)

  datatype Batch = Batch(session: string, stream: Stream, lines: seq<string>, at: int, truncated: bool)

  /** The buffer between flushes, and the batches handed to the socket so far. */
  datatype Log = Log(buf: seq<string>, stream: Stream, firstAt: int, truncated: bool, sent: seq<Batch>)

  const MARK := "... [truncated]"

  function Cut(text: string, max: nat): string {
    if |text| > max then text[..max] + MARK else text
  }

  function Flushed(l: Log, session: string): Log {
    if l.buf == [] then l
    else
      var empty := l.(buf := [], truncated := false);
      if session == "" then empty
      else empty.(sent := l.sent + [Batch(session, l.stream, l.buf, l.firstAt, l.truncated)])
  }

  /** The buffer just before a line joins it: empty, or of the line's own stream. */
  function Readied(l: Log, line: OutputLine, session: string, max: nat): Log {
    var l1 := if |line.text| > max then l.(truncated := true) else l;
    var l2 := if l1.buf == [] then l1.(firstAt := line.at, stream := line.stream) else l1;
    if line.stream != l2.stream then Flushed(l2, session).(firstAt := line.at, stream := line.stream) else l2
  }

  function Appended(l: Log, line: OutputLine, session: string, max: nat, size: nat): Log {
    var ready := Readied(l, line, session, max);
    var joined := ready.(buf := ready.buf + [Cut(line.text, max)]);
    if |joined.buf| >= size then Flushed(joined, session) else joined
  }

  class LogBuffer {
    const maxLineBytes: nat
    const batchSize: nat
    var session: string
    var buf: seq<string>
    var stream: Stream
    var firstAt: int
    var truncated: bool
    var sent: seq<Batch>

    ghost function State(): Log
      reads this
    {
      Log(buf, stream, firstAt, truncated, sent)
    }

    constructor (maxLineBytes: nat, batchSize: nat)
      ensures this.maxLineBytes == maxLineBytes && this.batchSize == batchSize
      ensures session == "" && buf == [] && !truncated && sent == []
    {
      this.maxLineBytes, this.batchSize := maxLineBytes, batchSize;
      session, buf, stream, firstAt, truncated, sent := "", [], Stdout, 0, false, [];
    }

    /** What StartSession does to the fields here: whatever is buffered stays. */
    method SetSession(id: string)
      modifies this`session
      ensures session == id && State() == old(State())
    {
      session := id;
    }

    method AppendLog(line: OutputLine)
      modifies this
      ensures session == old(session)
      ensures State() == Appended(old(State()), line, session, maxLineBytes, batchSize)
    {
      var text := line.text;
      if |text| > maxLineBytes {
        text := text[..maxLineBytes] + MARK;
        truncated := true;
      }
      if |buf| == 0 {
        firstAt := line.at;
        stream := line.stream;
      }
      if line.stream != stream {
        FlushLocked();
        firstAt := line.at;
        stream := line.stream;
      }
      buf := buf + [text];
      if |buf| >= batchSize {
        FlushLocked();
      }
    }

    method FlushLocked()
      modifies this
      ensures session == old(session)
      ensures State() == Flushed(old(State()), session)
    {
      if |buf| == 0 {
        return;
      }
      if session == "" {
        buf, truncated := [], false;
        return;
      }
      var lines := buf;
      var cut := truncated;
      buf, truncated := [], false;
      sent := sent + [Batch(session, stream, lines, firstAt, cut)];
    }
  }

  // --- the transcript ---

  /** `from` is the session whose consumer hands the line over; a superseded one goes on draining its channel. */
  datatype Event = Output(from: string, line: OutputLine) | Tick | NewSession(id: string)

  /** The session id after the events; a flush sends under the one it finds. */
  function Current(first: string, events: seq<Event>): string {
    if events == [] then first
    else
      var n := |events| - 1;
      if events[n].NewSession? then events[n].id else Current(first, events[..n])
  }

  function After(l: Log, events: seq<Event>, first: string, max: nat, size: nat): Log {
    if events == [] then l
    else
      var n := |events| - 1;
      var before, session := After(l, events[..n], first, max, size), Current(first, events[..n]);
      Took(before, events[n], session, max, size)
  }

  function Took(l: Log, e: Event, session: string, max: nat, size: nat): Log {
    match e
    case Output(_, line) => Appended(l, line, session, max, size)
    case Tick => Flushed(l, session)
    case NewSession(_) => l
  }

  function Inputs(events: seq<Event>): seq<OutputLine> {
    if events == [] then []
    else
      var n := |events| - 1;
      match events[n]
      case Output(_, line) => Inputs(events[..n]) + [line]
      case _ => Inputs(events[..n])
  }

  /** For each input line the session it is a line of. */
  function Owners(events: seq<Event>): (r: seq<string>)
    ensures |r| == |Inputs(events)|
  {
    if events == [] then []
    else
      var n := |events| - 1;
      match events[n]
      case Output(from, _) => Owners(events[..n]) + [from]
      case _ => Owners(events[..n])
  }

  /** A line as the transcript carries it: its stream and its possibly cut text. */
  datatype Shown = Shown(stream: Stream, text: string)

  function Tagged(stream: Stream, lines: seq<string>): (r: seq<Shown>)
    ensures |r| == |lines|
  {
    seq(|lines|, i requires 0 <= i < |lines| => Shown(stream, lines[i]))
  }

  function Transcript(sent: seq<Batch>): seq<Shown> {
    if sent == [] then []
    else
      var n := |sent| - 1;
      Transcript(sent[..n]) + Tagged(sent[n].stream, sent[n].lines)
  }

  function Expected(ins: seq<OutputLine>, max: nat): (r: seq<Shown>)
    ensures |r| == |ins|
  {
    seq(|ins|, i requires 0 <= i < |ins| => Shown(ins[i].stream, Cut(ins[i].text, max)))
  }

  ghost predicate BatchOk(b: Batch, size: nat) {
    0 < |b.lines| <= size && b.session != ""
  }

  /** The batch's time stamp is that of its first line. */
  ghost predicate Stamped(sent: seq<Batch>, i: nat, ins: seq<OutputLine>)
    requires i < |sent|
  {
    |Transcript(sent[..i])| < |ins| && sent[i].at == ins[|Transcript(sent[..i])|].at
  }

  ghost predicate Inv(l: Log, ins: seq<OutputLine>, max: nat, size: nat) {
    && Transcript(l.sent) + Tagged(l.stream, l.buf) == Expected(ins, max)
    && |l.buf| < size
    && (l.buf != [] ==> l.firstAt == ins[|Transcript(l.sent)|].at)
    && forall i :: 0 <= i < |l.sent| ==> BatchOk(l.sent[i], size) && Stamped(l.sent, i, ins)
  }

  /** A flush moves the buffer into the transcript and changes nothing in it. */
  lemma FlushKeeps(l: Log, ins: seq<OutputLine>, session: string, max: nat, size: nat)
    requires Transcript(l.sent) + Tagged(l.stream, l.buf) == Expected(ins, max)
    requires |l.buf| <= size && 0 < size && session != ""
    requires l.buf != [] ==> l.firstAt == ins[|Transcript(l.sent)|].at
    requires forall i :: 0 <= i < |l.sent| ==> BatchOk(l.sent[i], size) && Stamped(l.sent, i, ins)
    ensures Inv(Flushed(l, session), ins, max, size) && Flushed(l, session).buf == []
  {
    var l' := Flushed(l, session);
    if l.buf != [] {
      var n := |l.sent|;
      assert l'.sent[..n] == l.sent;
      forall i | 0 <= i < |l'.sent| ensures BatchOk(l'.sent[i], size) && Stamped(l'.sent, i, ins) {
        if i < n {
          assert l'.sent[..i] == l.sent[..i];
        }
      }
    }
  }

  lemma ReadiedKeeps(l: Log, ins: seq<OutputLine>, line: OutputLine, session: string, max: nat, size: nat)
    requires Inv(l, ins, max, size) && session != ""
    ensures var l3 := Readied(l, line, session, max);
      Inv(l3, ins, max, size) && l3.stream == line.stream && (l3.buf == [] ==> l3.firstAt == line.at)
  {
    var l1 := if |line.text| > max then l.(truncated := true) else l;
    if l.buf == [] {
      assert Tagged(line.stream, []) == Tagged(l.stream, []);
    } else if line.stream != l.stream {
      FlushKeeps(l1, ins, session, max, size);
      var f := Flushed(l1, session);
      assert Tagged(line.stream, f.buf) == Tagged(f.stream, f.buf);
    }
  }

  lemma JoinKeeps(l: Log, ins: seq<OutputLine>, line: OutputLine, session: string, max: nat, size: nat)
    requires Inv(l, ins, max, size) && l.stream == line.stream && (l.buf == [] ==> l.firstAt == line.at)
    ensures var l4, ins' := l.(buf := l.buf + [Cut(line.text, max)]), ins + [line];
      && Transcript(l4.sent) + Tagged(l4.stream, l4.buf) == Expected(ins', max)
      && l4.firstAt == ins'[|Transcript(l4.sent)|].at
      && forall i :: 0 <= i < |l4.sent| ==> BatchOk(l4.sent[i], size) && Stamped(l4.sent, i, ins')
  {
    var shown := Shown(line.stream, Cut(line.text, max));
    assert Tagged(l.stream, l.buf + [Cut(line.text, max)]) == Tagged(l.stream, l.buf) + [shown];
    assert Expected(ins + [line], max) == Expected(ins, max) + [shown];
    assert |Transcript(l.sent)| + |l.buf| == |Expected(ins, max)|;
  }

  lemma AppendKeeps(l: Log, ins: seq<OutputLine>, line: OutputLine, session: string, max: nat, size: nat)
    requires Inv(l, ins, max, size) && session != ""
    ensures Inv(Appended(l, line, session, max, size), ins + [line], max, size)
  {
    ReadiedKeeps(l, ins, line, session, max, size);
    var l3 := Readied(l, line, session, max);
    JoinKeeps(l3, ins, line, session, max, size);
    var l4 := l3.(buf := l3.buf + [Cut(line.text, max)]);
    if |l4.buf| >= size {
      FlushKeeps(l4, ins + [line], session, max, size);
    }
  }

  ghost predicate IdsSet(first: string, events: seq<Event>) {
    first != "" && forall i :: 0 <= i < |events| && events[i].NewSession? ==> events[i].id != ""
  }

  lemma {:induction false} CurrentIsSet(first: string, events: seq<Event>)
    requires IdsSet(first, events)
    ensures Current(first, events) != ""
  {
    if events != [] {
      CurrentIsSet(first, events[..|events| - 1]);
    }
  }

  /**
   Over any sequence of lines, flushes and new sessions, the sent batches followed by the buffer are the lines that
   came in, cut where over-long, each under its own stream, in order and none twice. Every batch is non-empty, within
   the batch size and stamped with its first line's time; the buffer stays below the batch size.
   */
  lemma {:induction false} TranscriptIsFaithful(start: Log, events: seq<Event>, first: string, max: nat, size: nat)
    requires start.buf == [] && start.sent == [] && IdsSet(first, events) && size >= 1
    ensures var l := After(start, events, first, max, size);
      && Transcript(l.sent) + Tagged(l.stream, l.buf) == Expected(Inputs(events), max)
      && |l.buf| < size
      && forall i :: 0 <= i < |l.sent| ==> BatchOk(l.sent[i], size) && Stamped(l.sent, i, Inputs(events))
    ensures Inv(After(start, events, first, max, size), Inputs(events), max, size)
  {
    if events != [] {
      var n := |events| - 1;
      TranscriptIsFaithful(start, events[..n], first, max, size);
      CurrentIsSet(first, events[..n]);
      var before, ins := After(start, events[..n], first, max, size), Inputs(events[..n]);
      var session := Current(first, events[..n]);
      match events[n]
      case Output(_, line) => AppendKeeps(before, ins, line, session, max, size);
      case Tick => FlushKeeps(before, ins, session, max, size);
      case NewSession(_) =>
    }
  }

  // --- which session a line is sent under ---

  /** The lines of batch `i` are lines of the session it was sent under. */
  ghost predicate Pure(sent: seq<Batch>, i: nat, under: seq<string>)
    requires i < |sent|
  {
    var from := |Transcript(sent[..i])|;
    && from + |sent[i].lines| <= |under|
    && forall m :: from <= m < from + |sent[i].lines| ==> under[m] == sent[i].session
  }

  /** So for every batch, and the lines still buffered are of the session there is now. */
  ghost predicate Unmixed(l: Log, under: seq<string>, session: string) {
    && (forall i :: 0 <= i < |l.sent| ==> Pure(l.sent, i, under))
    && |Transcript(l.sent)| + |l.buf| == |under|
    && forall m :: |Transcript(l.sent)| <= m < |under| ==> under[m] == session
  }

  lemma TranscriptOneMore(sent: seq<Batch>, b: Batch)
    ensures Transcript(sent + [b]) == Transcript(sent) + Tagged(b.stream, b.lines)
  {
    assert (sent + [b])[..|sent|] == sent;
  }

  lemma LastPureIff(sent: seq<Batch>, b: Batch, under: seq<string>)
    requires |Transcript(sent)| + |b.lines| == |under|
    ensures Pure(sent + [b], |sent|, under) <==>
      forall m :: |Transcript(sent)| <= m < |under| ==> under[m] == b.session
  {
    var all := sent + [b];
    assert all[..|sent|] == sent && all[|sent|] == b;
  }

  lemma EarlierPureIff(sent: seq<Batch>, b: Batch, i: nat, under: seq<string>)
    requires i < |sent|
    ensures Pure(sent + [b], i, under) <==> Pure(sent, i, under)
  {
    assert (sent + [b])[..i] == sent[..i] && (sent + [b])[i] == sent[i];
  }

  /** A flush neither mixes nor separates. */
  lemma FlushMixesNothing(l: Log, under: seq<string>, session: string)
    requires |Transcript(l.sent)| + |l.buf| == |under| && session != ""
    ensures Unmixed(Flushed(l, session), under, session) <==> Unmixed(l, under, session)
    ensures |Transcript(Flushed(l, session).sent)| + |Flushed(l, session).buf| == |under|
  {
    if l.buf != [] {
      var b := Batch(session, l.stream, l.buf, l.firstAt, l.truncated);
      TranscriptOneMore(l.sent, b);
      LastPureIff(l.sent, b, under);
      forall i | 0 <= i < |l.sent| ensures Pure(l.sent + [b], i, under) <==> Pure(l.sent, i, under) {
        EarlierPureIff(l.sent, b, i, under);
      }
      MixedAfterFlush(l, b, under, session);
    }
  }

  lemma MixedAfterFlush(l: Log, b: Batch, under: seq<string>, session: string)
    requires |Transcript(l.sent)| + |l.buf| == |under| && b.lines == l.buf && b.session == session
    requires |Transcript(l.sent + [b])| == |under|
    requires forall i :: 0 <= i < |l.sent| ==> (Pure(l.sent + [b], i, under) <==> Pure(l.sent, i, under))
    requires Pure(l.sent + [b], |l.sent|, under) <==>
      forall m :: |Transcript(l.sent)| <= m < |under| ==> under[m] == session
    ensures Unmixed(l.(sent := l.sent + [b], buf := [], truncated := false), under, session)
       <==> Unmixed(l, under, session)
  {
    var l' := l.(sent := l.sent + [b], buf := [], truncated := false);
    if Unmixed(l', under, session) {
      assert Pure(l'.sent, |l.sent|, under);
      forall i | 0 <= i < |l.sent| ensures Pure(l.sent, i, under) {
        assert Pure(l'.sent, i, under);
      }
    }
    if Unmixed(l, under, session) {
      forall i | 0 <= i < |l'.sent| ensures Pure(l'.sent, i, under) {
        assert i < |l.sent| ==> Pure(l.sent, i, under);
      }
    }
  }

  /** A line that joins mixes exactly if it is not the current session's. */
  lemma JoinMixesIff(l: Log, text: string, under: seq<string>, session: string, from: string)
    requires |Transcript(l.sent)| + |l.buf| == |under|
    ensures Unmixed(l.(buf := l.buf + [text]), under + [from], session)
       <==> Unmixed(l, under, session) && from == session
  {
    var under' := under + [from];
    assert under'[|under|] == from && forall m :: 0 <= m < |under| ==> under'[m] == under[m];
    forall i | 0 <= i < |l.sent| ensures Pure(l.sent, i, under') <==> Pure(l.sent, i, under) {
      LinesBefore(l.sent, i);
    }
  }

  lemma {:induction false} LinesBefore(sent: seq<Batch>, i: nat)
    requires i < |sent|
    ensures |Transcript(sent[..i])| + |sent[i].lines| <= |Transcript(sent)|
  {
    var n := |sent| - 1;
    if i < n {
      LinesBefore(sent[..n], i);
      assert sent[..n][..i] == sent[..i];
    }
  }

  lemma ReadyingMixesNothing(l: Log, line: OutputLine, under: seq<string>, session: string, max: nat)
    requires |Transcript(l.sent)| + |l.buf| == |under| && session != ""
    ensures var ready := Readied(l, line, session, max);
      && (Unmixed(ready, under, session) <==> Unmixed(l, under, session))
      && |Transcript(ready.sent)| + |ready.buf| == |under|
  {
    var l1 := if |line.text| > max then l.(truncated := true) else l;
    var l2 := if l1.buf == [] then l1.(firstAt := line.at, stream := line.stream) else l1;
    FlushMixesNothing(l2, under, session);
    SameMixture(l, l2, under, session);
    SameMixture(if line.stream != l2.stream then Flushed(l2, session) else l2, Readied(l, line, session, max),
                under, session);
  }

  lemma AppendMixesIff(
      l: Log, line: OutputLine, under: seq<string>, session: string, from: string, max: nat, size: nat)
    requires |Transcript(l.sent)| + |l.buf| == |under| && session != ""
    ensures Unmixed(Appended(l, line, session, max, size), under + [from], session)
       <==> Unmixed(l, under, session) && from == session
  {
    var ready := Readied(l, line, session, max);
    ReadyingMixesNothing(l, line, under, session, max);
    JoinMixesIff(ready, Cut(line.text, max), under, session, from);
    FlushMixesNothing(ready.(buf := ready.buf + [Cut(line.text, max)]), under + [from], session);
  }

  lemma SameMixture(l: Log, l': Log, under: seq<string>, session: string)
    requires l'.sent == l.sent && l'.buf == l.buf
    ensures Unmixed(l, under, session) <==> Unmixed(l', under, session)
  {
  }

  /** Session ids are random: no two starts get the same one. */
  ghost predicate FreshIds(first: string, events: seq<Event>) {
    && (forall i :: 0 <= i < |events| && events[i].NewSession? ==> events[i].id != first)
    && (forall i, j | 0 <= i < j < |events| && events[i].NewSession? && events[j].NewSession? ::
          events[i].id != events[j].id)
  }

  ghost predicate KnownId(first: string, events: seq<Event>, id: string) {
    id == first || exists i :: 0 <= i < |events| && events[i] == NewSession(id)
  }

  /** Lines come from sessions that have been started. */
  ghost predicate FromStarted(first: string, events: seq<Event>) {
    forall i :: 0 <= i < |events| && events[i].Output? ==> KnownId(first, events[..i], events[i].from)
  }

  lemma KnownStays(first: string, events: seq<Event>, n: nat, id: string)
    requires n <= |events| && KnownId(first, events[..n], id)
    ensures KnownId(first, events, id)
  {
    if id != first {
      var i :| 0 <= i < n && events[..n][i] == NewSession(id);
      assert events[i] == NewSession(id);
    }
  }

  lemma {:induction false} OwnersAreKnown(first: string, events: seq<Event>)
    requires FromStarted(first, events)
    ensures forall id :: id in Owners(events) ==> KnownId(first, events, id)
  {
    if events != [] {
      var n := |events| - 1;
      assert forall i :: 0 <= i < n ==> events[..n][i] == events[i] && events[..n][..i] == events[..i];
      OwnersAreKnown(first, events[..n]);
      forall id | KnownId(first, events[..n], id) ensures KnownId(first, events, id) {
        KnownStays(first, events, n, id);
      }
    }
  }

  /** Every new session finds nothing buffered. */
  ghost predicate EmptyAtStarts(start: Log, events: seq<Event>, first: string, max: nat, size: nat) {
    forall i :: 0 <= i < |events| && events[i].NewSession? ==> After(start, events[..i], first, max, size).buf == []
  }

  /** No superseded session hands over a line any more. */
  ghost predicate OnlyCurrent(first: string, events: seq<Event>) {
    forall i :: 0 <= i < |events| && events[i].Output? ==> events[i].from == Current(first, events[..i])
  }

  ghost predicate Orderly(start: Log, events: seq<Event>, first: string, max: nat, size: nat) {
    EmptyAtStarts(start, events, first, max, size) && OnlyCurrent(first, events)
  }

  lemma OrderlyStep(start: Log, events: seq<Event>, first: string, max: nat, size: nat)
    requires events != []
    ensures var n := |events| - 1;
      Orderly(start, events, first, max, size) <==>
        && Orderly(start, events[..n], first, max, size)
        && (events[n].NewSession? ==> After(start, events[..n], first, max, size).buf == [])
        && (events[n].Output? ==> events[n].from == Current(first, events[..n]))
  {
    var n := |events| - 1;
    assert forall i :: 0 <= i < n ==> events[..n][i] == events[i] && events[..n][..i] == events[..i];
  }

  lemma NewSessionMixes(l: Log, under: seq<string>, session: string, id: string)
    requires |Transcript(l.sent)| + |l.buf| == |under| && forall m :: 0 <= m < |under| ==> under[m] != id
    ensures Unmixed(l, under, id) <==> Unmixed(l, under, session) && l.buf == []
  {
    if l.buf != [] {
      assert under[|Transcript(l.sent)|] != id;
    }
  }

  lemma NewIdIsUnknown(first: string, events: seq<Event>)
    requires FreshIds(first, events) && FromStarted(first, events)
    requires events != [] && events[|events| - 1].NewSession?
    ensures var n := |events| - 1;
      forall m :: 0 <= m < |Owners(events[..n])| ==> Owners(events[..n])[m] != events[n].id
  {
    var n := |events| - 1;
    assert forall i :: 0 <= i < n ==> events[..n][i] == events[i] && events[..n][..i] == events[..i];
    OwnersAreKnown(first, events[..n]);
    var under := Owners(events[..n]);
    forall m | 0 <= m < |under| ensures under[m] != events[n].id {
      assert KnownId(first, events[..n], under[m]);
      if under[m] != first {
        var i :| 0 <= i < n && events[..n][i] == NewSession(under[m]);
        assert events[i] == NewSession(under[m]);
      }
    }
  }

  /**
   Every line goes out under its own session if and only if each new session finds the buffer empty and no superseded
   session's line follows one.
   */
  lemma {:induction false} UnmixedIff(start: Log, events: seq<Event>, first: string, max: nat, size: nat)
    requires start.buf == [] && start.sent == [] && size >= 1
    requires IdsSet(first, events) && FreshIds(first, events) && FromStarted(first, events)
    ensures Unmixed(After(start, events, first, max, size), Owners(events), Current(first, events))
       <==> Orderly(start, events, first, max, size)
  {
    if events != [] {
      var n := |events| - 1;
      assert forall i :: 0 <= i < n ==> events[..n][i] == events[i] && events[..n][..i] == events[..i];
      UnmixedIff(start, events[..n], first, max, size);
      UnmixedStep(start, events, first, max, size);
    }
  }

  lemma UnmixedStep(start: Log, events: seq<Event>, first: string, max: nat, size: nat)
    requires start.buf == [] && start.sent == [] && size >= 1 && events != []
    requires IdsSet(first, events) && FreshIds(first, events) && FromStarted(first, events)
    requires var init := events[..|events| - 1];
      Unmixed(After(start, init, first, max, size), Owners(init), Current(first, init))
      <==> Orderly(start, init, first, max, size)
    ensures Unmixed(After(start, events, first, max, size), Owners(events), Current(first, events))
       <==> Orderly(start, events, first, max, size)
  {
    var n := |events| - 1;
    var before, under := After(start, events[..n], first, max, size), Owners(events[..n]);
    var session := Current(first, events[..n]);
    TranscriptIsFaithful(start, events[..n], first, max, size);
    CurrentIsSet(first, events[..n]);
    OrderlyStep(start, events, first, max, size);
    match events[n]
    case Output(from, line) => AppendMixesIff(before, line, under, session, from, max, size);
    case Tick => FlushMixesNothing(before, under, session);
    case NewSession(id) =>
      NewIdIsUnknown(first, events);
      NewSessionMixes(before, under, session, id);
  }

  // --- the two ways it goes wrong ---

  const UNUSED := Log([], Stdout, 0, false, [])

  lemma OneEventMore(l: Log, init: seq<Event>, e: Event, first: string, max: nat, size: nat)
    ensures After(l, init + [e], first, max, size)
         == Took(After(l, init, first, max, size), e, Current(first, init), max, size)
    ensures Current(first, init + [e]) == if e.NewSession? then e.id else Current(first, init)
    ensures Owners(init + [e]) == Owners(init) + if e.Output? then [e.from] else []
  {
    assert (init + [e])[..|init|] == init;
  }

  lemma TwoEvents(l: Log, e: Event, f: Event, first: string, max: nat, size: nat)
    ensures var session := if e.NewSession? then e.id else first;
      && After(l, [e, f], first, max, size) == Took(Took(l, e, first, max, size), f, session, max, size)
      && Current(first, [e, f]) == (if f.NewSession? then f.id else session)
      && Owners([e, f]) == (if e.Output? then [e.from] else []) + (if f.Output? then [f.from] else [])
  {
    OneEventMore(l, [], e, first, max, size);
    OneEventMore(l, [e], f, first, max, size);
    assert [] + [e] == [e] && [e] + [f] == [e, f];
  }

  /** One line into an empty buffer, and out again. */
  lemma LineThenTick(line: OutputLine, session: string, later: string, max: nat, size: nat)
    requires size >= 2 && |line.text| <= max && later != ""
    ensures Flushed(Appended(UNUSED, line, session, max, size), later).sent
         == [Batch(later, line.stream, [line.text], line.at, false)]
  {
    assert [] + [line.text] == [line.text];
    assert Appended(UNUSED, line, session, max, size) == Log([line.text], line.stream, line.at, false, []);
  }

  /** A line of session a still buffered when b starts goes out as b's. */
  lemma BufferedLineGoesAstray(line: OutputLine, max: nat, size: nat)
    requires size >= 2 && |line.text| <= max
    ensures var events := [Output("a", line), NewSession("b")] + [Tick];
      && FromStarted("a", events) && OnlyCurrent("a", events) && Owners(events) == ["a"]
      && After(UNUSED, events, "a", max, size).sent == [Batch("b", line.stream, [line.text], line.at, false)]
  {
    TwoEvents(UNUSED, Output("a", line), NewSession("b"), "a", max, size);
    OneEventMore(UNUSED, [Output("a", line), NewSession("b")], Tick, "a", max, size);
    LineThenTick(line, "a", "b", max, size);
  }

  /** And so does one that a's consumer takes from its channel after b has started. */
  lemma LateLineGoesAstray(line: OutputLine, max: nat, size: nat)
    requires size >= 2 && |line.text| <= max
    ensures var events := [NewSession("b"), Output("a", line)] + [Tick];
      && FromStarted("a", events) && EmptyAtStarts(UNUSED, events, "a", max, size) && Owners(events) == ["a"]
      && After(UNUSED, events, "a", max, size).sent == [Batch("b", line.stream, [line.text], line.at, false)]
  {
    var events := [NewSession("b"), Output("a", line)] + [Tick];
    TwoEvents(UNUSED, NewSession("b"), Output("a", line), "a", max, size);
    OneEventMore(UNUSED, [NewSession("b"), Output("a", line)], Tick, "a", max, size);
    LineThenTick(line, "b", "b", max, size);
    assert events[..0] == [];
  }

  /** Without a session id nothing is ever sent, and the buffer still cannot grow past the batch size. */
  lemma {:induction false} NoSessionSendsNothing(start: Log, events: seq<Event>, max: nat, size: nat)
    requires start.buf == [] && size >= 1 && forall i :: 0 <= i < |events| ==> !events[i].NewSession?
    ensures Current("", events) == ""
    ensures After(start, events, "", max, size).sent == start.sent
    ensures |After(start, events, "", max, size).buf| < size
  {
    if events != [] {
      NoSessionSendsNothing(start, events[..|events| - 1], max, size);
    }
  }

  // --- the truncation mark ---

  ghost predicate Switches(l: Log, line: OutputLine) {
    l.buf != [] && line.stream != l.stream
  }

  /**
   What one line does, field by field. On a change of stream the lines buffered before go out, marked if this line is
   the over-long one, and the line itself then waits unmarked; else it joins them. A full buffer goes out at once.
   */
  lemma AppendEffect(l: Log, line: OutputLine, session: string, max: nat, size: nat)
    requires |l.buf| < size
    ensures var text := if |line.text| <= max then line.text else line.text[..max] + "... [truncated]";
      var mark := l.truncated || max < |line.text|;
      var out := if session == "" then [] else [Batch(session, l.stream, l.buf, l.firstAt, mark)];
      var joined := l.buf + [text];
      var at := if l.buf == [] then line.at else l.firstAt;
      var l' := Appended(l, line, session, max, size);
      && (Switches(l, line) ==> l' == Log([text], line.stream, line.at, false, l.sent + out))
      && (!Switches(l, line) && |joined| < size ==> l' == Log(joined, line.stream, at, mark, l.sent))
      && (!Switches(l, line) && |joined| == size ==>
            && l'.buf == [] && !l'.truncated
            && l'.sent == l.sent + if session == "" then [] else [Batch(session, line.stream, joined, at, mark)])
  {
  }

  lemma {:induction false} BufferStaysBelow(start: Log, events: seq<Event>, first: string, max: nat, size: nat)
    requires |start.buf| < size
    ensures |After(start, events, first, max, size).buf| < size
  {
    if events != [] {
      BufferStaysBelow(start, events[..|events| - 1], first, max, size);
    }
  }

  ghost predicate HasLong(lines: seq<string>, max: nat) {
    exists i :: 0 <= i < |lines| && max < |lines[i]|
  }

  /** Every batch is marked exactly if it carries a cut line, and so will be the one being filled. */
  ghost predicate MarksRight(l: Log, max: nat) {
    && (l.truncated <==> HasLong(l.buf, max))
    && forall i :: 0 <= i < |l.sent| ==> (l.sent[i].truncated <==> HasLong(l.sent[i].lines, max))
  }

  lemma LongOneMore(lines: seq<string>, text: string, max: nat)
    ensures HasLong(lines + [Cut(text, max)], max) <==> HasLong(lines, max) || max < |text|
  {
    var all := lines + [Cut(text, max)];
    assert all[|lines|] == Cut(text, max) && forall i :: 0 <= i < |lines| ==> all[i] == lines[i];
  }

  lemma FlushKeepsMarks(l: Log, session: string, max: nat)
    requires MarksRight(l, max)
    ensures MarksRight(Flushed(l, session), max)
  {
  }

  lemma AppendKeepsMarksIff(l: Log, line: OutputLine, session: string, max: nat, size: nat)
    requires MarksRight(l, max) && |l.buf| < size
    ensures MarksRight(Appended(l, line, session, max, size), max) <==> !(Switches(l, line) && max < |line.text|)
  {
    var l' := Appended(l, line, session, max, size);
    AppendEffect(l, line, session, max, size);
    LongOneMore(l.buf, line.text, max);
    LongOneMore([], line.text, max);
    assert [] + [Cut(line.text, max)] == [Cut(line.text, max)];
  }

  /** An over-long line arrives on the other stream while lines are buffered. */
  ghost predicate LongSwitchAt(start: Log, events: seq<Event>, i: nat, first: string, max: nat, size: nat)
    requires i < |events|
  {
    && events[i].Output? && max < |events[i].line.text|
    && Switches(After(start, events[..i], first, max, size), events[i].line)
  }

  /**
   The truncation mark sits on exactly the batches that carry a cut line, at every point of a run, if and only if no
   over-long line of the run changes the stream while lines are buffered: such a line's mark goes to the batch before.
   */
  lemma MarksRightIff(start: Log, events: seq<Event>, first: string, max: nat, size: nat)
    requires start.buf == [] && start.sent == [] && !start.truncated && size >= 1
    ensures (forall i :: 0 <= i <= |events| ==> MarksRight(After(start, events[..i], first, max, size), max))
       <==> (forall i :: 0 <= i < |events| ==> !LongSwitchAt(start, events, i, first, max, size))
  {
    for n := 0 to |events|
      invariant (forall i :: 0 <= i <= n ==> MarksRight(After(start, events[..i], first, max, size), max))
           <==> (forall i :: 0 <= i < n ==> !LongSwitchAt(start, events, i, first, max, size))
    {
      if MarksRight(After(start, events[..n], first, max, size), max) {
        MarksStep(start, events, n, first, max, size);
      }
    }
  }

  lemma MarksStep(start: Log, events: seq<Event>, n: nat, first: string, max: nat, size: nat)
    requires start.buf == [] && start.sent == [] && !start.truncated && size >= 1 && n < |events|
    requires MarksRight(After(start, events[..n], first, max, size), max)
    ensures MarksRight(After(start, events[..n + 1], first, max, size), max)
       <==> !LongSwitchAt(start, events, n, first, max, size)
  {
    assert events[..n + 1][..n] == events[..n];
    var before, session := After(start, events[..n], first, max, size), Current(first, events[..n]);
    BufferStaysBelow(start, events[..n], first, max, size);
    match events[n]
    case Output(_, line) => AppendKeepsMarksIff(before, line, session, max, size);
    case Tick => FlushKeepsMarks(before, session, max);
    case NewSession(_) =>
  }

  /** It happens: a short line waits, and an over-long one of the other stream marks the short one's batch. */
  lemma MarkGoesAstray(short: string, long: string, max: nat, size: nat)
    requires size >= 2 && |short| <= max < |long|
    ensures var e, f := Output("a", OutputLine(Stderr, short, 0)), Output("a", OutputLine(Stdout, long, 1));
      After(UNUSED, [e, f] + [Tick], "a", max, size).sent
      == [Batch("a", Stderr, [short], 0, true), Batch("a", Stdout, [Cut(long, max)], 1, false)]
  {
    var e, f := Output("a", OutputLine(Stderr, short, 0)), Output("a", OutputLine(Stdout, long, 1));
    TwoEvents(UNUSED, e, f, "a", max, size);
    OneEventMore(UNUSED, [e, f], Tick, "a", max, size);
    AppendEffect(UNUSED, e.line, "a", max, size);
    assert [] + [short] == [short];
    var l := Log([short], Stderr, 0, false, []);
    assert Took(UNUSED, e, "a", max, size) == l;
    AppendEffect(l, f.line, "a", max, size);
  }
}
