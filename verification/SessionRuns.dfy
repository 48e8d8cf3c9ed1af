/** Every run of the session operations, calls taken as atomic steps (backend/internal/app/session.go:74-343). */
module SessionRuns {
  import opened Prelude
  import opened Protocol
  import opened Sessions

  /** A new row is in state starting and open; Start builds no other. */
  ghost predicate Admissible(op: Op) {
    op.OpenSession? ==> op.s.state == Starting && op.s.endedAt.None?
  }

  ghost predicate Run(ts: seq<Rows>, ops: seq<Op>) {
    && |ts| == |ops| + 1
    && ts[0] == map[]
    && forall i :: 0 <= i < |ops| ==> Admissible(ops[i]) && ts[i + 1] == Next(ts[i], ops[i])
  }

  /** Ended rows may be in any state: an agent may report `starting` again after `stopped`. */
  predicate Sound(s: Session) {
    && InOrder(s)
    && (s.state.Terminal() ==> s.endedAt.Some?)
    && !s.state.Idle?
  }

  ghost predicate OnePerDevice(rows: Rows) {
    forall i, j | i in rows && j in rows && rows[i].Active() && rows[j].Active() && rows[i].device == rows[j].device ::
      i == j
  }

  ghost predicate Inv(rows: Rows) {
    && OnePerDevice(rows)
    && forall id :: id in rows ==> rows[id].id == id && Sound(rows[id])
  }

  /** What no operation changes on a row, and that an end once written stays as written. */
  predicate Evolves(s: Session, s': Session) {
    && s'.(state := s.state, endedAt := s.endedAt, exitCode := s.exitCode) == s
    && (s.endedAt.Some? ==> s'.endedAt == s.endedAt)
    && (s'.state == s.state || s.state.CanTransitionTo(s'.state))
  }

  ghost predicate RowsEvolve(rows: Rows, rows': Rows) {
    forall id :: id in rows ==> id in rows' && Evolves(rows[id], rows'[id])
  }

  lemma StoredKeeps(rows: Rows, s: Session)
    requires Inv(rows)
    requires s.id in rows && Evolves(rows[s.id], s) && (s.state.Terminal() ==> s.endedAt.Some?) && !s.state.Idle?
    ensures Inv(Stored(rows, s)) && RowsEvolve(rows, Stored(rows, s))
  {
  }

  lemma MovedKeeps(rows: Rows, id: SessionId, next: AgentState, now: int)
    requires Inv(rows) && id in rows
    ensures Inv(Moved(rows, id, next, now)) && RowsEvolve(rows, Moved(rows, id, next, now))
  {
    if rows[id].ApplyState(next, now).Ok? {
      StoredKeeps(rows, rows[id].ApplyState(next, now).value);
    }
  }

  /** The sweep's unconditional `crashed` is a legal transition for every row it touches. */
  lemma SweepIsLegal(rows: Rows, id: SessionId, silent: set<DeviceId>, at: int)
    requires Inv(rows) && id in rows && Stale(rows[id], silent)
    ensures rows[id].state in {Starting, Running, WaitingInput, Stopping}
    ensures rows[id].ApplyState(Crashed, at) == Ok(Crash(rows[id], at))
  {
  }

  lemma SweptKeeps(rows: Rows, silent: set<DeviceId>, at: int)
    requires Inv(rows) && CanSweep(rows, silent, at)
    ensures Inv(Swept(rows, silent, at)) && RowsEvolve(rows, Swept(rows, silent, at))
  {
    forall id | id in rows && Stale(rows[id], silent) ensures Evolves(rows[id], Crash(rows[id], at)) {
      SweepIsLegal(rows, id, silent, at);
    }
  }

  lemma StepKeeps(rows: Rows, op: Op)
    requires Inv(rows) && Admissible(op)
    ensures Inv(Next(rows, op)) && RowsEvolve(rows, Next(rows, op))
  {
    match op
    case OpenSession(s) =>
    case StopRequest(id, _, now) => if id in rows { MovedKeeps(rows, id, Stopping, now); }
    case StatusFrame(id, state, now) => if id in rows { MovedKeeps(rows, id, state, now); }
    case CompleteFrame(id, code, now) => if id in rows { StoredKeeps(rows, rows[id].End(code, now)); }
    case Sweep(silent, at) => if CanSweep(rows, silent, at) { SweptKeeps(rows, silent, at); }
  }

  lemma {:induction false} RunKeepsInv(ts: seq<Rows>, ops: seq<Op>)
    requires Run(ts, ops)
    ensures forall i :: 0 <= i < |ts| ==> Inv(ts[i])
  {
    for i := 0 to |ops|
      invariant forall k :: 0 <= k <= i ==> Inv(ts[k])
    {
      StepKeeps(ts[i], ops[i]);
    }
  }

  /** At every point of every run a device has at most one open session, and that one is not in a terminal state. */
  lemma AtMostOneOpenSession(ts: seq<Rows>, ops: seq<Op>, n: nat, i: SessionId, j: SessionId)
    requires Run(ts, ops) && n < |ts| && i in ts[n] && ts[n][i].Active()
    requires j in ts[n] && ts[n][j].Active() && ts[n][i].device == ts[n][j].device
    ensures i == j && ts[n][i].state in {Starting, Running, WaitingInput, Stopping}
  {
    RunKeepsInv(ts, ops);
  }

  /** EndedAt is written once and never before the start; from then on the elapsed time stands still. */
  lemma {:induction false} EndIsWrittenOnce(ts: seq<Rows>, ops: seq<Op>, m: nat, n: nat, id: SessionId, now: int)
    requires Run(ts, ops) && m <= n < |ts| && id in ts[m] && !ts[m][id].Active()
    ensures id in ts[n] && ts[n][id].endedAt == ts[m][id].endedAt
    ensures ts[n][id].Elapsed(now) == ts[m][id].Elapsed(ts[m][id].endedAt.value) >= 0
  {
    RunKeepsInv(ts, ops);
    for i := m to n
      invariant id in ts[i] && ts[i][id].endedAt == ts[m][id].endedAt && ts[i][id].startedAt == ts[m][id].startedAt
    {
      StepKeeps(ts[i], ops[i]);
    }
  }

  /** An open session's elapsed time follows the clock from its start; an ended one's is that of its end. */
  lemma ElapsedFollows(s: Session, now: int)
    ensures s.startedAt + s.Elapsed(now) == if s.endedAt.Some? then s.endedAt.value else now
  {
  }

  predicate Names(op: Op, s: Session) {
    match op
    case OpenSession(_) => false
    case StopRequest(id, _, _) => id == s.id
    case StatusFrame(id, _, _) => id == s.id
    case CompleteFrame(id, _, _) => id == s.id
    case Sweep(silent, _) => s.device in silent
  }

  /** The step at which an open session ends: a terminal status, an exit code that is not negative, or the sweep. */
  lemma EndsExactlyWhen(rows: Rows, op: Op, id: SessionId)
    requires Inv(rows) && Admissible(op) && id in rows && rows[id].Active()
    ensures id in Next(rows, op)
    ensures !Next(rows, op)[id].Active() <==>
      && Names(op, rows[id])
      && match op
         case StatusFrame(_, state, now) =>
           state.Terminal() && rows[id].state.CanTransitionTo(state) && rows[id].startedAt <= now
         case CompleteFrame(_, code, now) => code >= 0 && rows[id].startedAt <= now
         case Sweep(silent, at) => CanSweep(rows, silent, at)
         case _ => false
  {
  }

  /** Start's guard is open again on a device exactly when no session of it is open; the sweep always gets it there. */
  lemma SweepUnblocks(rows: Rows, silent: set<DeviceId>, at: int, s: Session)
    requires Inv(rows) && CanSweep(rows, silent, at) && s.device in silent && s.id !in rows
    ensures CanInsert(Next(rows, Sweep(silent, at)), s)
  {
  }

  /** One stale row that started after the database's clock makes the whole statement fail, for every device. */
  lemma SweepFailsIff(rows: Rows, silent: set<DeviceId>, at: int)
    requires Inv(rows)
    ensures Next(rows, Sweep(silent, at)) == rows
       <==> (StaleIds(rows, silent) == {}
             || exists id :: id in rows && Stale(rows[id], silent) && at < rows[id].startedAt)
  {
    if CanSweep(rows, silent, at) {
      var rows' := Swept(rows, silent, at);
      if id :| id in StaleIds(rows, silent) {
        assert rows'[id].endedAt != rows[id].endedAt;
      } else {
        forall id | id in rows ensures !Stale(rows[id], silent) {
          assert id !in StaleIds(rows, silent);
        }
        assert rows' == rows;
      }
    } else {
      assert exists id :: id in rows && Stale(rows[id], silent) && at < rows[id].startedAt;
    }
  }

  /** A stop of an open session takes the row to `stopping`; while it is still `starting` nothing is recorded. */
  lemma StopIsRecordedIff(rows: Rows, id: SessionId, now: int)
    requires Inv(rows) && id in rows && rows[id].Active()
    ensures Next(rows, StopRequest(id, true, now))
         == if rows[id].state == Starting then rows else rows[id := rows[id].(state := Stopping)]
  {
  }

  /** Ended does not mean terminal: a `starting` frame after `stopped` reopens the state, never the session. */
  lemma EndedRowMayMove(rows: Rows, id: SessionId, now: int)
    requires Inv(rows) && id in rows && rows[id].state.Terminal()
    ensures var rows' := Next(rows, StatusFrame(id, Starting, now));
      id in rows' && rows'[id] == rows[id].(state := Starting) && !rows'[id].Active()
  {
  }

  // --- what each frame does to its row, field by field ---

  /** The transition table, read by the state moved to. */
  lemma MovesInto(a: AgentState, b: AgentState)
    ensures a.CanTransitionTo(b) <==>
      match b
      case Idle => false
      case Starting => a in {Idle, Stopped, Crashed}
      case Running => a in {Starting, WaitingInput}
      case WaitingInput => a == Running
      case Stopping => a in {Running, WaitingInput}
      case _ => a in {Starting, Running, WaitingInput, Stopping}
  {
  }

  /**
   A status frame rewrites one row or none: the state if the move is legal, and the end when that move is into a
   terminal state and the session still open, unless the end would precede the start.
   */
  lemma StatusEffect(rows: Rows, id: SessionId, state: AgentState, now: int)
    requires Inv(rows) && id in rows
    ensures var s, rows' := rows[id], Next(rows, StatusFrame(id, state, now));
      var ends := s.endedAt.None? && (state == Stopped || state == Crashed);
      rows' == if s.state.CanTransitionTo(state) && (ends ==> s.startedAt <= now)
               then rows[id := Session(id, s.user, s.device, s.adapter, s.directory, state, s.startedAt,
                                       if ends then Some(now) else s.endedAt, s.exitCode)]
               else rows
  {
  }

  /** A completion records the exit code, ends an open session, keeps an end there is, and leaves the state alone. */
  lemma CompleteEffect(rows: Rows, id: SessionId, code: int, now: int)
    requires Inv(rows) && id in rows
    ensures var s, rows' := rows[id], Next(rows, CompleteFrame(id, code, now));
      rows' == if 0 <= code && (s.endedAt.None? ==> s.startedAt <= now)
               then rows[id := Session(id, s.user, s.device, s.adapter, s.directory, s.state, s.startedAt,
                                       Some(if s.endedAt.Some? then s.endedAt.value else now), Some(code))]
               else rows
  {
  }

  /** A sweep crashes the open sessions of the silent devices, all or none, and touches nothing else of any row. */
  lemma SweepEffect(rows: Rows, silent: set<DeviceId>, at: int, id: SessionId)
    requires Inv(rows)
    ensures var rows' := Next(rows, Sweep(silent, at));
      && rows'.Keys == rows.Keys
      && (id in rows ==>
            var s := rows[id];
            var swept := s.endedAt.None? && s.device in silent
              && forall j :: j in rows && rows[j].endedAt.None? && rows[j].device in silent ==> rows[j].startedAt <= at;
            rows'[id] == if swept
                         then Session(id, s.user, s.device, s.adapter, s.directory, Crashed, s.startedAt, Some(at),
                                      s.exitCode)
                         else s)
  {
    assert forall j :: j in rows ==>
      (Stale(rows[j], silent) <==> rows[j].endedAt.None? && rows[j].device in silent);
  }

  /** A new row goes in exactly when its id is new and, if it is open, its device has no open session; as it is. */
  lemma OpenEffect(rows: Rows, s: Session)
    ensures var taken := s.id in rows
        || (s.endedAt.None? && exists id :: id in rows && rows[id].endedAt.None? && rows[id].device == s.device);
      Next(rows, OpenSession(s)) == if taken then rows else rows[s.id := s]
  {
  }

  ghost function Open(rows: Rows, d: DeviceId): set<SessionId> {
    set id | id in rows && rows[id].Active() && rows[id].device == d
  }

  /** Start's insert is accepted exactly when the device's open sessions number none; they never number two. */
  lemma InsertIffNoneOpen(ts: seq<Rows>, ops: seq<Op>, n: nat, s: Session)
    requires Run(ts, ops) && n < |ts| && s.Active() && s.id !in ts[n]
    ensures CanInsert(ts[n], s) <==> |Open(ts[n], s.device)| == 0
    ensures |Open(ts[n], s.device)| <= 1
  {
    RunKeepsInv(ts, ops);
    var open := Open(ts[n], s.device);
    if id :| id in open {
      assert open == {id} && !Free(ts[n], s.device);
    } else {
      forall id | id in ts[n] && ts[n][id].Active() ensures ts[n][id].device != s.device {
        assert id !in open;
      }
    }
  }

  // --- runs that show it ---

  function NewSession(id: SessionId, device: DeviceId, at: int): Session {
    Session(id, 0, device, "claude", "/work", Starting, at, None, None)
  }

  /** Device 1's session started after the database's clock, and device 2's cannot be swept either. */
  lemma SweepFailsForAll() returns (ts: seq<Rows>, ops: seq<Op>)
    ensures Run(ts, ops)
    ensures ops == [OpenSession(NewSession(1, 1, 100)), OpenSession(NewSession(2, 2, 0)), Sweep({1, 2}, 50)]
    ensures ts[3] == ts[2] && 2 in ts[2] && Stale(ts[2][2], {1, 2}) && ts[2][2].startedAt <= 50
  {
    ops := [OpenSession(NewSession(1, 1, 100)), OpenSession(NewSession(2, 2, 0)), Sweep({1, 2}, 50)];
    var t1 := Next(map[], ops[0]);
    var t2 := Next(t1, ops[1]);
    assert 1 in t2 && Stale(t2[1], {1, 2}) && !InOrder(Crash(t2[1], 50));
    ts := [map[], t1, t2, t2];
  }

  /** A stop that comes while the session is starting leaves no trace in the row. */
  lemma StopWhileStartingIsLost() returns (ts: seq<Rows>, ops: seq<Op>)
    ensures Run(ts, ops) && ops == [OpenSession(NewSession(1, 1, 0)), StopRequest(1, true, 5)]
    ensures ts[2] == ts[1] && 1 in ts[1] && ts[1][1].state == Starting
  {
    ops := [OpenSession(NewSession(1, 1, 0)), StopRequest(1, true, 5)];
    var t1 := Next(map[], ops[0]);
    StopIsRecordedIff(t1, 1, 5);
    ts := [map[], t1, Next(t1, ops[1])];
  }

  /** An agent that reports `starting` after `stopped`: the row says starting, and stays ended. */
  lemma EndedRowSaysStarting() returns (ts: seq<Rows>, ops: seq<Op>)
    ensures Run(ts, ops)
    ensures ops == [OpenSession(NewSession(1, 1, 0)), StatusFrame(1, Stopped, 5), StatusFrame(1, Starting, 6)]
    ensures 1 in ts[3] && ts[3][1].state == Starting && ts[3][1].endedAt == Some(5)
  {
    ops := [OpenSession(NewSession(1, 1, 0)), StatusFrame(1, Stopped, 5), StatusFrame(1, Starting, 6)];
    var t1 := Next(map[], ops[0]);
    var t2 := Next(t1, ops[1]);
    StepKeeps(map[], ops[0]);
    StepKeeps(t1, ops[1]);
    EndedRowMayMove(t2, 1, 6);
    ts := [map[], t1, t2, Next(t2, ops[2])];
  }
}
