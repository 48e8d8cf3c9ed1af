/** What every run of the prompt service's operations keeps, each call taken as one step. */
module PromptRuns {
  import opened Prelude
  import opened Prompts
  import opened PromptOrder
  import Paging

  // --- what one row may become ---

  ghost predicate RowStep(r: Prompt, r': Prompt) {
    && r'.id == r.id && r'.user == r.user && r'.device == r.device && r'.text == r.text
    && r'.enqueuedAt == r.enqueuedAt
    && r.attempts <= r'.attempts
    && (r.status.Terminal() ==> r' == r)
    && (r.attempts >= MAX_ATTEMPTS ==> r' == r || r' == r.(status := Cancelled))
  }

  /** Rows never disappear, never move, and change only by RowStep. */
  ghost predicate Evolves(t: Table, t': Table) {
    |t| <= |t'| && forall i :: 0 <= i < |t| ==> RowStep(t[i], t'[i])
  }

  ghost predicate Sound(t: Table) {
    && UniqueIds(t)
    && forall i :: 0 <= i < |t| ==> t[i].attempts <= MAX_ATTEMPTS && t[i].status != Failed
  }

  lemma EvolvesTransitive(t: Table, t': Table, t'': Table)
    requires Evolves(t, t') && Evolves(t', t'')
    ensures Evolves(t, t'')
  {
  }

  /** Writing back a later version of a row leaves every other row alone. */
  lemma UpdateEvolves(t: Table, p: Prompt, p': Prompt)
    requires Sound(t) && p in t && !p.status.Terminal()
    requires RowStep(p, p') && p'.attempts <= MAX_ATTEMPTS && p'.status != Failed
    ensures Sound(Updated(t, p')) && Evolves(t, Updated(t, p'))
    ensures p'.status != Delivered ==> NoneDelivered(t, Updated(t, p'))
    ensures forall r :: r in t && r.id != p.id ==> r in Updated(t, p')
  {
    var t' := Updated(t, p');
    var k :| 0 <= k < |t| && t[k] == p;
    forall r | r in t && r.id != p.id ensures r in t' {
      var i :| 0 <= i < |t| && t[i] == r;
      assert t'[i] == r;
    }
    forall i | 0 <= i < |t| ensures RowStep(t[i], t'[i]) && t'[i].attempts <= MAX_ATTEMPTS && t'[i].status != Failed {
      if t[i].id == p.id {
        assert i == k;
      }
    }
    forall i, j | 0 <= i < j < |t| ensures t'[i].id != t'[j].id {
      assert t[i].id != t[j].id;
    }
  }

  // --- windows hold eligible rows of the table, each once ---

  /** What the loops rely on: the window's rows, current when it was read, each id once. */
  ghost predicate Live(t: Table, d: DeviceId, window: seq<Prompt>) {
    UniqueIds(window) && forall k :: 0 <= k < |window| ==> window[k] in t && Eligible(window[k], d)
  }

  lemma WindowIsLive(t: Table, d: DeviceId, limit: int)
    requires UniqueIds(t)
    ensures Live(t, d, Window(t, d, limit))
  {
    EligibleRows(t, d);
    EligibleUnique(t, d);
    var all := EligibleFor(t, d);
    forall k | 0 <= k < |Window(t, d, limit)| ensures Window(t, d, limit)[k] in all {
      assert Window(t, d, limit)[k] == all[k];
    }
  }

  // --- every operation ---

  /** `q'` extends `q`: rows evolve, and each new frame is the frame of some row of `d`'s in `q'`. */
  ghost predicate Progress(q: Queue, q': Queue) {
    && Sound(q'.table) && Evolves(q.table, q'.table)
    && |q.wire| <= |q'.wire| && q'.wire[..|q.wire|] == q.wire
    && forall k :: |q.wire| <= k < |q'.wire| ==> Carries(q'.table, q'.wire[k].device, q'.wire[k].id, q'.wire[k].text)
  }

  /** Progress in which no row becomes `delivered`: what every operation but an acknowledgement does. */
  ghost predicate Undelivering(q: Queue, q': Queue) {
    Progress(q, q') && NoneDelivered(q.table, q'.table)
  }

  ghost predicate NoneDelivered(t: Table, t': Table) {
    forall i :: 0 <= i < |t'| && t'[i].status == Delivered ==> i < |t| && t[i].status == Delivered
  }

  /** Some row is this prompt, addressed to this device, with this text. */
  ghost predicate Carries(t: Table, d: DeviceId, id: PromptId, text: string) {
    exists i :: 0 <= i < |t| && t[i].device == d && t[i].id == id && t[i].text == text
  }

  lemma CarriesPersists(t: Table, t': Table, d: DeviceId, id: PromptId, text: string)
    requires Evolves(t, t') && Carries(t, d, id, text)
    ensures Carries(t', d, id, text)
  {
    var i :| 0 <= i < |t| && t[i].device == d && t[i].id == id && t[i].text == text;
    assert RowStep(t[i], t'[i]);
  }

  lemma ProgressTransitive(q: Queue, q': Queue, q'': Queue)
    requires Progress(q, q') && Progress(q', q'')
    ensures Progress(q, q'')
    ensures Undelivering(q, q') && Undelivering(q', q'') ==> Undelivering(q, q'')
  {
    EvolvesTransitive(q.table, q'.table, q''.table);
    forall k | |q.wire| <= k < |q''.wire|
      ensures Carries(q''.table, q''.wire[k].device, q''.wire[k].id, q''.wire[k].text)
    {
      if k < |q'.wire| {
        assert q''.wire[k] == q'.wire[k];
        CarriesPersists(q'.table, q''.table, q''.wire[k].device, q''.wire[k].id, q''.wire[k].text);
      }
    }
  }

  lemma DeliverOneProgress(q: Queue, d: DeviceId, p: Prompt, out: Outcome, now: int)
    requires Sound(q.table) && p in q.table && Eligible(p, d)
    ensures Undelivering(q, DeliverOne(q, p, out, now))
    ensures forall r :: r in q.table && r.id != p.id ==> r in DeliverOne(q, p, out, now).table
  {
    var q' := DeliverOne(q, p, out, now);
    UpdateEvolves(q.table, p, p.MarkDispatched(now));
    if out.sent {
      assert Carries(q.table, p.device, p.id, p.text);
      CarriesPersists(q.table, q'.table, p.device, p.id, p.text);
    }
  }

  /** No row of a window is exhausted, so the flush never writes `failed`. */
  lemma {:induction false} FlushProgress(q: Queue, d: DeviceId, window: seq<Prompt>, i: nat,
                                         net: nat -> Outcome, now: int)
    requires Sound(q.table) && i <= |window| && Live(q.table, d, window[i..])
    ensures Undelivering(q, Flush(q, window, i, net, now).0)
    decreases |window| - i
  {
    if i < |window| {
      assert window[i] == window[i..][0];
      assert !window[i].Exhausted();
      if net(i).sent {
        var q1 := DeliverOne(q, window[i], net(i), now);
        DeliverOneProgress(q, d, window[i], net(i), now);
        FlushProgress(q1, d, window, i + 1, net, now);
        ProgressTransitive(q, q1, Flush(q1, window, i + 1, net, now).0);
      }
    }
  }

  lemma {:induction false} SweepProgress(q: Queue, d: DeviceId, window: seq<Prompt>, i: nat, cutoff: int,
                                         net: nat -> Outcome, now: int)
    requires Sound(q.table) && i <= |window| && Live(q.table, d, window[i..])
    ensures Undelivering(q, Sweep(q, window, i, cutoff, net, now).0)
    decreases |window| - i
  {
    if i < |window| {
      assert window[i] == window[i..][0];
      assert !window[i].Exhausted();
      var q1 := if window[i].enqueuedAt > cutoff then q else DeliverOne(q, window[i], net(i), now);
      DeliverOneProgress(q, d, window[i], net(i), now);
      SweepProgress(q1, d, window, i + 1, cutoff, net, now);
      ProgressTransitive(q, q1, Sweep(q1, window, i + 1, cutoff, net, now).0);
    }
  }

  lemma {:induction false} SweepDevicesProgress(q: Queue, devices: seq<DeviceId>, cutoff: int,
                                                net: (nat, nat) -> Outcome, now: int)
    requires Sound(q.table)
    ensures Undelivering(q, SweepDevices(q, devices, cutoff, net, now).0)
  {
    if devices != [] {
      var n := |devices| - 1;
      SweepDevicesProgress(q, devices[..n], cutoff, net, now);
      var q1 := SweepDevices(q, devices[..n], cutoff, net, now).0;
      var window := Window(q1.table, devices[n], SWEEP_WINDOW);
      WindowIsLive(q1.table, devices[n], SWEEP_WINDOW);
      assert window[0..] == window;
      var net1 := NetOf(net, n);
      SweepProgress(q1, devices[n], window, 0, cutoff, net1, now);
      ProgressTransitive(q, q1, Sweep(q1, window, 0, cutoff, net1, now).0);
    }
  }

  datatype Op =
    | SendOp(id: PromptId, user: UserId, device: DeviceId, text: string, connected: bool, out: Outcome, now: int)
    | FlushOp(device: DeviceId, net: nat -> Outcome, now: int)
    | ByIdOp(device: DeviceId, id: PromptId, out: Outcome, now: int)
    | SweepOp(devices: seq<DeviceId>, cutoff: int, nets: (nat, nat) -> Outcome, now: int)
    | AckOp(device: DeviceId, id: PromptId, accepted: bool, reason: string, now: int)
    | CancelOp(id: PromptId, user: UserId)

  /** A Send that the checks let through; one they refuse changes nothing. */
  ghost predicate Possible(q: Queue, op: Op) {
    op.SendOp? ==> Fresh(op.id, op.user, op.device, op.text, op.now).HasText() && !HasId(q.table, op.id)
  }

  ghost function Apply(q: Queue, op: Op): Queue {
    match op
    case SendOp(id, user, d, text, connected, out, now) => Sent(q, Fresh(id, user, d, text, now), connected, out, now)
    case FlushOp(d, net, now) => Flush(q, Window(q.table, d, CONNECT_WINDOW), 0, net, now).0
    case ByIdOp(d, id, out, now) =>
      (match Find(Window(q.table, d, CONNECT_WINDOW), id)
       case None => q
       case Some(p) => DeliverOne(q, p, out, now))
    case SweepOp(devices, cutoff, nets, now) => SweepDevices(q, devices, cutoff, nets, now).0
    case AckOp(d, id, accepted, reason, now) => q.(table := Acknowledged(q.table, d, id, accepted, reason, now))
    case CancelOp(id, user) =>
      (match CancelledTable(q.table, id, user)
       case Err(_) => q
       case Ok(t) => q.(table := t))
  }

  lemma SendProgress(q: Queue, p: Prompt, connected: bool, out: Outcome, now: int)
    requires Sound(q.table) && !HasId(q.table, p.id) && p.status == Pending && p.attempts == 0
    ensures Undelivering(q, Sent(q, p, connected, out, now))
  {
    var q1 := q.(table := q.table + [p]);
    assert q1.table[|q.table|] == p;
    assert Undelivering(q, q1);
    var out' := Outcome(connected && out.sent, out.stored);
    DeliverOneProgress(q1, p.device, p, out', now);
    ProgressTransitive(q, q1, DeliverOne(q1, p, out', now));
  }

  lemma AckProgress(q: Queue, d: DeviceId, id: PromptId, accepted: bool, reason: string, now: int)
    requires Sound(q.table)
    ensures Progress(q, q.(table := Acknowledged(q.table, d, id, accepted, reason, now)))
    ensures forall i | 0 <= i < |q.table| && q.table[i].status != Delivered ::
              Acknowledged(q.table, d, id, accepted, reason, now)[i].status == Delivered ==>
                accepted && q.table[i].device == d && q.table[i].id == id
  {
    var window := Window(q.table, d, ACK_WINDOW);
    WindowIsLive(q.table, d, ACK_WINDOW);
    FindInWindow(window, id);
    if Find(window, id).Some? {
      var p := Find(window, id).value;
      UpdateEvolves(q.table, p, Judged(p, accepted, reason, now));
    }
  }

  lemma CancelProgress(q: Queue, id: PromptId, user: UserId)
    requires Sound(q.table)
    ensures CancelledTable(q.table, id, user).Ok? ==>
      Undelivering(q, q.(table := CancelledTable(q.table, id, user).value))
  {
    FindOwnedIsRow(q.table, id, user);
    if FindOwned(q.table, id, user).Some? && FindOwned(q.table, id, user).value.Cancel().Ok? {
      var p := FindOwned(q.table, id, user).value;
      UpdateEvolves(q.table, p, p.Cancel().value);
    }
  }

  lemma OperationProgress(q: Queue, op: Op)
    requires Sound(q.table) && Possible(q, op)
    ensures Progress(q, Apply(q, op))
    ensures !op.AckOp? ==> Undelivering(q, Apply(q, op))
  {
    match op
    case SendOp(id, user, d, text, connected, out, now) =>
      SendProgress(q, Fresh(id, user, d, text, now), connected, out, now);
    case FlushOp(d, net, now) =>
      WindowIsLive(q.table, d, CONNECT_WINDOW);
      assert Window(q.table, d, CONNECT_WINDOW)[0..] == Window(q.table, d, CONNECT_WINDOW);
      FlushProgress(q, d, Window(q.table, d, CONNECT_WINDOW), 0, net, now);
    case ByIdOp(d, id, out, now) =>
      WindowIsLive(q.table, d, CONNECT_WINDOW);
      FindInWindow(Window(q.table, d, CONNECT_WINDOW), id);
      if Find(Window(q.table, d, CONNECT_WINDOW), id).Some? {
        DeliverOneProgress(q, d, Find(Window(q.table, d, CONNECT_WINDOW), id).value, out, now);
      }
    case SweepOp(devices, cutoff, nets, now) => SweepDevicesProgress(q, devices, cutoff, nets, now);
    case AckOp(d, id, accepted, reason, now) => AckProgress(q, d, id, accepted, reason, now);
    case CancelOp(id, user) => CancelProgress(q, id, user);
  }

  ghost predicate Run(qs: seq<Queue>, ops: seq<Op>) {
    && |qs| == |ops| + 1
    && forall i :: 0 <= i < |ops| ==> Possible(qs[i], ops[i]) && qs[i + 1] == Apply(qs[i], ops[i])
  }

  /**
   Over any run from an empty table: rows never disappear; identity, text and enqueue time never change; attempts
   never fall and never pass the cap; a delivered or cancelled row never changes again; and no row is ever `failed`
   (the branches that would write it are guarded by Exhausted, which no row of a window satisfies).
   */
  lemma {:induction false} RowsOnlyEvolve(qs: seq<Queue>, ops: seq<Op>, i: nat, j: nat)
    requires Run(qs, ops) && qs[0].table == [] && i <= j < |qs|
    ensures Sound(qs[i].table) && Sound(qs[j].table) && Evolves(qs[i].table, qs[j].table)
    decreases j
  {
    if i < j {
      RowsOnlyEvolve(qs, ops, i, j - 1);
      OperationProgress(qs[j - 1], ops[j - 1]);
      EvolvesTransitive(qs[i].table, qs[j - 1].table, qs[j].table);
    } else if j > 0 {
      RowsOnlyEvolve(qs, ops, j - 1, j - 1);
      OperationProgress(qs[j - 1], ops[j - 1]);
    }
  }

  // --- tables grow only by sends ---

  lemma {:induction false} FlushKeepsLength(q: Queue, window: seq<Prompt>, i: nat, net: nat -> Outcome, now: int)
    ensures |Flush(q, window, i, net, now).0.table| == |q.table|
    decreases |window| - i
  {
    if i < |window| {
      if window[i].Exhausted() {
        FlushKeepsLength(Write(q, window[i].MarkFailed(GAVE_UP), net(i).stored), window, i + 1, net, now);
      } else {
        FlushKeepsLength(DeliverOne(q, window[i], net(i), now), window, i + 1, net, now);
      }
    }
  }

  lemma {:induction false} SweepKeepsLength(q: Queue, window: seq<Prompt>, i: nat, cutoff: int,
                                            net: nat -> Outcome, now: int)
    ensures |Sweep(q, window, i, cutoff, net, now).0.table| == |q.table|
    decreases |window| - i
  {
    if i < |window| {
      if window[i].enqueuedAt > cutoff {
        SweepKeepsLength(q, window, i + 1, cutoff, net, now);
      } else if window[i].Exhausted() {
        SweepKeepsLength(Write(q, window[i].MarkFailed(GAVE_UP), net(i).stored), window, i + 1, cutoff, net, now);
      } else {
        SweepKeepsLength(DeliverOne(q, window[i], net(i), now), window, i + 1, cutoff, net, now);
      }
    }
  }

  lemma {:induction false} SweepDevicesKeepsLength(q: Queue, devices: seq<DeviceId>, cutoff: int,
                                                   net: (nat, nat) -> Outcome, now: int)
    ensures |SweepDevices(q, devices, cutoff, net, now).0.table| == |q.table|
  {
    if devices != [] {
      var n := |devices| - 1;
      SweepDevicesKeepsLength(q, devices[..n], cutoff, net, now);
      var q1 := SweepDevices(q, devices[..n], cutoff, net, now).0;
      SweepKeepsLength(q1, Window(q1.table, devices[n], SWEEP_WINDOW), 0, cutoff, NetOf(net, n), now);
    }
  }

  /** A send appends one row, enqueued at its time; no other operation adds any. */
  lemma RowsAdded(q: Queue, op: Op)
    ensures |Apply(q, op).table| == |q.table| + if op.SendOp? then 1 else 0
    ensures op.SendOp? ==> Apply(q, op).table[|q.table|].enqueuedAt == op.now
  {
    match op
    case FlushOp(d, net, now) => FlushKeepsLength(q, Window(q.table, d, CONNECT_WINDOW), 0, net, now);
    case SweepOp(devices, cutoff, nets, now) => SweepDevicesKeepsLength(q, devices, cutoff, nets, now);
    case _ =>
  }

  /** The clock advances by at least `gap` from one send to any later one. */
  ghost predicate Paced(ops: seq<Op>, gap: nat) {
    forall i, j :: 0 <= i < j < |ops| && ops[i].SendOp? && ops[j].SendOp? ==> ops[i].now + gap <= ops[j].now
  }

  ghost predicate Spaced(t: Table, gap: nat) {
    forall i, j :: 0 <= i < j < |t| ==> t[i].enqueuedAt + gap <= t[j].enqueuedAt
  }

  /** Every row of the table came from one of the first `n` operations. */
  ghost predicate SentBefore(t: Table, ops: seq<Op>, n: nat)
    requires n <= |ops|
  {
    forall i :: 0 <= i < |t| ==> exists m :: 0 <= m < n && ops[m].SendOp? && ops[m].now == t[i].enqueuedAt
  }

  lemma TimesStep(q: Queue, ops: seq<Op>, n: nat, gap: nat)
    requires n < |ops| && Paced(ops, gap) && Sound(q.table) && Possible(q, ops[n])
    requires Spaced(q.table, gap) && SentBefore(q.table, ops, n)
    ensures Spaced(Apply(q, ops[n]).table, gap) && SentBefore(Apply(q, ops[n]).table, ops, n + 1)
  {
    var t, t' := q.table, Apply(q, ops[n]).table;
    OperationProgress(q, ops[n]);
    RowsAdded(q, ops[n]);
    forall i | 0 <= i < |t'|
      ensures exists m :: 0 <= m < n + 1 && ops[m].SendOp? && ops[m].now == t'[i].enqueuedAt
    {
      if i < |t| {
        assert RowStep(t[i], t'[i]);
        var m :| 0 <= m < n && ops[m].SendOp? && ops[m].now == t[i].enqueuedAt;
      } else {
        assert ops[n].SendOp?;
      }
    }
    forall i, j | 0 <= i < j < |t'| ensures t'[i].enqueuedAt + gap <= t'[j].enqueuedAt {
      assert RowStep(t[i], t'[i]);
      if j < |t| {
        assert RowStep(t[j], t'[j]);
      } else {
        var m :| 0 <= m < n && ops[m].SendOp? && ops[m].now == t[i].enqueuedAt;
      }
    }
  }

  /** In every run whose sends the clock keeps apart, rows are enqueued in the order they are inserted. */
  lemma {:induction false} RunTimes(qs: seq<Queue>, ops: seq<Op>, n: nat, gap: nat)
    requires Run(qs, ops) && qs[0].table == [] && n < |qs| && Paced(ops, gap)
    ensures Spaced(qs[n].table, gap) && SentBefore(qs[n].table, ops, n)
  {
    if n > 0 {
      RunTimes(qs, ops, n - 1, gap);
      RowsOnlyEvolve(qs, ops, n - 1, n - 1);
      TimesStep(qs[n - 1], ops, n - 1, gap);
    }
  }

  // --- rank and the acknowledgement window ---

  /** Rows ahead of a prompt leave the queue; none joins ahead of it unless enqueued at an earlier time. */
  lemma {:induction false} AheadNeverGrows(t: Table, t': Table, n: nat, i: nat, d: DeviceId)
    requires Evolves(t, t') && i < |t| && n <= |t'|
    requires forall j :: |t| <= j < |t'| ==> t[i].enqueuedAt <= t'[j].enqueuedAt
    ensures AheadAmong(t', n, i, d) <= AheadAmong(t, if n <= |t| then n else |t|, i, d)
  {
    if n > 0 {
      AheadNeverGrows(t, t', n - 1, i, d);
      assert RowStep(t[i], t'[i]);
      if n <= |t| {
        assert RowStep(t[n - 1], t'[n - 1]);
      }
    }
  }

  /** While the clock does not run backwards from send to send, a prompt's rank never grows. */
  lemma RankNeverGrows(qs: seq<Queue>, ops: seq<Op>, i: nat, j: nat, k: nat, d: DeviceId)
    requires Run(qs, ops) && qs[0].table == [] && i <= j < |qs| && Paced(ops, 0) && k < |qs[i].table|
    ensures k < |qs[j].table| && Rank(qs[j].table, k, d) <= Rank(qs[i].table, k, d)
  {
    var t, t' := qs[i].table, qs[j].table;
    RowsOnlyEvolve(qs, ops, i, j);
    RunTimes(qs, ops, j, 0);
    assert RowStep(t[k], t'[k]);
    AheadNeverGrows(t, t', |t'|, k, d);
  }

  /** An accepting ACK turns an undelivered row `delivered` exactly when the row is eligible and among the first 100. */
  lemma AckDeliversIff(t: Table, i: nat, d: DeviceId, reason: string, now: int)
    requires Sound(t) && i < |t| && t[i].status != Delivered
    ensures Acknowledged(t, d, t[i].id, true, reason, now)[i].status == Delivered
       <==> Eligible(t[i], d) && Rank(t, i, d) < ACK_WINDOW
    ensures !(Eligible(t[i], d) && Rank(t, i, d) < ACK_WINDOW) ==> Acknowledged(t, d, t[i].id, true, reason, now) == t
  {
    InWindowIff(t, i, d, ACK_WINDOW);
  }

  /** With a clock that advances from send to send, each query of the run has one answer, and it is the window. */
  lemma RunWindows(qs: seq<Queue>, ops: seq<Op>, n: nat, d: DeviceId, limit: int, out: seq<Prompt>)
    requires Run(qs, ops) && qs[0].table == [] && n < |qs| && Paced(ops, 1)
    ensures SqlAnswer(qs[n].table, d, limit, out) <==> out == Window(qs[n].table, d, limit)
  {
    RowsOnlyEvolve(qs, ops, n, n);
    RunTimes(qs, ops, n, 1);
    WindowIsTheSqlAnswer(qs[n].table, d, limit, out);
  }

  /**
   With a clock that advances from send to send: a prompt once in the query's answer for a window of at most 100 rows,
   and still eligible, is in the answer for the acknowledgement ever after, so an accepting ACK delivers it, whatever
   was sent, swept, acknowledged or cancelled in between.
   */
  lemma WindowedPromptStaysAcknowledgeable(qs: seq<Queue>, ops: seq<Op>, i: nat, j: nat, k: nat, d: DeviceId,
                                           limit: int, out: seq<Prompt>, acks: seq<Prompt>, reason: string, now: int)
    requires Run(qs, ops) && qs[0].table == [] && Paced(ops, 1) && i <= j < |qs| && k < |qs[i].table|
    requires limit <= ACK_WINDOW && SqlAnswer(qs[i].table, d, limit, out) && qs[i].table[k] in out
    requires k < |qs[j].table| && Eligible(qs[j].table[k], d) && SqlAnswer(qs[j].table, d, ACK_WINDOW, acks)
    ensures qs[j].table[k] in acks
    ensures Acknowledged(qs[j].table, d, qs[j].table[k].id, true, reason, now)[k].status == Delivered
  {
    RowsOnlyEvolve(qs, ops, i, j);
    RunWindows(qs, ops, i, d, limit, out);
    RunWindows(qs, ops, j, d, ACK_WINDOW, acks);
    InWindowIff(qs[i].table, k, d, limit);
    RankNeverGrows(qs, ops, i, j, k, d);
    InWindowIff(qs[j].table, k, d, ACK_WINDOW);
    AckDeliversIff(qs[j].table, k, d, reason, now);
  }

  /**
   The last attempt has no acknowledgement: a row dispatched for the fifth time stays exactly as it is until the user
   cancels it, since every window leaves it out.
   */
  lemma LastAttemptIsStranded(qs: seq<Queue>, ops: seq<Op>, i: nat, j: nat, k: nat)
    requires Run(qs, ops) && qs[0].table == [] && i <= j < |qs| && k < |qs[i].table|
    requires qs[i].table[k].attempts == MAX_ATTEMPTS && qs[i].table[k].status == Dispatched
    ensures k < |qs[j].table|
    ensures qs[j].table[k] == qs[i].table[k] || qs[j].table[k] == qs[i].table[k].(status := Cancelled)
  {
    RowsOnlyEvolve(qs, ops, i, j);
    assert RowStep(qs[i].table[k], qs[j].table[k]);
  }

  /**
   A Send to a connected device dispatches its prompt at whatever rank it has. With 100 eligible rows ahead of it, the
   frame goes out and the agent's accepting ACK is dropped.
   */
  lemma DirectDispatchBeyondTheWindow(q: Queue, p: Prompt, now: int, later: int, reason: string)
    requires Sound(q.table) && !HasId(q.table, p.id) && p == Fresh(p.id, p.user, p.device, p.text, now)
    requires Rank(q.table + [p], |q.table|, p.device) >= ACK_WINDOW
    ensures var q' := Sent(q, p, true, Outcome(true, true), now);
      && q'.wire == q.wire + [FrameOf(p)]
      && q'.table == q.table + [p.MarkDispatched(now)]
      && Acknowledged(q'.table, p.device, p.id, true, reason, later) == q'.table
  {
    var q' := Sent(q, p, true, Outcome(true, true), now);
    var n := |q.table|;
    SendProgress(q, p, true, Outcome(true, true), now);
    assert q'.table == q.table + [p.MarkDispatched(now)] by {
      forall i | 0 <= i < n ensures q'.table[i] == q.table[i] {
        assert q.table[i].id != p.id;
      }
    }
    SameRank(q.table, p, p.MarkDispatched(now), p.device);
    AckDeliversIff(q'.table, n, p.device, reason, later);
  }

  lemma SameRank(t: Table, p: Prompt, p': Prompt, d: DeviceId)
    requires p'.enqueuedAt == p.enqueuedAt
    ensures Rank(t + [p'], |t|, d) == Rank(t + [p], |t|, d)
  {
    LastRank(t, p, |t|, d);
    LastRank(t, p', |t|, d);
  }

  /** What counts for the last row's rank is its time alone. */
  function NotLater(t: Table, n: nat, time: int, d: DeviceId): nat
    requires n <= |t|
  {
    if n == 0 then 0
    else NotLater(t, n - 1, time, d) + if Eligible(t[n - 1], d) && t[n - 1].enqueuedAt <= time then 1 else 0
  }

  lemma {:induction false} LastRank(t: Table, p: Prompt, n: nat, d: DeviceId)
    requires n <= |t|
    ensures AheadAmong(t + [p], n, |t|, d) == NotLater(t, n, p.enqueuedAt, d)
    ensures n == |t| ==> Rank(t + [p], |t|, d) == NotLater(t, n, p.enqueuedAt, d)
  {
    if n > 0 {
      LastRank(t, p, n - 1, d);
    }
  }
}
