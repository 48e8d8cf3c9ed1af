/**
 The backend's prompt queue: one table row a prompt, the statements on the table, and the service operations that
 dispatch, acknowledge and cancel (backend/internal/app/prompt.go, backend/internal/domain/prompt.go,
 backend/internal/adapter/postgres/queue_store.go).
 */
module Prompts {
  import opened Prelude
  import Paging

  type PromptId = nat
  type DeviceId = nat
  type UserId = nat

  datatype Status = Pending | Dispatched | Delivered | Failed | Cancelled {
    predicate Terminal() {
      Delivered? || Failed? || Cancelled?
    }
  }

  const MAX_ATTEMPTS: nat := 5
  const MAX_PROMPT_LENGTH: nat := 32 * 1024

  datatype Problem = NotFound | Revoked | InvalidText | Conflict | DeviceOffline | Database

  datatype Prompt = Prompt(
    id: PromptId, user: UserId, device: DeviceId, text: string, status: Status, attempts: nat,
    enqueuedAt: int, dispatchedAt: Option<int>, deliveredAt: Option<int>, error: string)
  {
    predicate Exhausted() {
      attempts >= MAX_ATTEMPTS
    }

    function MarkDispatched(now: int): Prompt {
      this.(status := Dispatched, attempts := attempts + 1, dispatchedAt := Some(now))
    }

    function MarkDelivered(now: int): Prompt {
      if status == Delivered then this else this.(status := Delivered, deliveredAt := Some(now))
    }

    function MarkFailed(reason: string): Prompt {
      this.(status := Failed, error := reason)
    }

    function Cancel(): Result<Prompt, Problem> {
      if status.Terminal() then Err(Conflict) else Ok(this.(status := Cancelled))
    }

    predicate HasText() {
      !Blank(text) && |text| <= MAX_PROMPT_LENGTH
    }
  }

  // --- the table, rows in the order they were inserted ---

  type Table = seq<Prompt>

  predicate UniqueIds(t: seq<Prompt>) {
    forall i, j :: 0 <= i < j < |t| ==> t[i].id != t[j].id
  }

  predicate HasId(t: Table, id: PromptId) {
    exists i :: 0 <= i < |t| && t[i].id == id
  }

  /** The columns Update writes, on the row with the prompt's id. */
  function Updated(t: Table, p: Prompt): (t': Table)
    ensures |t'| == |t|
  {
    seq(|t|, i requires 0 <= i < |t| =>
      if t[i].id == p.id
      then t[i].(status := p.status, attempts := p.attempts, dispatchedAt := p.dispatchedAt,
                 deliveredAt := p.deliveredAt, error := p.error)
      else t[i])
  }

  predicate Eligible(p: Prompt, d: DeviceId) {
    p.device == d && (p.status == Pending || p.status == Dispatched) && p.attempts < MAX_ATTEMPTS
  }

  /** Where a row of this enqueue time goes in a list already in order: after all that are not later. */
  function Slot(ps: seq<Prompt>, time: int): (k: nat)
    ensures k <= |ps|
  {
    if ps == [] then 0
    else if ps[|ps| - 1].enqueuedAt <= time then |ps|
    else Slot(ps[..|ps| - 1], time)
  }

  function Insert(ps: seq<Prompt>, p: Prompt): (r: seq<Prompt>)
    ensures |r| == |ps| + 1
  {
    var k := Slot(ps, p.enqueuedAt);
    ps[..k] + [p] + ps[k..]
  }

  /** The device's eligible rows by enqueue time; rows of one time stay as they were inserted. */
  function EligibleFor(t: Table, d: DeviceId): (r: seq<Prompt>)
    ensures |r| <= |t|
  {
    if t == [] then []
    else
      var rest := EligibleFor(t[..|t| - 1], d);
      if Eligible(t[|t| - 1], d) then Insert(rest, t[|t| - 1]) else rest
  }

  /** PendingForDevice: the device's eligible rows, oldest first, as many as the clamped limit allows. */
  function Window(t: Table, d: DeviceId, limit: int): seq<Prompt> {
    var all := EligibleFor(t, d);
    all[..Min(Paging.Clamp(limit), |all|)]
  }

  const CONNECT_WINDOW := 50
  const SWEEP_WINDOW := 20
  const ACK_WINDOW := 100

  // --- the operations, as functions of table and wire ---

  /** A PROMPT frame: which prompt, its text, and the attempt it says it is. */
  datatype Frame = Frame(device: DeviceId, id: PromptId, text: string, attempt: nat)

  /** What the world answers while one frame goes out: was it queued on the socket, was the attempt recorded. */
  datatype Outcome = Outcome(sent: bool, stored: bool)

  datatype Queue = Queue(table: Table, wire: seq<Frame>)

  function FrameOf(p: Prompt): Frame {
    Frame(p.device, p.id, p.text, p.attempts + 1)
  }

  function Write(q: Queue, p: Prompt, stored: bool): Queue {
    if stored then q.(table := Updated(q.table, p)) else q
  }

  function DeliverOne(q: Queue, p: Prompt, out: Outcome, now: int): Queue {
    if !out.sent then q
    else Write(q.(wire := q.wire + [FrameOf(p)]), p.MarkDispatched(now), out.stored)
  }

  /** The committed row, then the immediate attempt when the device is connected here. */
  function Sent(q: Queue, p: Prompt, connected: bool, out: Outcome, now: int): Queue {
    DeliverOne(q.(table := q.table + [p]), p, Outcome(connected && out.sent, out.stored), now)
  }

  const GAVE_UP := "exceeded maximum delivery attempts"

  /** The flush on connect, from row `i` of the window on: it stops at the first frame the socket refuses. */
  function Flush(q: Queue, window: seq<Prompt>, i: nat, net: nat -> Outcome, now: int): (Queue, nat)
    decreases |window| - i
  {
    if i >= |window| then (q, 0)
    else if window[i].Exhausted() then
      Flush(Write(q, window[i].MarkFailed(GAVE_UP), net(i).stored), window, i + 1, net, now)
    else if !net(i).sent then (q, 0)
    else
      var (q', n) := Flush(DeliverOne(q, window[i], net(i), now), window, i + 1, net, now);
      (q', n + 1)
  }

  /** The sweep over one device's window: recent rows are skipped, and a refused frame does not stop it. */
  function Sweep(q: Queue, window: seq<Prompt>, i: nat, cutoff: int, net: nat -> Outcome, now: int): (Queue, nat)
    decreases |window| - i
  {
    if i >= |window| then (q, 0)
    else if window[i].enqueuedAt > cutoff then Sweep(q, window, i + 1, cutoff, net, now)
    else if window[i].Exhausted() then
      Sweep(Write(q, window[i].MarkFailed(GAVE_UP), net(i).stored), window, i + 1, cutoff, net, now)
    else
      var (q', n) := Sweep(DeliverOne(q, window[i], net(i), now), window, i + 1, cutoff, net, now);
      (q', if net(i).sent then n + 1 else n)
  }

  /** What the world answers while the j-th device is swept. */
  function NetOf(net: (nat, nat) -> Outcome, j: nat): nat -> Outcome {
    (i: nat) => net(j, i)
  }

  function SweepDevices(q: Queue, devices: seq<DeviceId>, cutoff: int, net: (nat, nat) -> Outcome, now: int)
    : (Queue, nat)
  {
    if devices == [] then (q, 0)
    else
      var (q1, n1) := SweepDevices(q, devices[..|devices| - 1], cutoff, net, now);
      var d := devices[|devices| - 1];
      var (q2, n2) := Sweep(q1, Window(q1.table, d, SWEEP_WINDOW), 0, cutoff, NetOf(net, |devices| - 1), now);
      (q2, n1 + n2)
  }

  function Find(window: seq<Prompt>, id: PromptId): Option<Prompt> {
    if window == [] then None
    else if window[0].id == id then Some(window[0])
    else Find(window[1..], id)
  }

  /** The row an acknowledgement writes. */
  function Judged(p: Prompt, accepted: bool, reason: string, now: int): Prompt {
    if accepted then p.MarkDelivered(now)
    else if p.Exhausted() then p.MarkFailed(reason)
    else p.(status := Pending)
  }

  function Acknowledged(t: Table, d: DeviceId, id: PromptId, accepted: bool, reason: string, now: int): Table {
    match Find(Window(t, d, ACK_WINDOW), id)
    case None => t
    case Some(p) => Updated(t, Judged(p, accepted, reason, now))
  }

  function FindOwned(t: Table, id: PromptId, user: UserId): Option<Prompt> {
    if t == [] then None
    else if t[0].id == id && t[0].user == user then Some(t[0])
    else FindOwned(t[1..], id, user)
  }

  function CancelledTable(t: Table, id: PromptId, user: UserId): Result<Table, Problem> {
    match FindOwned(t, id, user)
    case None => Err(NotFound)
    case Some(p) =>
      match p.Cancel()
      case Err(e) => Err(e)
      case Ok(p') => Ok(Updated(t, p'))
  }

  function Fresh(id: PromptId, user: UserId, device: DeviceId, text: string, now: int): Prompt {
    Prompt(id, user, device, text, Pending, 0, now, None, None, "")
  }

  // --- the service ---

  class PromptService {
    var table: Table
    var wire: seq<Frame>

    ghost function State(): Queue
      reads this
    {
      Queue(table, wire)
    }

    constructor ()
      ensures table == [] && wire == []
    {
      table, wire := [], [];
    }

    /** `inserted` is whether the database carries out an INSERT that the primary key allows. */
    method Enqueue(p: Prompt, inserted: bool) returns (r: Result<(), Problem>)
      modifies this
      ensures r.Ok? <==> !Blank(p.text) && |p.text| <= 32768 && !HasId(old(table), p.id) && inserted
      ensures table == if r.Ok? then old(table) + [p] else old(table)
      ensures wire == old(wire)
    {
      if !p.HasText() {
        return Err(InvalidText);
      }
      if HasId(table, p.id) {
        return Err(Conflict);
      }
      if !inserted {
        return Err(Database);
      }
      table := table + [p];
      return Ok(());
    }

    method Update(p: Prompt) returns (r: Result<(), Problem>)
      modifies this
      ensures r.Ok? <==> HasId(old(table), p.id)
      ensures table == Updated(old(table), p) && wire == old(wire)
    {
      if !HasId(table, p.id) {
        assert Updated(table, p) == table;
        return Err(NotFound);
      }
      table := Updated(table, p);
      return Ok(());
    }

    method PendingForDevice(d: DeviceId, limit: int) returns (out: seq<Prompt>)
      ensures out == Window(table, d, limit)
    {
      var rows := Select(d, Paging.Clamp(limit));
      out := [];
      for i := 0 to |rows|
        invariant out == rows[..i]
      {
        out := out + [rows[i]];
      }
      assert out == rows;
    }

    /** SELECT … ORDER BY enqueued_at ASC LIMIT `n`. */
    method Select(d: DeviceId, n: nat) returns (rows: seq<Prompt>)
      ensures var all := EligibleFor(table, d); rows == all[..Min(n, |all|)]
    {
      rows := [];
      for i := 0 to |table|
        invariant rows == EligibleFor(table[..i], d)
      {
        EligibleStep(table, i, d);
        if Eligible(table[i], d) {
          rows := Insert(rows, table[i]);
        }
      }
      assert table[..|table|] == table;
      if |rows| > n {
        rows := rows[..n];
      }
    }

    method Deliver(p: Prompt, out: Outcome, now: int) returns (r: Result<(), Problem>)
      modifies this
      ensures r == if out.sent then Ok(()) else Err(DeviceOffline)
      ensures State() == DeliverOne(old(State()), p, out, now)
    {
      if !out.sent {
        return Err(DeviceOffline);
      }
      wire := wire + [FrameOf(p)];
      if out.stored {
        var _ := Update(p.MarkDispatched(now));
      }
      return Ok(());
    }

    /** Commit first, then one attempt on the local socket; `signalled` says whether other instances were told. */
    method Send(id: PromptId, user: UserId, device: DeviceId, text: string, owned: Option<bool>,
                inserted: bool, connected: bool, out: Outcome, now: int)
      returns (r: Result<Prompt, Problem>, signalled: bool)
      modifies this
      ensures owned == None ==> r == Err(NotFound)
      ensures owned == Some(true) ==> r == Err(Revoked)
      ensures r.Ok? <==>
        owned == Some(false) && !Blank(text) && |text| <= 32768 && !HasId(old(table), id) && inserted
      ensures r.Ok? ==> r.value == Fresh(id, user, device, text, now) && signalled == !(connected && out.sent)
      ensures r.Ok? ==> State() == Sent(old(State()), r.value, connected, out, now)
      ensures r.Err? ==> State() == old(State()) && !signalled
    {
      signalled := false;
      match owned
      case None => return Err(NotFound), false;
      case Some(revoked) =>
        if revoked {
          return Err(Revoked), false;
        }
        var p := Fresh(id, user, device, text, now);
        if !p.HasText() {
          return Err(InvalidText), false;
        }
        var e := Enqueue(p, inserted);
        if e.Err? {
          return Err(e.error), false;
        }
        if connected {
          var d := Deliver(p, out, now);
          if d.Ok? {
            return Ok(p), false;
          }
        }
        return Ok(p), true;
    }

    method DeliverPending(d: DeviceId, net: nat -> Outcome, now: int) returns (delivered: nat)
      modifies this
      ensures (State(), delivered) == Flush(old(State()), Window(old(table), d, CONNECT_WINDOW), 0, net, now)
    {
      var pending := PendingForDevice(d, CONNECT_WINDOW);
      delivered := 0;
      ghost var whole := Flush(State(), pending, 0, net, now);
      for i := 0 to |pending|
        invariant var (q, n) := Flush(State(), pending, i, net, now); whole == (q, delivered + n)
      {
        var p := pending[i];
        if p.Exhausted() {
          if net(i).stored {
            var _ := Update(p.MarkFailed(GAVE_UP));
          }
          continue;
        }
        var r := Deliver(p, net(i), now);
        if r.Err? {
          break;
        }
        delivered := delivered + 1;
      }
    }

    method DeliverById(d: DeviceId, id: PromptId, out: Outcome, now: int) returns (r: Result<(), Problem>)
      modifies this
      ensures State() == match Find(Window(old(table), d, CONNECT_WINDOW), id)
        case None => old(State())
        case Some(p) => DeliverOne(old(State()), p, out, now)
      ensures r.Err? <==> Find(Window(old(table), d, CONNECT_WINDOW), id).Some? && !out.sent
    {
      var pending := PendingForDevice(d, CONNECT_WINDOW);
      for i := 0 to |pending|
        invariant State() == old(State())
        invariant Find(pending, id) == Find(pending[i..], id)
      {
        if pending[i].id == id {
          r := Deliver(pending[i], out, now);
          return;
        }
      }
      return Ok(());
    }

    method Acknowledge(d: DeviceId, id: PromptId, accepted: bool, reason: string, now: int)
      modifies this
      ensures table == Acknowledged(old(table), d, id, accepted, reason, now) && wire == old(wire)
    {
      var pending := PendingForDevice(d, ACK_WINDOW);
      for i := 0 to |pending|
        invariant State() == old(State())
        invariant Find(pending, id) == Find(pending[i..], id)
      {
        var p := pending[i];
        if p.id != id {
          continue;
        }
        if accepted {
          p := p.MarkDelivered(now);
        } else if p.Exhausted() {
          p := p.MarkFailed(reason);
        } else {
          p := p.(status := Pending);
        }
        var _ := Update(p);
        return;
      }
    }

    method Cancel(id: PromptId, user: UserId) returns (r: Result<(), Problem>)
      modifies this
      ensures wire == old(wire)
      ensures match CancelledTable(old(table), id, user)
        case Err(e) => r == Err(e) && table == old(table)
        case Ok(t) => r.Ok? && table == t
    {
      var prompt := FindOwned(table, id, user);
      if prompt.None? {
        return Err(NotFound);
      }
      var cancelled := prompt.value.Cancel();
      if cancelled.Err? {
        return Err(cancelled.error);
      }
      FindOwnedIsRow(table, id, user);
      r := Update(cancelled.value);
    }

    method ReconcilePending(devices: seq<DeviceId>, olderThan: int, net: (nat, nat) -> Outcome, now: int)
      returns (redelivered: nat)
      modifies this
      ensures (State(), redelivered) == SweepDevices(old(State()), devices, now - olderThan, net, now)
    {
      redelivered := 0;
      for k := 0 to |devices|
        invariant (State(), redelivered) == SweepDevices(old(State()), devices[..k], now - olderThan, net, now)
      {
        assert devices[..k + 1][..k] == devices[..k];
        var n := SweepDevice(devices[k], now - olderThan, NetOf(net, k), now);
        redelivered := redelivered + n;
      }
      assert devices[..|devices|] == devices;
    }

    /** The inner loop of the sweep. */
    method SweepDevice(d: DeviceId, cutoff: int, net: nat -> Outcome, now: int) returns (redelivered: nat)
      modifies this
      ensures (State(), redelivered) == Sweep(old(State()), Window(old(table), d, SWEEP_WINDOW), 0, cutoff, net, now)
    {
      var pending := PendingForDevice(d, SWEEP_WINDOW);
      redelivered := 0;
      ghost var whole := Sweep(State(), pending, 0, cutoff, net, now);
      for i := 0 to |pending|
        invariant var (q, n) := Sweep(State(), pending, i, cutoff, net, now); whole == (q, redelivered + n)
      {
        var p := pending[i];
        if p.enqueuedAt > cutoff {
          continue;
        }
        if p.Exhausted() {
          if net(i).stored {
            var _ := Update(p.MarkFailed(GAVE_UP));
          }
          continue;
        }
        var r := Deliver(p, net(i), now);
        if r.Ok? {
          redelivered := redelivered + 1;
        }
      }
    }
  }

  // --- facts about windows ---

  lemma EligibleStep(t: Table, i: nat, d: DeviceId)
    requires i < |t|
    ensures EligibleFor(t[..i + 1], d)
         == if Eligible(t[i], d) then Insert(EligibleFor(t[..i], d), t[i]) else EligibleFor(t[..i], d)
  {
    assert t[..i + 1][..i] == t[..i];
  }

  lemma {:induction false} FindOwnedIsRow(t: Table, id: PromptId, user: UserId)
    ensures var found := FindOwned(t, id, user);
      found.Some? ==> found.value in t && found.value.id == id && HasId(t, id)
  {
    if t != [] && !(t[0].id == id && t[0].user == user) {
      FindOwnedIsRow(t[1..], id, user);
      if HasId(t[1..], id) {
        var i :| 0 <= i < |t[1..]| && t[1..][i].id == id;
        assert t[i + 1].id == id;
      }
    }
  }

  lemma {:induction false} FindOwnedFinds(t: Table, i: nat)
    requires UniqueIds(t) && i < |t|
    ensures FindOwned(t, t[i].id, t[i].user) == Some(t[i])
  {
    if i > 0 {
      assert t[0].id != t[i].id && t[1..][i - 1] == t[i];
      FindOwnedFinds(t[1..], i - 1);
    }
  }
}
