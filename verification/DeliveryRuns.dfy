/** Prompt delivery end to end over every run, and what can still be done for a prompt from any state of one. */
module DeliveryRuns {
  import opened Prelude
  import P = Prompts
  import O = PromptOrder
  import R = PromptRuns
  import E = PromptEffects
  import opened AgentQueue
  import opened Delivery

  // --- the whole system ---

  ghost predicate DeliveredKept(w: World) {
    forall i :: 0 <= i < |w.queue.table| && w.queue.table[i].status == P.Delivered ==> RowKept(w, i)
  }

  ghost predicate RowKept(w: World, i: nat)
    requires i < |w.queue.table|
  {
    var row := w.queue.table[i];
    row.device in w.nodes && Kept(w.nodes[row.device].agent, Entry(row.id, row.text))
  }

  ghost predicate Inv(w: World, cap: nat) {
    && R.Sound(w.queue.table)
    && (forall k :: 0 <= k < |w.queue.wire| ==>
          R.Carries(w.queue.table, w.queue.wire[k].device, w.queue.wire[k].id, w.queue.wire[k].text))
    && (forall d :: d in w.nodes ==> NodeInv(w.nodes[d], d, w.queue.table, cap))
    && DeliveredKept(w)
  }

  lemma TableStepKeepsNode(n: Node, d: P.DeviceId, t: P.Table, t': P.Table, cap: nat)
    requires NodeInv(n, d, t, cap) && R.Evolves(t, t')
    ensures NodeInv(n, d, t', cap)
  {
    forall id, text | R.Carries(t, d, id, text) ensures R.Carries(t', d, id, text) {
      R.CarriesPersists(t, t', d, id, text);
    }
    forall k | 0 <= k < |n.agent.acks| && n.agent.acks[k].accepted ensures AckKept(n.agent, d, t', n.agent.acks[k].id) {
      var e: Entry :| R.Carries(t, d, e.id, e.text) && e.id == n.agent.acks[k].id && Kept(n.agent, e);
      assert R.Carries(t', d, e.id, e.text);
    }
  }

  lemma QueueStepKeepsRest(w: World, q': P.Queue, cap: nat)
    requires Inv(w, cap) && R.Progress(w.queue, q')
    ensures R.Sound(q'.table)
    ensures forall k :: 0 <= k < |q'.wire| ==> R.Carries(q'.table, q'.wire[k].device, q'.wire[k].id, q'.wire[k].text)
    ensures forall d :: d in w.nodes ==> NodeInv(w.nodes[d], d, q'.table, cap)
  {
    forall k | 0 <= k < |q'.wire| ensures R.Carries(q'.table, q'.wire[k].device, q'.wire[k].id, q'.wire[k].text) {
      if k < |w.queue.wire| {
        assert q'.wire[k] == w.queue.wire[k];
        R.CarriesPersists(w.queue.table, q'.table, q'.wire[k].device, q'.wire[k].id, q'.wire[k].text);
      }
    }
    forall d | d in w.nodes ensures NodeInv(w.nodes[d], d, q'.table, cap) {
      TableStepKeepsNode(w.nodes[d], d, w.queue.table, q'.table, cap);
    }
  }

  lemma BackendKeepsInv(w: World, op: R.Op, cap: nat)
    requires Inv(w, cap) && !op.AckOp? && R.Possible(w.queue, op)
    ensures Inv(w.(queue := R.Apply(w.queue, op)), cap)
  {
    var q' := R.Apply(w.queue, op);
    R.OperationProgress(w.queue, op);
    QueueStepKeepsRest(w, q', cap);
    forall i | 0 <= i < |q'.table| && q'.table[i].status == P.Delivered ensures RowKept(w.(queue := q'), i) {
      assert RowKept(w, i);
      assert R.RowStep(w.queue.table[i], q'.table[i]);
    }
  }

  lemma AckKeepsInv(w: World, d: P.DeviceId, k: nat, now: int, cap: nat)
    requires Inv(w, cap) && d in w.nodes && k < |w.nodes[d].agent.acks|
    ensures var ack := w.nodes[d].agent.acks[k];
      Inv(w.(queue := R.Apply(w.queue, R.AckOp(d, ack.id, ack.accepted, ack.reason, now))), cap)
  {
    var ack := w.nodes[d].agent.acks[k];
    var q' := R.Apply(w.queue, R.AckOp(d, ack.id, ack.accepted, ack.reason, now));
    R.AckProgress(w.queue, d, ack.id, ack.accepted, ack.reason, now);
    QueueStepKeepsRest(w, q', cap);
    forall i | 0 <= i < |q'.table| && q'.table[i].status == P.Delivered ensures RowKept(w.(queue := q'), i) {
      var row := w.queue.table[i];
      assert R.RowStep(row, q'.table[i]);
      if row.status == P.Delivered {
        assert RowKept(w, i);
      } else {
        var e: Entry :| R.Carries(w.queue.table, d, e.id, e.text) && e.id == ack.id && Kept(w.nodes[d].agent, e);
        assert R.Carries(w.queue.table, d, row.id, row.text);
        SameId(w.queue.table, d, e, Entry(row.id, row.text));
      }
    }
  }

  lemma AgentKeepsInv(w: World, s: Step, cap: nat)
    requires cap >= 1 && Inv(w, cap) && Enabled(w, s) && !s.Backend? && !s.AckArrives?
    ensures Inv(Do(w, s, cap), cap)
  {
    var w' := Do(w, s, cap);
    AgentStepKeepsNode(w.nodes[s.d], s.d, w.queue, cap, s);
    forall i | 0 <= i < |w'.queue.table| && w'.queue.table[i].status == P.Delivered ensures RowKept(w', i) {
      assert RowKept(w, i);
    }
  }

  lemma StepKeepsInv(w: World, s: Step, cap: nat)
    requires cap >= 1 && Inv(w, cap) && Enabled(w, s)
    ensures Inv(Do(w, s, cap), cap)
  {
    match s
    case Backend(op) => BackendKeepsInv(w, op, cap);
    case AckArrives(d, k, now) => AckKeepsInv(w, d, k, now, cap);
    case _ => AgentKeepsInv(w, s, cap);
  }

  lemma {:induction false} RunKeepsInv(ws: seq<World>, steps: seq<Step>, cap: nat)
    requires cap >= 1 && Run(ws, steps, cap)
    ensures forall i :: 0 <= i < |ws| ==> Inv(ws[i], cap)
  {
    for i := 0 to |steps|
      invariant forall k :: 0 <= k <= i ==> Inv(ws[k], cap)
    {
      StepKeepsInv(ws[i], steps[i], cap);
    }
  }

  /**
   No delivered prompt is lost. At every point of every run, with frames and ACKs lost, repeated and reordered, agents
   crashing and state files failing to be written: a row marked `delivered` has had its very text written to the coding
   agent, or waits in its device's queue both in memory and on disk, or was pushed out of that queue by the cap.
   */
  lemma DeliveredIsNotLost(ws: seq<World>, steps: seq<Step>, cap: nat, i: nat, k: nat)
    requires cap >= 1 && Run(ws, steps, cap) && i < |ws| && k < |ws[i].queue.table|
    requires ws[i].queue.table[k].status == P.Delivered
    ensures var row := ws[i].queue.table[k];
      row.device in ws[i].nodes && Kept(ws[i].nodes[row.device].agent, Entry(row.id, row.text))
  {
    RunKeepsInv(ws, steps, cap);
    assert RowKept(ws[i], k);
  }

  /** Every agent's queue holds each prompt once and stays within the cap. */
  lemma QueueStaysBounded(ws: seq<World>, steps: seq<Step>, cap: nat, i: nat, d: P.DeviceId)
    requires cap >= 1 && Run(ws, steps, cap) && i < |ws| && d in ws[i].nodes
    ensures Distinct(ws[i].nodes[d].agent.pending) && |ws[i].nodes[d].agent.pending| <= cap
  {
    RunKeepsInv(ws, steps, cap);
  }

  // --- delivery is always within reach ---

  ghost predicate Path(ws: seq<World>, steps: seq<Step>, cap: nat)
    requires cap >= 1
  {
    && |ws| == |steps| + 1
    && forall i :: 0 <= i < |steps| ==> Enabled(ws[i], steps[i]) && ws[i + 1] == Do(ws[i], steps[i], cap)
  }

  /** One more dispatch, recorded unless it is the fifth: the row is still eligible, its frame last on the wire. */
  lemma RedispatchedById(q: P.Queue, d: P.DeviceId, k: nat, now: int)
    requires R.Sound(q.table) && k < |q.table| && P.Eligible(q.table[k], d)
    requires O.Rank(q.table, k, d) < P.CONNECT_WINDOW
    ensures var q' := R.Apply(q, Redispatch(q.table[k], now));
      && R.Sound(q'.table) && q'.wire == q.wire + [P.FrameOf(q.table[k])]
      && |q'.table| == |q.table| && q'.table[k].id == q.table[k].id && P.Eligible(q'.table[k], d)
      && O.Rank(q'.table, k, d) < P.ACK_WINDOW
  {
    O.InWindowIff(q.table, k, d, P.CONNECT_WINDOW);
    R.OperationProgress(q, Redispatch(q.table[k], now));
    R.AheadNeverGrows(q.table, R.Apply(q, Redispatch(q.table[k], now)).table, |q.table|, k, d);
  }

  function Redispatch(row: P.Prompt, now: int): R.Op {
    R.ByIdOp(row.device, row.id, P.Outcome(true, row.attempts + 1 < P.MAX_ATTEMPTS), now)
  }

  lemma AcceptedDelivers(t: P.Table, d: P.DeviceId, k: nat, reason: string, now: int)
    requires R.Sound(t) && k < |t| && P.Eligible(t[k], d) && O.Rank(t, k, d) < P.ACK_WINDOW
    ensures var t' := P.Acknowledged(t, d, t[k].id, true, reason, now); k < |t'| && t'[k].status == P.Delivered
  {
    R.AckDeliversIff(t, k, d, reason, now);
  }

  lemma Reconnected(w: World, d: P.DeviceId, cap: nat) returns (w1: World, w2: World)
    requires cap >= 1 && d in w.nodes
    ensures Path([w, w1, w2], [Crash(d), Connect(d, false)], cap)
    ensures w2.queue == w.queue && w2.nodes.Keys == w.nodes.Keys && w2.nodes[d].phase == Serving
  {
    w1 := Do(w, Crash(d), cap);
    w2 := Do(w1, Connect(d, false), cap);
  }

  /** A frame waiting for a serving agent, injected and acknowledged. */
  lemma FrameDelivers(w: World, d: P.DeviceId, frame: nat, cap: nat, k: nat, now: int)
    returns (w1: World, w2: World, inject: Step, acknowledge: Step)
    requires cap >= 1 && R.Sound(w.queue.table) && k < |w.queue.table| && P.Eligible(w.queue.table[k], d)
    requires O.Rank(w.queue.table, k, d) < P.ACK_WINDOW
    requires d in w.nodes && w.nodes[d].phase == Serving
    requires frame < |w.queue.wire| && w.queue.wire[frame].device == d && w.queue.wire[frame].id == w.queue.table[k].id
    ensures Path([w, w1, w2], [inject, acknowledge], cap)
    ensures k < |w2.queue.table| && w2.queue.table[k].status == P.Delivered
  {
    inject := FrameArrives(d, frame, Some(AgentQueue.Written), true);
    w1 := Do(w, inject, cap);
    var acks := w1.nodes[d].agent.acks;
    assert acks[|acks| - 1] == Ack(w.queue.table[k].id, true, "");
    acknowledge := AckArrives(d, |acks| - 1, now);
    AcceptedDelivers(w.queue.table, d, k, "", now);
    w2 := Do(w1, acknowledge, cap);
  }

  /** An eligible row with room in the window: reconnect, dispatch, inject, acknowledge. */
  lemma DeliverFromWindow(w: World, cap: nat, k: nat, now: int) returns (ws: seq<World>, steps: seq<Step>)
    requires cap >= 1 && Inv(w, cap) && k < |w.queue.table|
    requires var row := w.queue.table[k];
      && row.device in w.nodes && P.Eligible(row, row.device)
      && O.Rank(w.queue.table, k, row.device) < P.CONNECT_WINDOW
    ensures Path(ws, steps, cap) && ws[0] == w && DeliveredAt(ws[|ws| - 1], k)
  {
    var row, d := w.queue.table[k], w.queue.table[k].device;
    var w1, w2 := Reconnected(w, d, cap);
    var op := Redispatch(row, now);
    var w3 := w2.(queue := R.Apply(w2.queue, op));
    assert Path([w2, w3], [Backend(op)], cap);
    RedispatchedById(w.queue, d, k, now);
    var n := |w.queue.wire|;
    assert w3.queue.wire[n] == P.FrameOf(row);
    var w4, w5, inject, acknowledge := FrameDelivers(w3, d, n, cap, k, now);
    PathJoins([w, w1, w2], [Crash(d), Connect(d, false)], [w2, w3], [Backend(op)], cap);
    ws, steps := [w, w1, w2, w3], [Crash(d), Connect(d, false), Backend(op)];
    assert ws == [w, w1, w2] + [w2, w3][1..] && steps == [Crash(d), Connect(d, false)] + [Backend(op)];
    PathJoins(ws, steps, [w3, w4, w5], [inject, acknowledge], cap);
    ws, steps := ws + [w3, w4, w5][1..], steps + [inject, acknowledge];
  }

  ghost predicate DeliveredAt(w: World, k: nat) {
    k < |w.queue.table| && w.queue.table[k].status == P.Delivered
  }

  // --- making room: rows ahead are cancelled one by one ---

  lemma {:induction false} SomeoneAhead(t: P.Table, n: nat, k: nat, d: P.DeviceId) returns (j: nat)
    requires n <= |t| && k < |t| && O.AheadAmong(t, n, k, d) > 0
    ensures j < n && P.Eligible(t[j], d) && O.Ahead(t, j, k)
  {
    j := n - 1;
    if !(P.Eligible(t[j], d) && O.Ahead(t, j, k)) {
      j := SomeoneAhead(t, n - 1, k, d);
    }
  }

  lemma {:induction false} OneFewerAhead(t: P.Table, t': P.Table, n: nat, k: nat, j: nat, d: P.DeviceId)
    requires n <= |t| == |t'| && k < |t| && j < n && P.Eligible(t[j], d) && O.Ahead(t, j, k)
    requires !P.Eligible(t'[j], d) && t'[j].enqueuedAt == t[j].enqueuedAt
    requires forall i :: 0 <= i < |t| && i != j ==> t'[i] == t[i]
    ensures O.AheadAmong(t', n, k, d) == O.AheadAmong(t, n, k, d) - 1
  {
    if j < n - 1 {
      OneFewerAhead(t, t', n - 1, k, j, d);
    } else {
      SameAhead(t, t', n - 1, k, d);
    }
  }

  lemma {:induction false} SameAhead(t: P.Table, t': P.Table, n: nat, k: nat, d: P.DeviceId)
    requires n <= |t| == |t'| && k < |t| && t[k].enqueuedAt == t'[k].enqueuedAt
    requires forall i :: 0 <= i < n ==> t'[i] == t[i]
    ensures O.AheadAmong(t', n, k, d) == O.AheadAmong(t, n, k, d)
  {
    if n > 0 {
      SameAhead(t, t', n - 1, k, d);
    }
  }

  /** Cancelling a row of the device that is ahead of row `k`. */
  lemma CancelAhead(q: P.Queue, k: nat, j: nat, d: P.DeviceId)
    requires R.Sound(q.table) && k < |q.table| && j < |q.table| && P.Eligible(q.table[j], d) && O.Ahead(q.table, j, k)
    ensures var q' := R.Apply(q, R.CancelOp(q.table[j].id, q.table[j].user));
      && |q'.table| == |q.table| && q'.table[k] == q.table[k]
      && O.Rank(q'.table, k, d) == O.Rank(q.table, k, d) - 1
  {
    var row := q.table[j];
    P.FindOwnedFinds(q.table, j);
    var t' := R.Apply(q, R.CancelOp(row.id, row.user)).table;
    assert t' == P.Updated(q.table, row.Cancel().value);
    forall i | 0 <= i < |q.table| && i != j ensures t'[i] == q.table[i] {
      assert q.table[i].id != row.id;
    }
    OneFewerAhead(q.table, t', |q.table|, k, j, d);
  }

  lemma {:induction false} RoomMade(w: World, cap: nat, k: nat, d: P.DeviceId)
    returns (ws: seq<World>, steps: seq<Step>)
    requires cap >= 1 && Inv(w, cap) && k < |w.queue.table|
    ensures Path(ws, steps, cap) && ws[0] == w
    ensures var w' := ws[|ws| - 1];
      && Inv(w', cap) && w'.nodes == w.nodes && k < |w'.queue.table| && w'.queue.table[k] == w.queue.table[k]
      && O.Rank(w'.queue.table, k, d) < P.CONNECT_WINDOW
    decreases O.Rank(w.queue.table, k, d)
  {
    if O.Rank(w.queue.table, k, d) < P.CONNECT_WINDOW {
      ws, steps := [w], [];
    } else {
      var j := SomeoneAhead(w.queue.table, |w.queue.table|, k, d);
      var step := Backend(R.CancelOp(w.queue.table[j].id, w.queue.table[j].user));
      CancelAhead(w.queue, k, j, d);
      StepKeepsInv(w, step, cap);
      var w1 := Do(w, step, cap);
      var ws1, steps1 := RoomMade(w1, cap, k, d);
      PathJoins([w, w1], [step], ws1, steps1, cap);
      ws, steps := [w, w1] + ws1[1..], [step] + steps1;
    }
  }

  /**
   From every reachable state, whatever was lost, repeated or crashed before, an eligible prompt of a known device can
   still be delivered: what is too far ahead of it is cancelled, and it is dispatched, injected and acknowledged.
   */
  lemma CanStillBeDelivered(w: World, cap: nat, k: nat, now: int) returns (ws: seq<World>, steps: seq<Step>)
    requires cap >= 1 && Inv(w, cap) && k < |w.queue.table|
    requires w.queue.table[k].device in w.nodes && P.Eligible(w.queue.table[k], w.queue.table[k].device)
    ensures Path(ws, steps, cap) && ws[0] == w && DeliveredAt(ws[|ws| - 1], k)
  {
    var ws1, steps1 := RoomMade(w, cap, k, w.queue.table[k].device);
    var ws2, steps2 := DeliverFromWindow(ws1[|ws1| - 1], cap, k, now);
    PathJoins(ws1, steps1, ws2, steps2, cap);
    ws, steps := ws1 + ws2[1..], steps1 + steps2;
  }

  // --- and nothing else is ---

  lemma StepEvolves(w: World, s: Step, cap: nat)
    requires cap >= 1 && Inv(w, cap) && Enabled(w, s)
    ensures R.Evolves(w.queue.table, Do(w, s, cap).queue.table) && Do(w, s, cap).nodes.Keys == w.nodes.Keys
  {
    match s
    case Backend(op) => R.OperationProgress(w.queue, op);
    case AckArrives(d, k, now) =>
      var ack := w.nodes[d].agent.acks[k];
      R.AckProgress(w.queue, d, ack.id, ack.accepted, ack.reason, now);
    case _ =>
  }

  lemma {:induction false} PathEvolves(ws: seq<World>, steps: seq<Step>, cap: nat, n: nat)
    requires cap >= 1 && Path(ws, steps, cap) && Inv(ws[0], cap) && n < |ws|
    ensures Inv(ws[n], cap) && R.Evolves(ws[0].queue.table, ws[n].queue.table) && ws[n].nodes.Keys == ws[0].nodes.Keys
  {
    if n > 0 {
      PathEvolves(ws, steps, cap, n - 1);
      StepKeepsInv(ws[n - 1], steps[n - 1], cap);
      StepEvolves(ws[n - 1], steps[n - 1], cap);
      R.EvolvesTransitive(ws[0].queue.table, ws[n - 1].queue.table, ws[n].queue.table);
    }
  }

  lemma DeliveredWasEligible(ws: seq<World>, steps: seq<Step>, cap: nat, k: nat)
    requires cap >= 1 && Path(ws, steps, cap) && Inv(ws[0], cap) && k < |ws[0].queue.table|
    requires ws[0].queue.table[k].status != P.Delivered && DeliveredAt(ws[|ws| - 1], k)
    ensures var row := ws[0].queue.table[k]; row.device in ws[0].nodes && P.Eligible(row, row.device)
  {
    var w, w' := ws[0], ws[|ws| - 1];
    PathEvolves(ws, steps, cap, |ws| - 1);
    assert R.RowStep(w.queue.table[k], w'.queue.table[k]);
    assert RowKept(w', k);
  }

  ghost predicate MayBecomeDelivered(w: World, cap: nat, k: nat)
    requires cap >= 1
  {
    exists ws, steps :: Path(ws, steps, cap) && ws[0] == w && DeliveredAt(ws[|ws| - 1], k)
  }

  /** At every point of every run a prompt not delivered yet may still be if and only if it is eligible. */
  lemma MayBecomeDeliveredIff(ws: seq<World>, steps: seq<Step>, cap: nat, i: nat, k: nat)
    requires cap >= 1 && Run(ws, steps, cap) && i < |ws| && k < |ws[i].queue.table|
    requires ws[i].queue.table[k].status != P.Delivered
    ensures var row := ws[i].queue.table[k];
      MayBecomeDelivered(ws[i], cap, k) <==> row.device in ws[i].nodes && P.Eligible(row, row.device)
  {
    RunKeepsInv(ws, steps, cap);
    var row := ws[i].queue.table[k];
    if row.device in ws[i].nodes && P.Eligible(row, row.device) {
      var ws', steps' := CanStillBeDelivered(ws[i], cap, k, 0);
    }
    forall ws', steps' | Path(ws', steps', cap) && ws'[0] == ws[i] && DeliveredAt(ws'[|ws'| - 1], k)
      ensures row.device in ws[i].nodes && P.Eligible(row, row.device)
    {
      DeliveredWasEligible(ws', steps', cap, k);
    }
  }

  lemma PathJoins(ws: seq<World>, steps: seq<Step>, ws': seq<World>, steps': seq<Step>, cap: nat)
    requires cap >= 1 && Path(ws, steps, cap) && Path(ws', steps', cap) && ws[|ws| - 1] == ws'[0]
    ensures Path(ws + ws'[1..], steps + steps', cap)
  {
    var all, path := ws + ws'[1..], steps + steps';
    forall i | 0 <= i < |path| ensures Enabled(all[i], path[i]) && all[i + 1] == Do(all[i], path[i], cap) {
      if i >= |steps| {
        var j := i - |steps|;
        assert path[i] == steps'[j] && all[i] == ws'[j] && all[i + 1] == ws'[j + 1];
      } else {
        assert path[i] == steps[i] && all[i] == ws[i] && all[i + 1] == ws[i + 1];
      }
    }
  }

  /** With one attempt left it cannot by dispatching again: the recorded fifth dispatch leaves every window. */
  lemma LastDispatchIsDeaf(q: P.Queue, d: P.DeviceId, k: nat, reason: string, now: int)
    requires R.Sound(q.table) && k < |q.table| && P.Eligible(q.table[k], d)
    requires q.table[k].attempts + 1 == P.MAX_ATTEMPTS && O.Rank(q.table, k, d) < P.CONNECT_WINDOW
    ensures var q' := R.Apply(q, R.ByIdOp(d, q.table[k].id, P.Outcome(true, true), now));
      && q'.wire == q.wire + [P.FrameOf(q.table[k])]
      && P.Acknowledged(q'.table, d, q.table[k].id, true, reason, now) == q'.table
  {
    var op := R.ByIdOp(d, q.table[k].id, P.Outcome(true, true), now);
    O.InWindowIff(q.table, k, d, P.CONNECT_WINDOW);
    R.OperationProgress(q, op);
    R.AckDeliversIff(R.Apply(q, op).table, k, d, reason, now);
  }

  // --- the way by the queue ---

  /** A world of one device, number 0. */
  function Alone(q: P.Queue, a: Agent, phase: Phase): World {
    World(q, map[0 := Node(a, phase)])
  }

  lemma AloneStep(q: P.Queue, a: Agent, phase: Phase, s: Step, cap: nat)
    requires cap >= 1 && Enabled(Alone(q, a, phase), s) && !s.Backend? && !s.AckArrives? && s.d == 0
    ensures var n := NodeAfter(Node(a, phase), s, cap, q.wire);
      Do(Alone(q, a, phase), s, cap) == Alone(q, n.agent, n.phase)
  {
    var w := Alone(q, a, phase);
    assert w.nodes[0 := NodeAfter(Node(a, phase), s, cap, q.wire)]
        == map[0 := NodeAfter(Node(a, phase), s, cap, q.wire)];
  }

  lemma OneStepPath(w: World, s: Step, cap: nat)
    requires cap >= 1 && Enabled(w, s)
    ensures Path([w, Do(w, s, cap)], [s], cap)
  {
  }

  lemma PathThen(ws: seq<World>, steps: seq<Step>, s: Step, cap: nat)
    requires cap >= 1 && Path(ws, steps, cap) && Enabled(ws[|ws| - 1], s)
    ensures Path(ws + [Do(ws[|ws| - 1], s, cap)], steps + [s], cap)
  {
  }

  const NOTHING := Agent([], [], [], [], [])

  function Row(text: string): P.Prompt {
    P.Prompt(0, 0, 0, text, P.Dispatched, 1, 0, Some(0), None, "")
  }

  function DeliveredRow(text: string): P.Prompt {
    P.Prompt(0, 0, 0, text, P.Delivered, 1, 0, Some(0), Some(1), "")
  }

  function SendNow(text: string): R.Op {
    R.SendOp(0, 0, 0, text, true, P.Outcome(true, true), 0)
  }

  const STORE := FrameArrives(0, 0, Some(NotAccepting), true)

  lemma SendDispatches(text: string)
    requires P.Fresh(0, 0, 0, text, 0).HasText()
    ensures R.Possible(P.Queue([], []), SendNow(text))
    ensures R.Apply(P.Queue([], []), SendNow(text)) == P.Queue([Row(text)], [P.Frame(0, 0, text, 1)])
  {
    E.SendEffect(P.Queue([], []), 0, 0, 0, text, true, P.Outcome(true, true), 0);
  }

  lemma AckDelivers(text: string)
    ensures P.Acknowledged([Row(text)], 0, 0, true, "", 1) == [DeliveredRow(text)]
  {
    var t := [Row(text)];
    assert !O.Ahead(t, 0, 0) && O.AheadAmong(t, 0, 0, 0) == 0;
    E.AckEffect(t, 0, 0, true, "", 1);
  }

  lemma StoreWhileBusy(text: string, cap: nat)
    requires cap >= 1
    ensures Handled(NOTHING, Entry(0, text), Some(NotAccepting), true, cap)
         == Agent([Entry(0, text)], [Entry(0, text)], [], [], [Ack(0, true, "")])
  {
    StoredWhileBusy(NOTHING, Entry(0, text), Some(NotAccepting), true, cap);
  }

  function Stored(text: string): Agent {
    Agent([Entry(0, text)], [Entry(0, text)], [], [], [Ack(0, true, "")])
  }

  function Injected(text: string): Agent {
    Agent([], [], [Entry(0, text)], [], [Ack(0, true, "")])
  }

  /** Sent, stored by a busy agent, and acknowledged. */
  lemma StoredAndAcknowledged(cap: nat, text: string) returns (ws: seq<World>, steps: seq<Step>)
    requires cap >= 1 && P.Fresh(0, 0, 0, text, 0).HasText()
    ensures Path(ws, steps, cap) && ws[0] == Alone(P.Queue([], []), NOTHING, Offline)
    ensures steps == [Connect(0, true), Backend(SendNow(text)), STORE, AckArrives(0, 0, 1)]
    ensures ws[4] == Alone(P.Queue([DeliveredRow(text)], [P.Frame(0, 0, text, 1)]), Stored(text), Serving)
  {
    var q, q1 := P.Queue([], []), P.Queue([Row(text)], [P.Frame(0, 0, text, 1)]);
    var w0, w1 := Alone(q, NOTHING, Offline), Alone(q, NOTHING, Serving);
    AloneStep(q, NOTHING, Offline, Connect(0, true), cap);
    OneStepPath(w0, Connect(0, true), cap);
    SendDispatches(text);
    var w2 := Alone(q1, NOTHING, Serving);
    PathThen([w0, w1], [Connect(0, true)], Backend(SendNow(text)), cap);
    AloneStep(q1, NOTHING, Serving, STORE, cap);
    StoreWhileBusy(text, cap);
    var w3 := Alone(q1, Stored(text), Serving);
    PathThen([w0, w1] + [w2], [Connect(0, true)] + [Backend(SendNow(text))], STORE, cap);
    AckDelivers(text);
    ws, steps := [w0, w1] + [w2] + [w3], [Connect(0, true)] + [Backend(SendNow(text))] + [STORE];
    PathThen(ws, steps, AckArrives(0, 0, 1), cap);
    ws, steps := ws + [Do(w3, AckArrives(0, 0, 1), cap)], steps + [AckArrives(0, 0, 1)];
  }

  /** Reconnected, and the queue drained. */
  lemma DrainedOnReconnect(q: P.Queue, cap: nat, text: string) returns (ws: seq<World>, steps: seq<Step>)
    requires cap >= 1
    ensures Path(ws, steps, cap) && ws[0] == Alone(q, Stored(text), Serving)
    ensures steps == [Disconnect(0), Connect(0, true), DrainSend(0), DrainStop(0, true)]
    ensures ws[4] == Alone(q, Injected(text), Serving)
  {
    var a, e := Stored(text), Entry(0, text);
    var a' := a.(stdin := [e]);
    assert [] + [e] == [e];
    AloneStep(q, a, Serving, Disconnect(0), cap);
    AloneStep(q, a, Offline, Connect(0, true), cap);
    AloneStep(q, a, Draining([e], 0), DrainSend(0), cap);
    AloneStep(q, a', Draining([e], 1), DrainStop(0, true), cap);
    var w0, w1, w2 := Alone(q, a, Serving), Alone(q, a, Offline), Alone(q, a, Draining([e], 0));
    var w3 := Alone(q, a', Draining([e], 1));
    OneStepPath(w0, Disconnect(0), cap);
    PathThen([w0, w1], [Disconnect(0)], Connect(0, true), cap);
    PathThen([w0, w1] + [w2], [Disconnect(0)] + [Connect(0, true)], DrainSend(0), cap);
    ws, steps := [w0, w1] + [w2] + [w3], [Disconnect(0)] + [Connect(0, true)] + [DrainSend(0)];
    PathThen(ws, steps, DrainStop(0, true), cap);
    ws, steps := ws + [Do(w3, DrainStop(0, true), cap)], steps + [DrainStop(0, true)];
  }

  /** A prompt that finds the coding agent busy: stored, acknowledged, and injected when the agent connects again. */
  lemma DeliveredByWayOfTheQueue(cap: nat, text: string) returns (ws: seq<World>, steps: seq<Step>)
    requires cap >= 1 && P.Fresh(0, 0, 0, text, 0).HasText()
    ensures Run(ws, steps, cap)
    ensures steps == [Connect(0, true), Backend(SendNow(text)), STORE, AckArrives(0, 0, 1)]
                     + [Disconnect(0), Connect(0, true), DrainSend(0), DrainStop(0, true)]
    ensures var q := P.Queue([DeliveredRow(text)], [P.Frame(0, 0, text, 1)]);
      ws[4] == Alone(q, Stored(text), Serving) && ws[8] == Alone(q, Injected(text), Serving)
  {
    var ws1, steps1 := StoredAndAcknowledged(cap, text);
    var ws2, steps2 := DrainedOnReconnect(ws1[4].queue, cap, text);
    PathJoins(ws1, steps1, ws2, steps2, cap);
    ws, steps := ws1 + ws2[1..], steps1 + steps2;
  }
}
