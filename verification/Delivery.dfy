/**
 Prompt delivery end to end: the backend's queue, every device's agent, and between them a link on which a frame once
 sent may arrive any number of times, in any order, or never. Frames and ACKs are therefore kept for good once sent,
 and each arrival step picks any of them.

 An agent handles frames only after the drain that follows its handshake has ended, because the connection serves
 frames after OnConnected returns (agent/internal/transport/client.go:276-284).
 */
module Delivery {
  import opened Prelude
  import P = Prompts
  import R = PromptRuns
  import opened AgentQueue

  datatype Phase = Offline | Draining(snapshot: seq<Entry>, injected: nat) | Serving

  datatype Node = Node(agent: Agent, phase: Phase)

  datatype World = World(queue: P.Queue, nodes: map<P.DeviceId, Node>)

  datatype Step =
    | Backend(op: R.Op)                                             // any service operation but an ACK's
    | AckArrives(d: P.DeviceId, k: nat, now: int)                   // the k-th ACK the device ever sent
    | Connect(d: P.DeviceId, session: bool)
    | DrainSend(d: P.DeviceId)                                      // the adapter took the next queued prompt
    | DrainStop(d: P.DeviceId, persisted: bool)
    | FrameArrives(d: P.DeviceId, k: nat, adapter: Option<Injection>, persisted: bool)
    | StateSaved(d: P.DeviceId)     // another update of the state file, which holds all of it
    | Disconnect(d: P.DeviceId)
    | Crash(d: P.DeviceId)                                          // the process dies; memory is reloaded from disk

  ghost predicate Enabled(w: World, s: Step) {
    match s
    case Backend(op) => !op.AckOp? && R.Possible(w.queue, op)
    case AckArrives(d, k, _) => d in w.nodes && k < |w.nodes[d].agent.acks|
    case Connect(d, _) => d in w.nodes && w.nodes[d].phase.Offline?
    case DrainSend(d) =>
      d in w.nodes && w.nodes[d].phase.Draining? && w.nodes[d].phase.injected < |w.nodes[d].phase.snapshot|
    case DrainStop(d, _) => d in w.nodes && w.nodes[d].phase.Draining?
    case FrameArrives(d, k, _, _) =>
      d in w.nodes && w.nodes[d].phase.Serving? && k < |w.queue.wire| && w.queue.wire[k].device == d
    case StateSaved(d) => d in w.nodes
    case Disconnect(d) => d in w.nodes && w.nodes[d].phase.Serving?
    case Crash(d) => d in w.nodes
  }

  function NodeAfter(n: Node, s: Step, cap: nat, wire: seq<P.Frame>): Node
    requires cap >= 1
    requires s.DrainSend? ==> n.phase.Draining? && n.phase.injected < |n.phase.snapshot|
    requires s.DrainStop? ==> n.phase.Draining?
    requires s.FrameArrives? ==> s.k < |wire|
  {
    match s
    case Connect(_, session) =>
      n.(phase := if session && n.agent.pending != [] then Draining(n.agent.pending, 0) else Serving)
    case DrainSend(_) =>
      Node(n.agent.(stdin := n.agent.stdin + [n.phase.snapshot[n.phase.injected]]),
           n.phase.(injected := n.phase.injected + 1))
    case DrainStop(_, persisted) => Node(Drained(n.agent, n.phase.injected, persisted), Serving)
    case FrameArrives(_, k, adapter, persisted) =>
      n.(agent := Handled(n.agent, Entry(wire[k].id, wire[k].text), adapter, persisted, cap))
    case StateSaved(_) => n.(agent := n.agent.(disk := n.agent.pending))
    case Disconnect(_) => n.(phase := Offline)
    case Crash(_) => Node(n.agent.(pending := n.agent.disk), Offline)
    case _ => n
  }

  ghost function Do(w: World, s: Step, cap: nat): World
    requires cap >= 1 && Enabled(w, s)
  {
    match s
    case Backend(op) => w.(queue := R.Apply(w.queue, op))
    case AckArrives(d, k, now) =>
      var ack := w.nodes[d].agent.acks[k];
      w.(queue := R.Apply(w.queue, R.AckOp(d, ack.id, ack.accepted, ack.reason, now)))
    case _ => w.(nodes := w.nodes[s.d := NodeAfter(w.nodes[s.d], s, cap, w.queue.wire)])
  }

  ghost predicate Init(w: World) {
    && w.queue == P.Queue([], [])
    && forall d :: d in w.nodes ==> w.nodes[d] == Node(Agent([], [], [], [], []), Offline)
  }

  ghost predicate Run(ws: seq<World>, steps: seq<Step>, cap: nat)
    requires cap >= 1
  {
    && |ws| == |steps| + 1 && Init(ws[0])
    && forall i :: 0 <= i < |steps| ==> Enabled(ws[i], steps[i]) && ws[i + 1] == Do(ws[i], steps[i], cap)
  }

  /**
   A connection that comes back drains the queue in memory, one after a crash the queue on disk, and one after a crash
   that followed another write of the state file what was in memory; with no session or nothing queued it serves
   frames at once. The agent's other records stay.
   */
  lemma ReconnectEffect(n: Node, d: P.DeviceId, session: bool, cap: nat, wire: seq<P.Frame>)
    requires cap >= 1
    ensures var lost := NodeAfter(n, Disconnect(d), cap, wire);
      var back := NodeAfter(lost, Connect(d, session), cap, wire);
      && lost == Node(n.agent, Offline) && back.agent == n.agent
      && back.phase == if session && n.agent.pending != [] then Draining(n.agent.pending, 0) else Serving
    ensures var back := NodeAfter(NodeAfter(n, Crash(d), cap, wire), Connect(d, session), cap, wire);
      && back.agent == Agent(n.agent.disk, n.agent.disk, n.agent.stdin, n.agent.evicted, n.agent.acks)
      && back.phase == if session && n.agent.disk != [] then Draining(n.agent.disk, 0) else Serving
    ensures var saved := NodeAfter(n, StateSaved(d), cap, wire);
      saved == Node(n.agent.(disk := n.agent.pending), n.phase)
      && NodeAfter(saved, Crash(d), cap, wire) == Node(saved.agent, Offline)
  {
  }

  // --- one agent ---

  /** Handed to the coding agent, queued in memory and on disk, or pushed out by the cap. */
  ghost predicate Kept(a: Agent, e: Entry) {
    e in a.stdin || e in a.evicted || (e in a.pending && e in a.disk)
  }

  /** Every prompt the agent knows of is one the backend has, for this device, with this text. */
  ghost predicate Genuine(t: P.Table, d: P.DeviceId, es: seq<Entry>) {
    forall e :: e in es ==> R.Carries(t, d, e.id, e.text)
  }

  ghost predicate NodeInv(n: Node, d: P.DeviceId, t: P.Table, cap: nat) {
    var a := n.agent;
    && Distinct(a.pending) && |a.pending| <= cap && Distinct(a.disk) && |a.disk| <= cap
    && Genuine(t, d, a.pending) && Genuine(t, d, a.disk)
    && (n.phase.Draining? ==>
          && n.phase.snapshot == a.pending && n.phase.injected <= |a.pending|
          && (forall i :: 0 <= i < n.phase.injected ==> a.pending[i] in a.stdin))
    && (forall k :: 0 <= k < |a.acks| && a.acks[k].accepted ==> AckKept(a, d, t, a.acks[k].id))
  }

  ghost predicate AckKept(a: Agent, d: P.DeviceId, t: P.Table, id: nat) {
    exists e: Entry :: R.Carries(t, d, e.id, e.text) && e.id == id && Kept(a, e)
  }

  lemma QueuedShape(a: Agent, e: Entry, cap: nat, persisted: bool)
    requires cap >= 1 && Distinct(a.pending) && |a.pending| <= cap
    ensures Distinct(Queued(a, e, cap, persisted).pending) && |Queued(a, e, cap, persisted).pending| <= cap
    ensures forall x :: x in Queued(a, e, cap, persisted).pending ==> x in a.pending || x == e
    ensures Holds(Queued(a, e, cap, persisted).pending, e.id)
  {
    var q := Queued(a, e, cap, persisted).pending;
    if !Holds(a.pending, e.id) {
      assert q[|q| - 1] == e;
    }
  }

  lemma SameId(t: P.Table, d: P.DeviceId, x: Entry, y: Entry)
    requires P.UniqueIds(t) && R.Carries(t, d, x.id, x.text) && R.Carries(t, d, y.id, y.text) && x.id == y.id
    ensures x == y
  {
  }

  /** A queued prompt is kept, under the very text the frame carried. */
  lemma QueuedHolds(a: Agent, e: Entry, cap: nat, d: P.DeviceId, t: P.Table)
    requires cap >= 1 && P.UniqueIds(t) && Genuine(t, d, a.pending) && R.Carries(t, d, e.id, e.text)
    requires Distinct(a.pending) && |a.pending| <= cap
    ensures Kept(Queued(a, e, cap, true), e)
  {
    var a' := Queued(a, e, cap, true);
    QueuedShape(a, e, cap, true);
    var i :| 0 <= i < |a'.pending| && a'.pending[i].id == e.id;
    SameId(t, d, a'.pending[i], e);
  }

  /** Once kept, always kept: by an agent step that keeps every entry and only adds ACKs that hold. */
  lemma AcksStayKept(a: Agent, a': Agent, d: P.DeviceId, t: P.Table, k: nat)
    requires k < |a.acks| && AckKept(a, d, t, a.acks[k].id)
    requires forall e :: Kept(a, e) ==> Kept(a', e)
    ensures AckKept(a', d, t, a.acks[k].id)
  {
    var e: Entry :| R.Carries(t, d, e.id, e.text) && e.id == a.acks[k].id && Kept(a, e);
    assert Kept(a', e);
  }

  lemma HandledKeepsEntries(a: Agent, cap: nat, e: Entry, adapter: Option<Injection>, persisted: bool, other: Entry)
    requires cap >= 1 && Kept(a, other)
    ensures Kept(Handled(a, e, adapter, persisted, cap), other)
  {
  }

  lemma AcceptedIsKept(a: Agent, d: P.DeviceId, t: P.Table, cap: nat, e: Entry, adapter: Option<Injection>,
                       persisted: bool)
    requires cap >= 1 && P.UniqueIds(t) && Genuine(t, d, a.pending) && R.Carries(t, d, e.id, e.text)
    requires Distinct(a.pending) && |a.pending| <= cap
    ensures var a' := Handled(a, e, adapter, persisted, cap);
      && |a'.acks| == |a.acks| + 1 && a'.acks[..|a.acks|] == a.acks && a'.acks[|a.acks|].id == e.id
      && (a'.acks[|a.acks|].accepted ==> Kept(a', e))
  {
    if persisted {
      QueuedHolds(a, e, cap, d, t);
    }
  }

  lemma HandledKeepsNode(n: Node, d: P.DeviceId, t: P.Table, cap: nat, e: Entry, adapter: Option<Injection>,
                         persisted: bool)
    requires cap >= 1 && P.UniqueIds(t) && NodeInv(n, d, t, cap) && !n.phase.Draining?
    requires R.Carries(t, d, e.id, e.text)
    ensures NodeInv(n.(agent := Handled(n.agent, e, adapter, persisted, cap)), d, t, cap)
  {
    var a, a' := n.agent, Handled(n.agent, e, adapter, persisted, cap);
    QueuedShape(a, e, cap, persisted);
    forall other | Kept(a, other) ensures Kept(a', other) {
      HandledKeepsEntries(a, cap, e, adapter, persisted, other);
    }
    AcceptedIsKept(a, d, t, cap, e, adapter, persisted);
    forall k | 0 <= k < |a'.acks| && a'.acks[k].accepted ensures AckKept(a', d, t, a'.acks[k].id) {
      if k < |a.acks| {
        assert a'.acks[k] == a.acks[k];
        AcksStayKept(a, a', d, t, k);
      }
    }
  }

  lemma DrainedKeepsEntries(n: Node, d: P.DeviceId, t: P.Table, cap: nat, persisted: bool, e: Entry)
    requires NodeInv(n, d, t, cap) && n.phase.Draining? && Kept(n.agent, e)
    ensures Kept(Drained(n.agent, n.phase.injected, persisted), e)
  {
    var a := n.agent;
    if e in a.pending {
      var i :| 0 <= i < |a.pending| && a.pending[i] == e;
      if i >= n.phase.injected {
        assert a.pending[n.phase.injected..][i - n.phase.injected] == e;
      }
    }
  }

  /** Every step of an agent keeps its invariant and forgets no entry it kept. */
  lemma AgentStepKeepsNode(n: Node, d: P.DeviceId, q: P.Queue, cap: nat, s: Step)
    requires cap >= 1 && P.UniqueIds(q.table) && NodeInv(n, d, q.table, cap)
    requires s.Connect? || s.Disconnect? || s.Crash? || s.StateSaved? || (s.DrainStop? && n.phase.Draining?)
          || (s.DrainSend? && n.phase.Draining? && n.phase.injected < |n.phase.snapshot|)
          || (s.FrameArrives? && s.k < |q.wire| && n.phase.Serving?
              && R.Carries(q.table, d, q.wire[s.k].id, q.wire[s.k].text))
    ensures NodeInv(NodeAfter(n, s, cap, q.wire), d, q.table, cap)
    ensures forall e :: Kept(n.agent, e) ==> Kept(NodeAfter(n, s, cap, q.wire).agent, e)
  {
    var n' := NodeAfter(n, s, cap, q.wire);
    forall e | Kept(n.agent, e) ensures Kept(n'.agent, e) {
      if s.DrainStop? {
        DrainedKeepsEntries(n, d, q.table, cap, s.persisted, e);
      } else if s.FrameArrives? {
        HandledKeepsEntries(n.agent, cap, Entry(q.wire[s.k].id, q.wire[s.k].text), s.adapter, s.persisted, e);
      }
    }
    if s.FrameArrives? {
      HandledKeepsNode(n, d, q.table, cap, Entry(q.wire[s.k].id, q.wire[s.k].text), s.adapter, s.persisted);
    } else {
      assert n'.agent.acks == n.agent.acks;
      forall k | 0 <= k < |n.agent.acks| && n.agent.acks[k].accepted
        ensures AckKept(n'.agent, d, q.table, n.agent.acks[k].id)
      {
        AcksStayKept(n.agent, n'.agent, d, q.table, k);
      }
    }
  }

  /** Only a full queue meeting a new prompt evicts, and what goes is the oldest entry. */
  lemma EvictsOldestWhenFull(a: Agent, e: Entry, cap: nat, persisted: bool)
    requires cap >= 1
    ensures var a' := Queued(a, e, cap, persisted);
      && (a'.evicted != a.evicted <==> |a.pending| >= cap && !Holds(a.pending, e.id))
      && (a'.evicted != a.evicted ==> a'.evicted == a.evicted + [a.pending[0]] && a'.pending == a.pending[1..] + [e])
  {
    assert |a.evicted + [e]| != |a.evicted|;
  }

  function SendTimes(n: Node, k: nat, cap: nat): Node
    requires cap >= 1 && n.phase.Draining? && n.phase.injected + k <= |n.phase.snapshot|
    ensures SendTimes(n, k, cap).phase == n.phase.(injected := n.phase.injected + k)
  {
    if k == 0 then n else NodeAfter(SendTimes(n, k - 1, cap), DrainSend(0), cap, [])
  }

  lemma {:induction false} SendTimesInjects(n: Node, k: nat, cap: nat)
    requires cap >= 1 && n.phase == Draining(n.agent.pending, 0) && k <= |n.agent.pending|
    ensures SendTimes(n, k, cap).agent == n.agent.(stdin := n.agent.stdin + n.agent.pending[..k])
  {
    if k > 0 {
      SendTimesInjects(n, k - 1, cap);
      assert n.agent.stdin + n.agent.pending[..k]
          == n.agent.stdin + n.agent.pending[..k - 1] + [n.agent.pending[k - 1]];
    } else {
      assert n.agent.stdin + n.agent.pending[..0] == n.agent.stdin;
    }
  }

  /** A drain nothing interrupts is its steps: what DrainPendingPrompts computes in one call. */
  lemma DrainIsItsSteps(n: Node, k: nat, persisted: bool, cap: nat)
    requires cap >= 1 && n.phase == Draining(n.agent.pending, 0) && k <= |n.agent.pending|
    ensures NodeAfter(SendTimes(n, k, cap), DrainStop(0, persisted), cap, [])
         == Node(Drained(n.agent.(stdin := n.agent.stdin + n.agent.pending[..k]), k, persisted), Serving)
  {
    SendTimesInjects(n, k, cap);
  }
}
