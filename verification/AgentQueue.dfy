/** The agent's side of prompt delivery: inject, or store and acknowledge (agent/internal/session/handler.go). */
module AgentQueue {
  import opened Prelude

  datatype Entry = Entry(id: nat, text: string)

  /** What the coding adapter's SendPrompt answers: written, not accepting input or not running, or another error. */
  datatype Injection = Written | NotAccepting | Broken(reason: string)

  datatype Ack = Ack(id: nat, accepted: bool, reason: string)

  /**
   `pending` is the queue in memory, `disk` the queue in the state file's last completed write. `stdin` lists what was
   written to the coding agent, `evicted` what the cap pushed out, `acks` the ACK frames handed to the socket.
   */
  datatype Agent = Agent(pending: seq<Entry>, disk: seq<Entry>, stdin: seq<Entry>, evicted: seq<Entry>, acks: seq<Ack>)

  predicate Holds(q: seq<Entry>, id: nat) {
    exists i :: 0 <= i < |q| && q[i].id == id
  }

  predicate Distinct(q: seq<Entry>) {
    forall i, j :: 0 <= i < j < |q| ==> q[i].id != q[j].id
  }

  /** Adding to the bounded queue: a prompt already there is left, and a full queue drops its oldest entry. */
  function Queued(a: Agent, e: Entry, cap: nat, persisted: bool): Agent
    requires cap >= 1
  {
    var next :=
      if Holds(a.pending, e.id) then a
      else if |a.pending| >= cap then
        a.(pending := a.pending[1..] + [e], evicted := a.evicted + [a.pending[0]])
      else a.(pending := a.pending + [e]);
    if persisted then next.(disk := next.pending) else next
  }

  function Acked(a: Agent, id: nat, accepted: bool, reason: string): Agent {
    a.(acks := a.acks + [Ack(id, accepted, reason)])
  }

  const NO_SESSION := "no session is running and the prompt could not be stored"
  const BUSY := "agent busy and the prompt could not be stored"

  /** A PROMPT frame. `adapter` is None when no session runs; `persisted` says whether the state file was written. */
  function Handled(a: Agent, e: Entry, adapter: Option<Injection>, persisted: bool, cap: nat): Agent
    requires cap >= 1
  {
    match adapter
    case None => Acked(Queued(a, e, cap, persisted), e.id, persisted, if persisted then "" else NO_SESSION)
    case Some(NotAccepting) => Acked(Queued(a, e, cap, persisted), e.id, persisted, if persisted then "" else BUSY)
    case Some(Broken(reason)) => Acked(a, e.id, false, reason)
    case Some(Written) => Acked(a.(stdin := a.stdin + [e]), e.id, true, "")
  }

  /** Dropping the injected front of the queue once the drain has stopped. */
  function Drained(a: Agent, injected: nat, persisted: bool): Agent {
    if injected == 0 then a
    else
      var next := a.(pending := if injected >= |a.pending| then [] else a.pending[injected..]);
      if persisted then next.(disk := next.pending) else next
  }

  /** How many prompts go in before the first the adapter refuses. */
  function Leading(n: nat, inject: nat -> Injection): (k: nat)
    ensures k <= n
    ensures forall i :: 0 <= i < k ==> inject(i) == Written
    ensures k < n ==> inject(k) != Written
  {
    if n == 0 then 0
    else
      var k := Leading(n - 1, inject);
      if k == n - 1 && inject(n - 1) == Written then n else k
  }

  // --- what a frame and a drain do, field by field ---

  /** The queue once a prompt is to be kept: as it is if the prompt is there, else with it at the end and in the cap. */
  function Keeping(q: seq<Entry>, e: Entry, cap: nat): seq<Entry> {
    if exists i :: 0 <= i < |q| && q[i].id == e.id then q
    else if |q| >= cap && q != [] then q[1..] + [e]
    else q + [e]
  }

  /**
   One ACK a frame. It accepts exactly if the coding agent took the text, or there was none to take it, or one that
   was busy, and the state file was written.
   */
  lemma AckTells(a: Agent, e: Entry, adapter: Option<Injection>, persisted: bool, cap: nat)
    requires cap >= 1
    ensures var a' := Handled(a, e, adapter, persisted, cap);
      var accepted := adapter == Some(Written) || ((adapter == None || adapter == Some(NotAccepting)) && persisted);
      && |a'.acks| == |a.acks| + 1 && a'.acks[..|a.acks|] == a.acks
      && a'.acks[|a.acks|].id == e.id
      && (a'.acks[|a.acks|].accepted <==> accepted)
      && (a'.acks[|a.acks|].reason == "" <==> accepted || adapter == Some(Broken("")))
      && (adapter.Some? && adapter.value.Broken? ==> a'.acks[|a.acks|].reason == adapter.value.reason)
  {
  }

  /** Without a session or with a busy one the prompt is kept in memory, and on disk if it is written; not injected. */
  lemma StoredWhileBusy(a: Agent, e: Entry, adapter: Option<Injection>, persisted: bool, cap: nat)
    requires cap >= 1 && (adapter == None || adapter == Some(NotAccepting))
    ensures var a' := Handled(a, e, adapter, persisted, cap);
      && a'.stdin == a.stdin && a'.pending == Keeping(a.pending, e, cap)
      && a'.disk == (if persisted then a'.pending else a.disk)
      && exists i :: 0 <= i < |a'.pending| && a'.pending[i].id == e.id
  {
    var q := Handled(a, e, adapter, persisted, cap).pending;
    if !Holds(a.pending, e.id) {
      assert q[|q| - 1] == e;
    }
  }

  /** A text that is taken is written once and not queued; one that cannot be written leaves but the refusal. */
  lemma TakenOrRefused(a: Agent, e: Entry, injection: Injection, persisted: bool, cap: nat)
    requires cap >= 1 && injection != NotAccepting
    ensures var a' := Handled(a, e, Some(injection), persisted, cap);
      && a'.stdin == a.stdin + (if injection == Written then [e] else [])
      && a'.pending == a.pending && a'.disk == a.disk && a'.evicted == a.evicted
  {
  }

  /** A drain takes what was injected off the front, and only that; on disk if the state file is written. */
  lemma DrainTakesOff(a: Agent, injected: nat, persisted: bool)
    requires injected <= |a.pending|
    ensures var a' := Drained(a, injected, persisted);
      && |a'.pending| == |a.pending| - injected
      && (forall i :: 0 <= i < |a'.pending| ==> a'.pending[i] == a.pending[injected + i])
      && a'.disk == (if persisted && injected > 0 then a'.pending else a.disk)
      && a'.stdin == a.stdin && a'.evicted == a.evicted && a'.acks == a.acks
  {
  }

  class PromptHandler {
    const cap: nat
    var pending: seq<Entry>
    var disk: seq<Entry>
    var stdin: seq<Entry>
    var evicted: seq<Entry>
    var acks: seq<Ack>

    ghost function State(): Agent
      reads this
    {
      Agent(pending, disk, stdin, evicted, acks)
    }

    constructor (cap: nat, stored: seq<Entry>)
      ensures this.cap == cap
      ensures State() == Agent(stored, stored, [], [], [])
    {
      this.cap := cap;
      pending, disk, stdin, evicted, acks := stored, stored, [], [], [];
    }

    method QueuePrompt(e: Entry, persisted: bool) returns (ok: bool)
      requires cap >= 1
      modifies this
      ensures ok == persisted
      ensures State() == Queued(old(State()), e, cap, persisted)
    {
      var present := false;
      for i := 0 to |pending|
        invariant present <==> exists k :: 0 <= k < i && pending[k].id == e.id
      {
        if pending[i].id == e.id {
          present := true;
        }
      }
      if !present {
        if |pending| >= cap {
          evicted := evicted + [pending[0]];
          pending := pending[1..];
        }
        pending := pending + [e];
      }
      if persisted {
        disk := pending;
      }
      ok := persisted;
    }

    method AckPrompt(id: nat, accepted: bool, reason: string)
      modifies this
      ensures State() == Acked(old(State()), id, accepted, reason)
    {
      acks := acks + [Ack(id, accepted, reason)];
    }

    method HandlePrompt(e: Entry, adapter: Option<Injection>, persisted: bool)
      requires cap >= 1
      modifies this
      ensures State() == Handled(old(State()), e, adapter, persisted, cap)
    {
      if adapter.None? {
        var ok := QueuePrompt(e, persisted);
        if !ok {
          AckPrompt(e.id, false, NO_SESSION);
          return;
        }
        AckPrompt(e.id, true, "");
        return;
      }
      if adapter.value != Written {
        if adapter.value == NotAccepting {
          var ok := QueuePrompt(e, persisted);
          if !ok {
            AckPrompt(e.id, false, BUSY);
            return;
          }
          AckPrompt(e.id, true, "");
          return;
        }
        AckPrompt(e.id, false, adapter.value.reason);
        return;
      }
      stdin := stdin + [e];
      AckPrompt(e.id, true, "");
    }

    /** Injects from the front until the first refusal, then drops what went in. */
    method DrainPendingPrompts(adapter: Option<nat -> Injection>, persisted: bool)
      modifies this
      ensures adapter.None? ==> State() == old(State())
      ensures adapter.Some? ==>
        var n := Leading(|old(pending)|, adapter.value);
        State() == Drained(old(State()).(stdin := old(stdin) + old(pending)[..n]), n, persisted)
    {
      if adapter.None? || |pending| == 0 {
        return;
      }
      var snapshot := pending;
      var injected := 0;
      while injected < |snapshot| && adapter.value(injected) == Written
        invariant injected <= Leading(|snapshot|, adapter.value)
        invariant State() == old(State()).(stdin := old(stdin) + snapshot[..injected])
      {
        stdin := stdin + [snapshot[injected]];
        injected := injected + 1;
      }
      if injected == 0 {
        return;
      }
      if injected >= |pending| {
        pending := [];
      } else {
        pending := pending[injected..];
      }
      if persisted {
        disk := pending;
      }
    }
  }
}
