/** Runs of the prompt service, from the empty table, in which an accepted prompt's ACK goes unheard. */
module PromptWitnesses {
  import opened Prelude
  import opened Prompts
  import opened PromptOrder
  import opened PromptRuns

  const EMPTY := Queue([], [])
  const CARRIED := Outcome(true, true)

  lemma RunGoesOn(qs: seq<Queue>, ops: seq<Op>, op: Op)
    requires Run(qs, ops) && Possible(qs[|ops|], op)
    ensures Run(qs + [Apply(qs[|ops|], op)], ops + [op])
  {
  }

  // --- a crowd of prompts waiting for device 0 ---

  function WaitingSend(id: PromptId, now: int): Op {
    SendOp(id, 0, 0, "x", false, Outcome(false, false), now)
  }

  function DirectSend(id: PromptId, now: int): Op {
    SendOp(id, 0, 0, "x", true, CARRIED, now)
  }

  function Crowd(base: nat, first: int, n: nat): (r: Table)
    ensures |r| == n && forall i :: 0 <= i < n ==> r[i] == Fresh(base + i, 0, 0, "x", first + i)
  {
    seq(n, (i: nat) => Fresh(base + i, 0, 0, "x", first + i))
  }

  lemma HasText(id: PromptId, now: int)
    ensures Fresh(id, 0, 0, "x", now).HasText()
  {
    assert SpaceAhead("x") == 0;
  }

  lemma WaitingSendAppends(q: Queue, id: PromptId, now: int)
    ensures Apply(q, WaitingSend(id, now)) == q.(table := q.table + [Fresh(id, 0, 0, "x", now)])
  {
  }

  /** `n` sends to an unreachable device, one a tick. */
  lemma {:induction false} CrowdArrives(q: Queue, base: nat, first: int, n: nat) returns (qs: seq<Queue>, ops: seq<Op>)
    requires forall i :: 0 <= i < |q.table| ==> q.table[i].id < base
    ensures Run(qs, ops) && qs[0] == q && |ops| == n && qs[n] == q.(table := q.table + Crowd(base, first, n))
    ensures forall i :: 0 <= i < n ==> ops[i] == WaitingSend(base + i, first + i)
  {
    if n == 0 {
      qs, ops := [q], [];
      assert q.table + Crowd(base, first, 0) == q.table;
    } else {
      qs, ops := CrowdArrives(q, base, first, n - 1);
      var op := WaitingSend(base + n - 1, first + n - 1);
      HasText(base + n - 1, first + n - 1);
      RunGoesOn(qs, ops, op);
      WaitingSendAppends(qs[n - 1], base + n - 1, first + n - 1);
      assert Crowd(base, first, n) == Crowd(base, first, n - 1) + [Fresh(base + n - 1, 0, 0, "x", first + n - 1)];
      qs, ops := qs + [Apply(qs[n - 1], op)], ops + [op];
    }
  }

  lemma {:induction false} CrowdNotLater(base: nat, first: int, n: nat, m: nat, time: int)
    requires m <= n && first + n <= time + 1
    ensures NotLater(Crowd(base, first, n), m, time, 0) == m
  {
    if m > 0 {
      CrowdNotLater(base, first, n, m - 1, time);
      assert Crowd(base, first, n)[m - 1] == Fresh(base + m - 1, 0, 0, "x", first + m - 1);
    }
  }

  lemma NotInCrowd(n: nat)
    ensures !HasId(Crowd(0, 0, n), n)
  {
  }

  lemma BehindTheCrowd(n: nat)
    ensures Rank(Crowd(0, 0, n) + [Fresh(n, 0, 0, "x", n)], n, 0) == n
  {
    LastRank(Crowd(0, 0, n), Fresh(n, 0, 0, "x", n), n, 0);
    CrowdNotLater(0, 0, n, n, n);
  }

  lemma DirectBehindCrowd(q: Queue, n: nat)
    requires Sound(q.table) && q.table == Crowd(0, 0, n) && n >= ACK_WINDOW
    ensures Possible(q, DirectSend(n, n))
    ensures var q' := Apply(q, DirectSend(n, n));
      && q' == Queue(q.table + [Fresh(n, 0, 0, "x", n).MarkDispatched(n)], q.wire + [Frame(0, n, "x", 1)])
      && Apply(q', AckOp(0, n, true, "", n + 1)) == q'
  {
    NotInCrowd(n);
    BehindTheCrowd(n);
    HasText(n, n);
    DirectDispatchBeyondTheWindow(q, Fresh(n, 0, 0, "x", n), n, n + 1, "");
  }

  lemma CrowdThenDirect(n: nat) returns (qs: seq<Queue>, ops: seq<Op>)
    requires n >= ACK_WINDOW
    ensures Run(qs, ops) && qs[0] == EMPTY && |ops| == n + 1
    ensures forall i :: 0 <= i < n ==> ops[i] == WaitingSend(i, i)
    ensures ops[n] == DirectSend(n, n)
    ensures qs[n + 1] == Queue(Crowd(0, 0, n) + [Fresh(n, 0, 0, "x", n).MarkDispatched(n)], [Frame(0, n, "x", 1)])
    ensures Apply(qs[n + 1], AckOp(0, n, true, "", n + 1)) == qs[n + 1]
  {
    var before, sends := CrowdArrives(EMPTY, 0, 0, n);
    var q := before[n];
    assert q == Queue(Crowd(0, 0, n), []);
    RowsOnlyEvolve(before, sends, n, n);
    DirectBehindCrowd(q, n);
    RunGoesOn(before, sends, DirectSend(n, n));
    qs, ops := before + [Apply(q, DirectSend(n, n))], sends + [DirectSend(n, n)];
  }

  /** A prompt sent straight to its device behind 100 or more that wait: the frame goes out, the ACK is dropped. */
  lemma DirectDispatchGoesUnheard(n: nat) returns (qs: seq<Queue>, ops: seq<Op>)
    requires n >= ACK_WINDOW
    ensures Run(qs, ops) && qs[0] == EMPTY && |ops| == n + 2 && Paced(ops, 1)
    ensures forall i :: 0 <= i < n ==> ops[i] == WaitingSend(i, i)
    ensures ops[n] == DirectSend(n, n) && ops[n + 1] == AckOp(0, n, true, "", n + 1)
    ensures qs[n + 1].wire == [Frame(0, n, "x", 1)] && qs[n + 2] == qs[n + 1]
    ensures |qs[n + 1].table| == n + 1 && qs[n + 1].table[n].status == Dispatched
  {
    var before, sends := CrowdThenDirect(n);
    var q, ack := before[n + 1], AckOp(0, n, true, "", n + 1);
    RunGoesOn(before, sends, ack);
    qs, ops := before + [q], sends + [ack];
  }

  // --- a clock set back ---

  lemma {:induction false} CrowdAhead(p: Prompt, n: nat, m: nat)
    requires p.enqueuedAt >= n && m <= n
    ensures AheadAmong([p] + Crowd(1, 0, n), m + 1, 0, 0) == m
  {
    var t := [p] + Crowd(1, 0, n);
    if m > 0 {
      CrowdAhead(p, n, m - 1);
      assert t[m] == Fresh(m, 0, 0, "x", m - 1);
    } else {
      assert !Ahead(t, 0, 0);
    }
  }

  /** The first send, dispatched at once. */
  lemma FirstSend(now: int)
    ensures Possible(EMPTY, DirectSend(0, now))
    ensures var p := Fresh(0, 0, 0, "x", now);
      Apply(EMPTY, DirectSend(0, now)) == Queue([p.MarkDispatched(now)], [FrameOf(p)])
  {
    HasText(0, now);
    assert [] + [Fresh(0, 0, 0, "x", now)] == [Fresh(0, 0, 0, "x", now)];
    assert [] + [FrameOf(Fresh(0, 0, 0, "x", now))] == [FrameOf(Fresh(0, 0, 0, "x", now))];
  }

  lemma BehindLaterCrowd(p: Prompt, n: nat)
    requires p.enqueuedAt >= n
    ensures Rank([p] + Crowd(1, 0, n), 0, 0) == n
  {
    CrowdAhead(p, n, n);
  }

  lemma AckBehindLaterCrowd(q: Queue, p: Prompt, n: nat, now: int)
    requires Sound(q.table) && q.table == [p] + Crowd(1, 0, n) && p.id == 0 && p.status == Dispatched
    requires p.enqueuedAt >= n >= ACK_WINDOW
    ensures Apply(q, AckOp(0, 0, true, "", now)) == q
  {
    BehindLaterCrowd(p, n);
    AckDeliversIff(q.table, 0, 0, "", now);
  }

  lemma ThenTheCrowd(n: nat) returns (qs: seq<Queue>, ops: seq<Op>)
    ensures Run(qs, ops) && qs[0] == EMPTY && |ops| == n + 1 && ops[0] == DirectSend(0, n)
    ensures forall i :: 1 <= i <= n ==> ops[i] == WaitingSend(i, i - 1)
    ensures var p := Fresh(0, 0, 0, "x", n).MarkDispatched(n);
      qs[1].table == [p] && qs[n + 1].table == [p] + Crowd(1, 0, n)
  {
    FirstSend(n);
    var after, sends := CrowdArrives(Apply(EMPTY, DirectSend(0, n)), 1, 0, n);
    qs, ops := [EMPTY] + after, [DirectSend(0, n)] + sends;
  }

  /** And the ACK that arrives then. */
  lemma CrowdDropsAck(n: nat) returns (qs: seq<Queue>, ops: seq<Op>)
    requires n >= ACK_WINDOW
    ensures Run(qs, ops) && qs[0] == EMPTY && |ops| == n + 1 && ops[0] == DirectSend(0, n)
    ensures forall i :: 1 <= i <= n ==> ops[i] == WaitingSend(i, i - 1)
    ensures qs[1].table == [Fresh(0, 0, 0, "x", n).MarkDispatched(n)]
    ensures |qs[n + 1].table| == n + 1 && qs[n + 1].table[0].status == Dispatched
    ensures Apply(qs[n + 1], AckOp(0, 0, true, "", n)) == qs[n + 1]
  {
    qs, ops := ThenTheCrowd(n);
    RowsOnlyEvolve(qs, ops, n + 1, n + 1);
    AckBehindLaterCrowd(qs[n + 1], Fresh(0, 0, 0, "x", n).MarkDispatched(n), n, n);
  }

  /**
   Why the clock must not run backwards: a prompt is dispatched at time `n`, the only one of its device; the clock is
   set back, 100 others or more are sent at times 0 to n - 1, and the first one's ACK is dropped.
   */
  lemma ClockSetBackLosesAck(n: nat) returns (qs: seq<Queue>, ops: seq<Op>)
    requires n >= ACK_WINDOW
    ensures Run(qs, ops) && qs[0] == EMPTY && |ops| == n + 2
    ensures ops[0] == DirectSend(0, n) && ops[n + 1] == AckOp(0, 0, true, "", n)
    ensures forall i :: 1 <= i <= n ==> ops[i] == WaitingSend(i, i - 1)
    ensures |qs[1].table| == 1 && qs[1].table == Window(qs[1].table, 0, CONNECT_WINDOW)
    ensures qs[n + 2] == qs[n + 1] && |qs[n + 1].table| == n + 1 && qs[n + 1].table[0].status == Dispatched
  {
    var before, sends := CrowdDropsAck(n);
    var q, ack := before[n + 1], AckOp(0, 0, true, "", n);
    RunGoesOn(before, sends, ack);
    qs, ops := before + [q], sends + [ack];
    assert qs[1] == before[1];
  }

  // --- five dispatches ---

  function Redispatch(now: int): Op {
    ByIdOp(0, 0, CARRIED, now)
  }

  /** One row, prompt 0 of device 0, dispatched `n` times. */
  ghost predicate Single(q: Queue, n: nat) {
    && |q.table| == 1 && |q.wire| == n
    && q.table[0].id == 0 && q.table[0].device == 0 && q.table[0].status == Dispatched && q.table[0].attempts == n
  }

  lemma AloneIsFirst(t: Table)
    requires |t| == 1
    ensures Rank(t, 0, 0) == 0
  {
    assert AheadAmong(t, 0, 0, 0) == 0 && !Ahead(t, 0, 0);
  }

  lemma FirstDispatch()
    ensures Possible(EMPTY, DirectSend(0, 0)) && Single(Apply(EMPTY, DirectSend(0, 0)), 1)
  {
    FirstSend(0);
  }

  /** `n` dispatches of the one prompt, the first by its Send. */
  lemma {:induction false} Dispatches(n: nat) returns (qs: seq<Queue>, ops: seq<Op>)
    requires 1 <= n <= MAX_ATTEMPTS
    ensures Run(qs, ops) && qs[0] == EMPTY && |ops| == n
    ensures ops[0] == DirectSend(0, 0) && forall i :: 1 <= i < n ==> ops[i] == Redispatch(i)
    ensures forall i :: 1 <= i <= n ==> Single(qs[i], i)
  {
    if n == 1 {
      FirstDispatch();
      qs, ops := [EMPTY, Apply(EMPTY, DirectSend(0, 0))], [DirectSend(0, 0)];
    } else {
      qs, ops := Dispatches(n - 1);
      RunGoesOn(qs, ops, Redispatch(n - 1));
      qs, ops := qs + [Apply(qs[n - 1], Redispatch(n - 1))], ops + [Redispatch(n - 1)];
    }
  }

  /** A prompt alone in its queue, dispatched five times: the agent's ACK of the fifth is dropped. */
  lemma FifthDispatchGoesUnheard() returns (qs: seq<Queue>, ops: seq<Op>)
    ensures Run(qs, ops) && qs[0] == EMPTY && |ops| == 6 && Paced(ops, 1)
    ensures ops[0] == DirectSend(0, 0) && forall i :: 1 <= i < 5 ==> ops[i] == Redispatch(i)
    ensures ops[5] == AckOp(0, 0, true, "", 5)
    ensures Single(qs[4], 4) && Rank(qs[4].table, 0, 0) == 0
    ensures Single(qs[5], MAX_ATTEMPTS) && qs[6] == qs[5]
  {
    qs, ops := Dispatches(MAX_ATTEMPTS);
    var ack := AckOp(0, 0, true, "", 5);
    AloneIsFirst(qs[4].table);
    RunGoesOn(qs, ops, ack);
    qs, ops := qs + [qs[5]], ops + [ack];
  }
}
