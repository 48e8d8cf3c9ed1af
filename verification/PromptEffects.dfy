/**
 What each operation of the prompt service does to the table and the wire, row by row, over ranks and fields
 (backend/internal/app/prompt.go:178-363).
 */
module PromptEffects {
  import opened Prelude
  import opened Prompts
  import opened PromptOrder
  import opened PromptRuns
  import Paging

  // --- one row ---

  /** Writing back a row found at `i` changes that row alone. */
  lemma UpdatedAt(t: Table, i: nat, p: Prompt)
    requires UniqueIds(t) && i < |t| && p.id == t[i].id
    ensures Updated(t, p) == t[i := t[i].(status := p.status, attempts := p.attempts, dispatchedAt := p.dispatchedAt,
                                          deliveredAt := p.deliveredAt, error := p.error)]
  {
    forall k | 0 <= k < |t| && k != i ensures t[k].id != p.id {
    }
  }

  /** A row's own status does not count for its rank. */
  lemma {:induction false} RankIgnoresItself(t: Table, i: nat, p: Prompt, n: nat, d: DeviceId)
    requires i < |t| && n <= |t| && p.enqueuedAt == t[i].enqueuedAt
    ensures AheadAmong(t[i := p], n, i, d) == AheadAmong(t, n, i, d)
  {
    if n > 0 {
      RankIgnoresItself(t, i, p, n - 1, d);
    }
  }

  /**
   An ACK changes the row it names if that is eligible and among the first 100, and nothing otherwise. Accepted, the
   row is delivered; rejected, it goes back to pending at the place it had.
   */
  lemma AckEffect(t: Table, i: nat, d: DeviceId, accepted: bool, reason: string, now: int)
    requires Sound(t) && i < |t|
    ensures var t' := Acknowledged(t, d, t[i].id, accepted, reason, now);
      && (!(Eligible(t[i], d) && Rank(t, i, d) < 100) ==> t' == t)
      && (Eligible(t[i], d) && Rank(t, i, d) < 100 && accepted ==>
            t' == t[i := t[i].(status := Delivered, deliveredAt := Some(now))])
      && (Eligible(t[i], d) && Rank(t, i, d) < 100 && !accepted ==>
            t' == t[i := t[i].(status := Pending)] && Eligible(t'[i], d) && Rank(t', i, d) == Rank(t, i, d))
      && forall wire :: Apply(Queue(t, wire), AckOp(d, t[i].id, accepted, reason, now)) == Queue(t', wire)
  {
    InWindowIff(t, i, d, ACK_WINDOW);
    if Eligible(t[i], d) && Rank(t, i, d) < 100 {
      var p := Judged(t[i], accepted, reason, now);
      UpdatedAt(t, i, p);
      RankIgnoresItself(t, i, t[i].(status := Pending), |t|, d);
    }
  }

  /** And an ACK for a prompt that is not there changes nothing. */
  lemma UnknownAckIsIgnored(t: Table, id: PromptId, d: DeviceId, accepted: bool, reason: string, now: int)
    requires !HasId(t, id)
    ensures Acknowledged(t, d, id, accepted, reason, now) == t
  {
    EligibleRows(t, d);
    var window := Window(t, d, ACK_WINDOW);
    FindInWindow(window, id);
    forall k | 0 <= k < |window| ensures window[k].id != id {
      assert window[k] == EligibleFor(t, d)[k];
      assert window[k] in t;
    }
  }

  /** Cancelling: the user's own open prompt, that one alone; a finished one is a conflict, any other not found. */
  lemma CancelEffect(t: Table, id: PromptId, user: UserId)
    requires Sound(t)
    ensures (forall i :: 0 <= i < |t| ==> !(t[i].id == id && t[i].user == user)) ==>
      CancelledTable(t, id, user) == Err(NotFound)
    ensures forall i | 0 <= i < |t| && t[i].id == id && t[i].user == user ::
      CancelledTable(t, id, user) == if t[i].status == Pending || t[i].status == Dispatched
                                     then Ok(t[i := t[i].(status := Cancelled)]) else Err(Conflict)
    ensures var t' := if CancelledTable(t, id, user).Ok? then CancelledTable(t, id, user).value else t;
      forall wire :: Apply(Queue(t, wire), CancelOp(id, user)) == Queue(t', wire)
  {
    FoundIsOwned(t, id, user);
    forall i | 0 <= i < |t| && t[i].id == id && t[i].user == user
      ensures CancelledTable(t, id, user) == if t[i].status == Pending || t[i].status == Dispatched
                                             then Ok(t[i := t[i].(status := Cancelled)]) else Err(Conflict)
    {
      FindOwnedFinds(t, i);
      UpdatedAt(t, i, t[i].(status := Cancelled));
    }
  }

  lemma {:induction false} FoundIsOwned(t: Table, id: PromptId, user: UserId)
    ensures var found := FindOwned(t, id, user);
      found.Some? ==> exists i :: 0 <= i < |t| && t[i] == found.value && t[i].id == id && t[i].user == user
  {
    if t != [] && !(t[0].id == id && t[0].user == user) {
      FoundIsOwned(t[1..], id, user);
      if FindOwned(t[1..], id, user).Some? {
        var i :| 0 <= i < |t[1..]| && t[1..][i] == FindOwned(t[1..], id, user).value
                 && t[1..][i].id == id && t[1..][i].user == user;
        assert t[i + 1] == t[1..][i];
      }
    }
  }

  /** A dispatch that the socket refuses leaves no trace; one it takes is counted if the write succeeds. */
  lemma DispatchEffect(q: Queue, i: nat, out: Outcome, now: int)
    requires UniqueIds(q.table) && i < |q.table|
    ensures var p := q.table[i];
      var q' := DeliverOne(q, p, out, now);
      && q'.wire == q.wire + (if out.sent then [Frame(p.device, p.id, p.text, p.attempts + 1)] else [])
      && q'.table == if out.sent && out.stored
                     then q.table[i := p.(status := Dispatched, attempts := p.attempts + 1, dispatchedAt := Some(now))]
                     else q.table
  {
    UpdatedAt(q.table, i, q.table[i].MarkDispatched(now));
  }

  /** A dispatch by id: the row named, if it is eligible and among the first 50, and nothing otherwise. */
  lemma ByIdEffect(q: Queue, i: nat, d: DeviceId, out: Outcome, now: int)
    requires Sound(q.table) && i < |q.table|
    ensures var p, q' := q.table[i], Apply(q, ByIdOp(d, q.table[i].id, out, now));
      var goes := Eligible(p, d) && Rank(q.table, i, d) < 50 && out.sent;
      && q'.wire == q.wire + (if goes then [Frame(d, p.id, p.text, p.attempts + 1)] else [])
      && q'.table == if goes && out.stored
                     then q.table[i := p.(status := Dispatched, attempts := p.attempts + 1, dispatchedAt := Some(now))]
                     else q.table
  {
    InWindowIff(q.table, i, d, CONNECT_WINDOW);
    DispatchEffect(q, i, out, now);
  }

  /** A send: the pending row joins at the end, and one dispatch of it is tried if the device is connected here. */
  lemma SendEffect(q: Queue, id: PromptId, user: UserId, d: DeviceId, text: string, connected: bool, out: Outcome,
                   now: int)
    requires Sound(q.table) && !HasId(q.table, id)
    ensures var q' := Sent(q, Fresh(id, user, d, text, now), connected, out, now);
      && q' == Apply(q, SendOp(id, user, d, text, connected, out, now))
      && q'.wire == q.wire + (if connected && out.sent then [Frame(d, id, text, 1)] else [])
      && q'.table == q.table + [
           if connected && out.sent && out.stored
           then Prompt(id, user, d, text, Dispatched, 1, now, Some(now), None, "")
           else Prompt(id, user, d, text, Pending, 0, now, None, None, "")]
  {
    var p := Fresh(id, user, d, text, now);
    var q1 := q.(table := q.table + [p]);
    assert q1.table[|q.table|] == p;
    assert UniqueIds(q1.table);
    DispatchEffect(q1, |q.table|, Outcome(connected && out.sent, out.stored), now);
  }

  // --- the loops ---

  ghost predicate Ascending(ranks: seq<nat>) {
    forall i, j :: 0 <= i < j < |ranks| ==> ranks[i] < ranks[j]
  }

  /** The frames of the rows at these places. */
  function FramesAt(rows: seq<Prompt>, ranks: seq<nat>): (frames: seq<Frame>)
    requires forall j :: 0 <= j < |ranks| ==> ranks[j] < |rows|
    ensures |frames| == |ranks|
  {
    seq(|ranks|, j requires 0 <= j < |ranks| =>
      var p := rows[ranks[j]]; Frame(p.device, p.id, p.text, p.attempts + 1))
  }

  /** The rows of `window` from place `i` on that are hit have one more attempt in `t'`; all else is as in `t`. */
  ghost predicate Redispatched(t: Table, t': Table, window: seq<Prompt>, i: nat, hits: seq<bool>, now: int)
    requires |hits| == |window|
  {
    && |t'| == |t|
    && (forall k, r | 0 <= k < |t| && i <= r < |window| && window[r].id == t[k].id ::
          t'[k] == Retried(t[k], hits[r], now))
    && (forall k | 0 <= k < |t| && (forall r :: i <= r < |window| ==> window[r].id != t[k].id) :: t'[k] == t[k])
  }

  /** One attempt more, recorded now. */
  function Retried(p: Prompt, hit: bool, now: int): Prompt {
    if hit
    then Prompt(p.id, p.user, p.device, p.text, Dispatched, p.attempts + 1, p.enqueuedAt, Some(now), p.deliveredAt,
                p.error)
    else p
  }

  lemma SamePlace(window: seq<Prompt>, i: nat, r: nat)
    requires i <= r < |window| && UniqueIds(window[i..]) && window[r].id == window[i].id
    ensures r == i
  {
    assert window[i..][0] == window[i] && window[i..][r - i] == window[r];
  }

  lemma UniqueRest(window: seq<Prompt>, i: nat)
    requires i < |window| && UniqueIds(window[i..])
    ensures UniqueIds(window[i + 1..])
    ensures forall r :: i < r < |window| ==> window[r].id != window[i].id
  {
    forall r | i < r < |window| ensures window[r].id != window[i].id {
      assert window[i..][0] == window[i] && window[i..][r - i] == window[r];
    }
    var here, rest := window[i..], window[i + 1..];
    forall j, k | 0 <= j < k < |rest| ensures rest[j].id != rest[k].id {
      assert here[j + 1] == rest[j] && here[k + 1] == rest[k];
    }
  }

  /** One row of the window, then the rest of it. */
  lemma RedispatchedOneMore(
      t: Table, t1: Table, t': Table, window: seq<Prompt>, i: nat, k0: nat, hits: seq<bool>, now: int)
    requires UniqueIds(t) && i < |window| == |hits| && UniqueIds(window[i..]) && k0 < |t| && t[k0].id == window[i].id
    requires t1 == t[k0 := Retried(t[k0], hits[i], now)]
    requires Redispatched(t1, t', window, i + 1, hits, now)
    ensures Redispatched(t, t', window, i, hits, now)
  {
    UniqueRest(window, i);
    forall k, r | 0 <= k < |t| && i <= r < |window| && window[r].id == t[k].id
      ensures t'[k] == Retried(t[k], hits[r], now)
    {
      if k == k0 {
        SamePlace(window, i, r);
      } else {
        assert t[k].id != t[k0].id && r != i;
      }
    }
    forall k | 0 <= k < |t| && (forall r :: i <= r < |window| ==> window[r].id != t[k].id) ensures t'[k] == t[k] {
      assert k != k0;
    }
  }

  /** Before its turn a row of the window is as it was read, wherever in the table it is. */
  lemma PlaceInTable(t: Table, d: DeviceId, window: seq<Prompt>, i: nat) returns (k: nat)
    requires i < |window| && Live(t, d, window[i..])
    ensures k < |t| && t[k] == window[i] && Eligible(t[k], d)
  {
    assert window[i..][0] == window[i];
    k :| 0 <= k < |t| && t[k] == window[i];
  }

  // --- the sweep ---

  /** The places of a window whose rows are due and whose frames the socket takes. */
  ghost predicate Due(window: seq<Prompt>, cutoff: int, net: nat -> Outcome, r: nat)
    requires r < |window|
  {
    window[r].enqueuedAt <= cutoff && net(r).sent
  }

  ghost function DueHits(window: seq<Prompt>, cutoff: int, net: nat -> Outcome): (hits: seq<bool>)
    ensures |hits| == |window|
    ensures forall r :: 0 <= r < |window| ==> hits[r] == (Due(window, cutoff, net, r) && net(r).stored)
  {
    seq(|window|, r requires 0 <= r < |window| => Due(window, cutoff, net, r) && net(r).stored)
  }

  lemma PrependRank(window: seq<Prompt>, i: nat, ranks: seq<nat>, wire: seq<Frame>)
    requires i < |window| && Ascending(ranks) && forall j :: 0 <= j < |ranks| ==> i < ranks[j] < |window|
    ensures Ascending([i] + ranks)
    ensures wire + [FrameOf(window[i])] + FramesAt(window, ranks) == wire + FramesAt(window, [i] + ranks)
  {
    var p := window[i];
    assert FramesAt(window, [i] + ranks) == [Frame(p.device, p.id, p.text, p.attempts + 1)] + FramesAt(window, ranks);
  }

  ghost predicate DueFrom(window: seq<Prompt>, i: nat, cutoff: int, net: nat -> Outcome, ranks: seq<nat>) {
    && Ascending(ranks)
    && (forall j :: 0 <= j < |ranks| ==> i <= ranks[j] < |window|)
    && (forall r :: i <= r < |window| ==> (r in ranks <==> Due(window, cutoff, net, r)))
  }

  lemma LiveAfter(t: Table, t': Table, d: DeviceId, window: seq<Prompt>, i: nat)
    requires i < |window| && Live(t, d, window[i..])
    requires forall r :: r in t && r.id != window[i].id ==> r in t'
    ensures Live(t', d, window[i + 1..])
  {
    UniqueRest(window, i);
    var here, rest := window[i..], window[i + 1..];
    forall k | 0 <= k < |rest| ensures rest[k] in t' && Eligible(rest[k], d) {
      assert rest[k] == here[k + 1] == window[i + 1 + k];
    }
  }

  /** The queue after row `i` of the window. */
  function SweepOne(q: Queue, window: seq<Prompt>, i: nat, cutoff: int, net: nat -> Outcome, now: int): Queue
    requires i < |window|
  {
    if window[i].enqueuedAt <= cutoff then DeliverOne(q, window[i], net(i), now) else q
  }

  lemma SweepUnrolls(q: Queue, window: seq<Prompt>, i: nat, cutoff: int, net: nat -> Outcome, now: int)
    requires i < |window| && window[i].attempts < MAX_ATTEMPTS
    ensures var (q', n) := Sweep(SweepOne(q, window, i, cutoff, net, now), window, i + 1, cutoff, net, now);
      Sweep(q, window, i, cutoff, net, now) == (q', n + if Due(window, cutoff, net, i) then 1 else 0)
  {
  }

  lemma SweepOneEffect(q: Queue, window: seq<Prompt>, i: nat, k0: nat, cutoff: int, net: nat -> Outcome, now: int)
    requires UniqueIds(q.table) && i < |window| && k0 < |q.table| && q.table[k0] == window[i]
    ensures var q1 := SweepOne(q, window, i, cutoff, net, now);
      && q1.table == q.table[k0 := Retried(q.table[k0], DueHits(window, cutoff, net)[i], now)]
      && q1.wire == q.wire + if Due(window, cutoff, net, i) then [FrameOf(window[i])] else []
  {
    DispatchEffect(q, k0, net(i), now);
  }

  lemma DueOneMore(window: seq<Prompt>, i: nat, cutoff: int, net: nat -> Outcome, rest: seq<nat>)
    requires i < |window| && DueFrom(window, i + 1, cutoff, net, rest)
    ensures DueFrom(window, i, cutoff, net, if Due(window, cutoff, net, i) then [i] + rest else rest)
  {
    var ranks := [i] + rest;
    forall r | i <= r < |window| && Due(window, cutoff, net, i) ensures r in ranks <==> Due(window, cutoff, net, r) {
      assert r in ranks <==> r == i || r in rest;
    }
  }

  /** What is left of a sweep, from place `i` on: frames, count, and rows. */
  ghost predicate SweptFrom(q: Queue, q': Queue, n: nat, window: seq<Prompt>, i: nat, cutoff: int,
                            net: nat -> Outcome, now: int, ranks: seq<nat>)
  {
    && DueFrom(window, i, cutoff, net, ranks)
    && n == |ranks| && q'.wire == q.wire + FramesAt(window, ranks)
    && Redispatched(q.table, q'.table, window, i, DueHits(window, cutoff, net), now)
  }

  lemma SweepOneMore(q: Queue, q1: Queue, q': Queue, n: nat, window: seq<Prompt>, i: nat, k0: nat, cutoff: int,
                     net: nat -> Outcome, now: int, rest: seq<nat>)
    requires UniqueIds(q.table) && i < |window| && UniqueIds(window[i..]) && k0 < |q.table|
    requires q.table[k0] == window[i] && q1 == SweepOne(q, window, i, cutoff, net, now)
    requires SweptFrom(q1, q', n, window, i + 1, cutoff, net, now, rest)
    ensures var due := Due(window, cutoff, net, i);
      SweptFrom(q, q', n + (if due then 1 else 0), window, i, cutoff, net, now, if due then [i] + rest else rest)
  {
    SweepOneEffect(q, window, i, k0, cutoff, net, now);
    RedispatchedOneMore(q.table, q1.table, q'.table, window, i, k0, DueHits(window, cutoff, net), now);
    DueOneMore(window, i, cutoff, net, rest);
    PrependRank(window, i, rest, q.wire);
  }

  lemma SweepEnds(q: Queue, window: seq<Prompt>, cutoff: int, net: nat -> Outcome, now: int)
    ensures SweptFrom(q, q, 0, window, |window|, cutoff, net, now, [])
  {
    assert q.wire + FramesAt(window, []) == q.wire;
  }

  lemma {:induction false} SweepFrom(
      q: Queue, d: DeviceId, window: seq<Prompt>, i: nat, cutoff: int, net: nat -> Outcome, now: int)
    returns (ranks: seq<nat>)
    requires Sound(q.table) && i <= |window| && Live(q.table, d, window[i..])
    ensures var (q', n) := Sweep(q, window, i, cutoff, net, now);
      SweptFrom(q, q', n, window, i, cutoff, net, now, ranks)
    decreases |window| - i
  {
    if i >= |window| {
      ranks := [];
      SweepEnds(q, window, cutoff, net, now);
    } else {
      var k0 := PlaceInTable(q.table, d, window, i);
      var q1 := SweepOne(q, window, i, cutoff, net, now);
      DeliverOneProgress(q, d, window[i], net(i), now);
      LiveAfter(q.table, q1.table, d, window, i);
      var rest := SweepFrom(q1, d, window, i + 1, cutoff, net, now);
      SweepUnrolls(q, window, i, cutoff, net, now);
      var (q', n) := Sweep(q1, window, i + 1, cutoff, net, now);
      SweepOneMore(q, q1, q', n, window, i, k0, cutoff, net, now, rest);
      ranks := if Due(window, cutoff, net, i) then [i] + rest else rest;
    }
  }

  /** A window's hits, told by rank. */
  lemma RedispatchedByRank(t: Table, t': Table, d: DeviceId, limit: int, hits: seq<bool>, now: int, k: nat)
    requires UniqueIds(t) && k < |t| && |hits| == |Window(t, d, limit)|
    requires Redispatched(t, t', Window(t, d, limit), 0, hits, now)
    ensures Eligible(t[k], d) && Rank(t, k, d) < Paging.Clamp(limit) ==>
      Rank(t, k, d) < |hits| && t'[k] == Retried(t[k], hits[Rank(t, k, d)], now)
    ensures !(Eligible(t[k], d) && Rank(t, k, d) < Paging.Clamp(limit)) ==> t'[k] == t[k]
  {
    var window := Window(t, d, limit);
    InWindowIff(t, k, d, limit);
    FindInWindow(window, t[k].id);
    EligibleUnique(t, d);
    if Eligible(t[k], d) && Rank(t, k, d) < Paging.Clamp(limit) {
      RowAtRank(t, k, d);
      assert window[Rank(t, k, d)] == t[k];
    }
  }

  /** What the sweep of device `d` makes of row `k`. */
  function SweptRow(t: Table, k: nat, d: DeviceId, cutoff: int, net: nat -> Outcome, now: int): Prompt
    requires k < |t|
  {
    var r := Rank(t, k, d);
    Retried(t[k], Eligible(t[k], d) && r < 20 && t[k].enqueuedAt <= cutoff && net(r).sent && net(r).stored, now)
  }

  lemma SweepRow(t: Table, t': Table, d: DeviceId, cutoff: int, net: nat -> Outcome, now: int, k: nat)
    requires UniqueIds(t) && k < |t|
    requires var window := Window(t, d, SWEEP_WINDOW);
      Redispatched(t, t', window, 0, DueHits(window, cutoff, net), now)
    ensures k < |t'| && t'[k] == SweptRow(t, k, d, cutoff, net, now)
  {
    var window := Window(t, d, SWEEP_WINDOW);
    RedispatchedByRank(t, t', d, SWEEP_WINDOW, DueHits(window, cutoff, net), now, k);
    if Eligible(t[k], d) {
      RowAtRank(t, k, d);
    }
  }

  ghost predicate DueRanks(all: seq<Prompt>, cutoff: int, net: nat -> Outcome, ranks: seq<nat>) {
    && Ascending(ranks)
    && (forall j :: 0 <= j < |ranks| ==> ranks[j] < |all|)
    && forall r: nat :: r in ranks <==> r < 20 && r < |all| && all[r].enqueuedAt <= cutoff && net(r).sent
  }

  lemma FramesOfPrefix(all: seq<Prompt>, n: nat, ranks: seq<nat>)
    requires n <= |all| && forall j :: 0 <= j < |ranks| ==> ranks[j] < n
    ensures FramesAt(all[..n], ranks) == FramesAt(all, ranks)
  {
  }

  lemma DueInWindow(t: Table, d: DeviceId, cutoff: int, net: nat -> Outcome, ranks: seq<nat>)
    requires DueFrom(Window(t, d, SWEEP_WINDOW), 0, cutoff, net, ranks)
    ensures DueRanks(EligibleFor(t, d), cutoff, net, ranks)
    ensures FramesAt(Window(t, d, SWEEP_WINDOW), ranks) == FramesAt(EligibleFor(t, d), ranks)
  {
    var all, window := EligibleFor(t, d), Window(t, d, SWEEP_WINDOW);
    forall r: nat ensures r in ranks <==> r < 20 && r < |all| && all[r].enqueuedAt <= cutoff && net(r).sent {
      assert r in ranks ==> r < |window|;
      assert r < |window| ==> window[r] == all[r];
    }
    FramesOfPrefix(all, |window|, ranks);
  }

  /**
   The sweep of one device sends exactly the frames of its eligible rows of rank below 20 that were enqueued by the
   cutoff and whose frame the socket takes, in rank order, and answers how many. Those rows gain one attempt where the
   write succeeds; every other row stays as it is.
   */
  lemma SweepEffect(q: Queue, d: DeviceId, cutoff: int, net: nat -> Outcome, now: int) returns (ranks: seq<nat>)
    requires Sound(q.table)
    ensures DueRanks(EligibleFor(q.table, d), cutoff, net, ranks)
    ensures var (q', n) := Sweep(q, Window(q.table, d, SWEEP_WINDOW), 0, cutoff, net, now);
      && n == |ranks| && q'.wire == q.wire + FramesAt(EligibleFor(q.table, d), ranks)
      && |q'.table| == |q.table|
      && forall k :: 0 <= k < |q.table| ==> q'.table[k] == SweptRow(q.table, k, d, cutoff, net, now)
  {
    var window := Window(q.table, d, SWEEP_WINDOW);
    WindowIsLive(q.table, d, SWEEP_WINDOW);
    assert window[0..] == window;
    ranks := SweepFrom(q, d, window, 0, cutoff, net, now);
    DueInWindow(q.table, d, cutoff, net, ranks);
    var (q', n) := Sweep(q, window, 0, cutoff, net, now);
    forall k | 0 <= k < |q.table| ensures q'.table[k] == SweptRow(q.table, k, d, cutoff, net, now) {
      SweepRow(q.table, q'.table, d, cutoff, net, now, k);
    }
  }

  // --- the sweep of every device ---

  /** What only touches other devices changes neither a device's list nor its ranks. */
  ghost predicate SameFor(t: Table, t': Table, d: DeviceId) {
    && |t'| == |t|
    && forall k :: 0 <= k < |t| ==>
         t'[k].device == t[k].device && t'[k].enqueuedAt == t[k].enqueuedAt && (t[k].device == d ==> t'[k] == t[k])
  }

  lemma {:induction false} SameListFor(t: Table, t': Table, d: DeviceId)
    requires SameFor(t, t', d)
    ensures EligibleFor(t', d) == EligibleFor(t, d)
  {
    if t != [] {
      var n := |t| - 1;
      assert SameFor(t[..n], t'[..n], d);
      SameListFor(t[..n], t'[..n], d);
    }
  }

  lemma {:induction false} SameAheadFor(t: Table, t': Table, n: nat, i: nat, d: DeviceId)
    requires SameFor(t, t', d) && n <= |t| && i < |t|
    ensures AheadAmong(t', n, i, d) == AheadAmong(t, n, i, d)
  {
    if n > 0 {
      SameAheadFor(t, t', n - 1, i, d);
    }
  }

  ghost predicate Distinct(devices: seq<DeviceId>) {
    forall i, j :: 0 <= i < j < |devices| ==> devices[i] != devices[j]
  }

  function AllFrames(t: Table, devices: seq<DeviceId>, ranks: seq<seq<nat>>): seq<Frame>
    requires |ranks| == |devices|
    requires forall j, m :: 0 <= j < |devices| && 0 <= m < |ranks[j]| ==> ranks[j][m] < |EligibleFor(t, devices[j])|
  {
    if devices == [] then []
    else
      var n := |devices| - 1;
      AllFrames(t, devices[..n], ranks[..n]) + FramesAt(EligibleFor(t, devices[n]), ranks[n])
  }

  ghost predicate AllDue(
      t: Table, devices: seq<DeviceId>, cutoff: int, net: (nat, nat) -> Outcome, ranks: seq<seq<nat>>)
  {
    && |ranks| == |devices|
    && forall j :: 0 <= j < |devices| ==> DueRanks(EligibleFor(t, devices[j]), cutoff, NetOf(net, j), ranks[j])
  }

  /** Each row of a swept device is as that device's sweep leaves it; no other row changes. */
  ghost predicate AllSwept(
      t: Table, t': Table, devices: seq<DeviceId>, cutoff: int, net: (nat, nat) -> Outcome, now: int)
  {
    && |t'| == |t|
    && (forall k, j :: 0 <= k < |t| && 0 <= j < |devices| && t[k].device == devices[j] ==>
          t'[k] == SweptRow(t, k, devices[j], cutoff, NetOf(net, j), now))
    && (forall k :: 0 <= k < |t| && t[k].device !in devices ==> t'[k] == t[k])
  }

  /** A sweep of all devices: its frames device by device, their number, and every row. */
  ghost predicate SweptAll(q: Queue, q': Queue, n: nat, devices: seq<DeviceId>, cutoff: int,
                           net: (nat, nat) -> Outcome, now: int, ranks: seq<seq<nat>>)
  {
    && AllDue(q.table, devices, cutoff, net, ranks)
    && q'.wire == q.wire + AllFrames(q.table, devices, ranks) && n == |AllFrames(q.table, devices, ranks)|
    && AllSwept(q.table, q'.table, devices, cutoff, net, now)
  }

  lemma AllDueOneMore(t: Table, devices: seq<DeviceId>, cutoff: int, net: (nat, nat) -> Outcome,
                      before: seq<seq<nat>>, mine: seq<nat>)
    requires devices != [] && AllDue(t, devices[..|devices| - 1], cutoff, net, before)
    requires var n := |devices| - 1; DueRanks(EligibleFor(t, devices[n]), cutoff, NetOf(net, n), mine)
    ensures AllDue(t, devices, cutoff, net, before + [mine])
    ensures AllFrames(t, devices, before + [mine])
         == AllFrames(t, devices[..|devices| - 1], before) + FramesAt(EligibleFor(t, devices[|devices| - 1]), mine)
  {
    var n, ranks := |devices| - 1, before + [mine];
    assert ranks[..n] == before && ranks[n] == mine;
    forall j | 0 <= j < |devices| ensures DueRanks(EligibleFor(t, devices[j]), cutoff, NetOf(net, j), ranks[j]) {
      if j < n {
        assert devices[..n][j] == devices[j] && ranks[j] == before[j];
      }
    }
  }

  lemma SweptOneDeviceMore(
      q: Queue, q1: Queue, n1: nat, devices: seq<DeviceId>, cutoff: int, net: (nat, nat) -> Outcome, now: int,
      before: seq<seq<nat>>) returns (ranks: seq<seq<nat>>)
    requires Sound(q1.table) && Distinct(devices) && devices != []
    requires SweptAll(q, q1, n1, devices[..|devices| - 1], cutoff, net, now, before)
    ensures var d := devices[|devices| - 1];
      var (q', n) := Sweep(q1, Window(q1.table, d, SWEEP_WINDOW), 0, cutoff, NetOf(net, |devices| - 1), now);
      SweptAll(q, q', n1 + n, devices, cutoff, net, now, ranks)
  {
    var m := |devices| - 1;
    var d, net1 := devices[m], NetOf(net, m);
    OthersSwept(q.table, q1.table, devices, cutoff, net, now);
    SameListFor(q.table, q1.table, d);
    var mine := SweepEffect(q1, d, cutoff, net1, now);
    var (q', n) := Sweep(q1, Window(q1.table, d, SWEEP_WINDOW), 0, cutoff, net1, now);
    LastSwept(q.table, q1.table, q'.table, devices, cutoff, net, now);
    ranks := before + [mine];
    SweptJoins(q, q1, q', n1, n, devices, cutoff, net, now, before, mine);
  }

  lemma SweptJoins(q: Queue, q1: Queue, q': Queue, n1: nat, n: nat, devices: seq<DeviceId>, cutoff: int,
                   net: (nat, nat) -> Outcome, now: int, before: seq<seq<nat>>, mine: seq<nat>)
    requires devices != [] && SweptAll(q, q1, n1, devices[..|devices| - 1], cutoff, net, now, before)
    requires var all := EligibleFor(q.table, devices[|devices| - 1]);
      && DueRanks(all, cutoff, NetOf(net, |devices| - 1), mine)
      && q'.wire == q1.wire + FramesAt(all, mine) && n == |mine|
    requires AllSwept(q.table, q'.table, devices, cutoff, net, now)
    ensures SweptAll(q, q', n1 + n, devices, cutoff, net, now, before + [mine])
  {
    var last := |devices| - 1;
    var frames := AllFrames(q.table, devices[..last], before);
    var more := FramesAt(EligibleFor(q.table, devices[last]), mine);
    AllDueOneMore(q.table, devices, cutoff, net, before, mine);
    Joined(q.wire, frames, more);
    assert |frames + more| == n1 + n;
  }

  lemma Joined(wire: seq<Frame>, frames: seq<Frame>, more: seq<Frame>)
    ensures wire + frames + more == wire + (frames + more)
  {
  }

  /** The sweep goes through the connected devices, and does to each what it would do to it alone. */
  lemma {:induction false} SweepAllEffect(
      q: Queue, devices: seq<DeviceId>, cutoff: int, net: (nat, nat) -> Outcome, now: int)
    returns (ranks: seq<seq<nat>>)
    requires Sound(q.table) && Distinct(devices)
    ensures var (q', n) := SweepDevices(q, devices, cutoff, net, now);
      && SweptAll(q, q', n, devices, cutoff, net, now, ranks)
      && q' == Apply(q, SweepOp(devices, cutoff, net, now))
  {
    if devices == [] {
      ranks := [];
      assert q.wire + [] == q.wire;
    } else {
      var init := devices[..|devices| - 1];
      var before := SweepAllEffect(q, init, cutoff, net, now);
      SweepDevicesProgress(q, init, cutoff, net, now);
      var (q1, n1) := SweepDevices(q, init, cutoff, net, now);
      ranks := SweptOneDeviceMore(q, q1, n1, devices, cutoff, net, now, before);
    }
  }

  lemma OthersSwept(t: Table, t1: Table, devices: seq<DeviceId>, cutoff: int, net: (nat, nat) -> Outcome, now: int)
    requires Distinct(devices) && devices != [] && AllSwept(t, t1, devices[..|devices| - 1], cutoff, net, now)
    ensures SameFor(t, t1, devices[|devices| - 1])
  {
    var n := |devices| - 1;
    forall k | 0 <= k < |t|
      ensures t1[k].device == t[k].device && t1[k].enqueuedAt == t[k].enqueuedAt
      ensures t[k].device == devices[n] ==> t1[k] == t[k]
    {
      if t[k].device in devices[..n] {
        var j :| 0 <= j < n && devices[..n][j] == t[k].device;
        assert devices[j] != devices[n];
      }
    }
  }

  lemma LastSwept(t: Table, t1: Table, t': Table, devices: seq<DeviceId>, cutoff: int, net: (nat, nat) -> Outcome,
                  now: int)
    requires Distinct(devices) && devices != [] && AllSwept(t, t1, devices[..|devices| - 1], cutoff, net, now)
    requires SameFor(t, t1, devices[|devices| - 1]) && |t'| == |t1|
    requires var n := |devices| - 1;
      forall k :: 0 <= k < |t1| ==> t'[k] == SweptRow(t1, k, devices[n], cutoff, NetOf(net, n), now)
    ensures AllSwept(t, t', devices, cutoff, net, now)
  {
    var n := |devices| - 1;
    forall k, j | 0 <= k < |t| && 0 <= j < |devices| && t[k].device == devices[j]
      ensures t'[k] == SweptRow(t, k, devices[j], cutoff, NetOf(net, j), now)
    {
      SameAheadFor(t, t1, |t|, k, devices[n]);
      if j < n {
        assert devices[..n][j] == devices[j] != devices[n];
      }
    }
    forall k | 0 <= k < |t| && t[k].device !in devices ensures t'[k] == t[k] {
      assert forall j :: 0 <= j < n ==> devices[..n][j] in devices;
    }
  }

  // --- the flush ---

  /** The first `stop` frames go out, and the next one, if there is a next one, is refused. */
  ghost predicate StopsAt(n: nat, net: nat -> Outcome, i: nat, stop: nat) {
    && i <= stop <= n
    && (forall r :: i <= r < stop ==> net(r).sent)
    && (stop < n ==> !net(stop).sent)
  }

  ghost function FlushHits(window: seq<Prompt>, stop: nat, net: nat -> Outcome): (hits: seq<bool>)
    ensures |hits| == |window| && forall r :: 0 <= r < |window| ==> hits[r] == (r < stop && net(r).stored)
  {
    seq(|window|, r requires 0 <= r < |window| => r < stop && net(r).stored)
  }

  function From(i: nat, stop: nat): (ranks: seq<nat>)
    requires i <= stop
    ensures |ranks| == stop - i && forall j :: 0 <= j < |ranks| ==> ranks[j] == i + j
  {
    seq(stop - i, (j: nat) => i + j)
  }

  lemma NoneRedispatched(t: Table, window: seq<Prompt>, i: nat, hits: seq<bool>, now: int)
    requires |hits| == |window| && forall r :: i <= r < |window| ==> !hits[r]
    ensures Redispatched(t, t, window, i, hits, now)
  {
  }

  lemma FlushUnrolls(q: Queue, window: seq<Prompt>, i: nat, net: nat -> Outcome, now: int)
    requires i < |window| && window[i].attempts < MAX_ATTEMPTS && net(i).sent
    ensures var (q', n) := Flush(DeliverOne(q, window[i], net(i), now), window, i + 1, net, now);
      Flush(q, window, i, net, now) == (q', n + 1)
  {
  }

  /** What is left of a flush, from place `i` on: frames, count, and rows. */
  ghost predicate FlushedFrom(
      q: Queue, q': Queue, n: nat, window: seq<Prompt>, i: nat, net: nat -> Outcome, now: int, stop: nat)
  {
    && StopsAt(|window|, net, i, stop)
    && n == stop - i && q'.wire == q.wire + FramesAt(window, From(i, stop))
    && Redispatched(q.table, q'.table, window, i, FlushHits(window, stop, net), now)
  }

  lemma FlushStops(q: Queue, window: seq<Prompt>, i: nat, net: nat -> Outcome, now: int)
    requires i <= |window| && (i < |window| ==> !net(i).sent)
    ensures FlushedFrom(q, q, 0, window, i, net, now, i)
  {
    assert q.wire + FramesAt(window, From(i, i)) == q.wire;
    NoneRedispatched(q.table, window, i, FlushHits(window, i, net), now);
  }

  lemma FlushWire(q: Queue, q1: Queue, window: seq<Prompt>, i: nat, stop: nat)
    requires i < |window| && i + 1 <= stop <= |window| && q1.wire == q.wire + [FrameOf(window[i])]
    ensures q1.wire + FramesAt(window, From(i + 1, stop)) == q.wire + FramesAt(window, From(i, stop))
  {
    PrependRank(window, i, From(i + 1, stop), q.wire);
    assert [i] + From(i + 1, stop) == From(i, stop);
  }

  lemma FlushOneMore(q: Queue, q1: Queue, q': Queue, n: nat, window: seq<Prompt>, i: nat, k0: nat,
                     net: nat -> Outcome, now: int, stop: nat)
    requires UniqueIds(q.table) && i < |window| && UniqueIds(window[i..]) && k0 < |q.table|
    requires q.table[k0] == window[i] && net(i).sent && q1 == DeliverOne(q, window[i], net(i), now)
    requires FlushedFrom(q1, q', n, window, i + 1, net, now, stop)
    ensures FlushedFrom(q, q', n + 1, window, i, net, now, stop)
  {
    var hits := FlushHits(window, stop, net);
    DispatchEffect(q, k0, net(i), now);
    RedispatchedOneMore(q.table, q1.table, q'.table, window, i, k0, hits, now);
    FlushWire(q, q1, window, i, stop);
  }

  lemma {:induction false} FlushFrom(
      q: Queue, d: DeviceId, window: seq<Prompt>, i: nat, net: nat -> Outcome, now: int) returns (stop: nat)
    requires Sound(q.table) && i <= |window| && Live(q.table, d, window[i..])
    ensures var (q', n) := Flush(q, window, i, net, now); FlushedFrom(q, q', n, window, i, net, now, stop)
    decreases |window| - i
  {
    if i >= |window| {
      stop := i;
      FlushStops(q, window, i, net, now);
    } else {
      var k0 := PlaceInTable(q.table, d, window, i);
      if !net(i).sent {
        stop := i;
        FlushStops(q, window, i, net, now);
      } else {
        var q1 := DeliverOne(q, window[i], net(i), now);
        DeliverOneProgress(q, d, window[i], net(i), now);
        LiveAfter(q.table, q1.table, d, window, i);
        stop := FlushFrom(q1, d, window, i + 1, net, now);
        FlushUnrolls(q, window, i, net, now);
        var (q', n) := Flush(q1, window, i + 1, net, now);
        FlushOneMore(q, q1, q', n, window, i, k0, net, now, stop);
      }
    }
  }

  /** What the flush, stopping at `stop`, makes of row `k`. */
  function FlushedRow(t: Table, k: nat, d: DeviceId, stop: nat, net: nat -> Outcome, now: int): Prompt
    requires k < |t|
  {
    var r := Rank(t, k, d);
    Retried(t[k], Eligible(t[k], d) && r < stop && net(r).stored, now)
  }

  lemma FlushRow(t: Table, t': Table, d: DeviceId, net: nat -> Outcome, now: int, stop: nat, k: nat)
    requires UniqueIds(t) && k < |t| && stop <= |Window(t, d, CONNECT_WINDOW)|
    requires var window := Window(t, d, CONNECT_WINDOW);
      Redispatched(t, t', window, 0, FlushHits(window, stop, net), now)
    ensures k < |t'| && t'[k] == FlushedRow(t, k, d, stop, net, now)
  {
    RedispatchedByRank(t, t', d, CONNECT_WINDOW, FlushHits(Window(t, d, CONNECT_WINDOW), stop, net), now, k);
  }

  /**
   The flush on connect sends the frames of the device's leading eligible rows, 50 at most, up to the first the socket
   refuses, and answers how many. Those rows gain one attempt where the write succeeds; every other row stays as it is.
   */
  lemma FlushEffect(q: Queue, d: DeviceId, net: nat -> Outcome, now: int) returns (stop: nat)
    requires Sound(q.table)
    ensures StopsAt(Min(50, |EligibleFor(q.table, d)|), net, 0, stop)
    ensures var (q', n) := Flush(q, Window(q.table, d, CONNECT_WINDOW), 0, net, now);
      && q' == Apply(q, FlushOp(d, net, now))
      && n == stop && q'.wire == q.wire + FramesAt(EligibleFor(q.table, d), From(0, stop))
      && |q'.table| == |q.table|
      && forall k :: 0 <= k < |q.table| ==> q'.table[k] == FlushedRow(q.table, k, d, stop, net, now)
  {
    var all, window := EligibleFor(q.table, d), Window(q.table, d, CONNECT_WINDOW);
    WindowIsLive(q.table, d, CONNECT_WINDOW);
    assert window[0..] == window;
    stop := FlushFrom(q, d, window, 0, net, now);
    var (q', n) := Flush(q, window, 0, net, now);
    assert FramesAt(window, From(0, stop)) == FramesAt(all, From(0, stop));
    forall k | 0 <= k < |q.table| ensures q'.table[k] == FlushedRow(q.table, k, d, stop, net, now) {
      FlushRow(q.table, q'.table, d, net, now, stop, k);
    }
  }
}
