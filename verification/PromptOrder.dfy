/**
 The order prompts are read in (backend/internal/adapter/postgres/queue_store.go:98-122): where a row stands among its
 device's eligible rows, and what the query's ORDER BY and LIMIT leave open.
 */
module PromptOrder {
  import opened Prelude
  import opened Prompts
  import Paging

  // --- the eligible rows, in order ---

  ghost predicate InOrder(ps: seq<Prompt>) {
    forall i, j :: 0 <= i < j < |ps| ==> ps[i].enqueuedAt <= ps[j].enqueuedAt
  }

  lemma {:induction false} SlotDivides(ps: seq<Prompt>, time: int)
    requires InOrder(ps)
    ensures forall i :: 0 <= i < |ps| ==> (i < Slot(ps, time) <==> ps[i].enqueuedAt <= time)
  {
    if ps != [] && ps[|ps| - 1].enqueuedAt > time {
      SlotDivides(ps[..|ps| - 1], time);
      assert forall i :: 0 <= i < |ps| - 1 ==> ps[..|ps| - 1][i] == ps[i];
    }
  }

  lemma SlotIs(ps: seq<Prompt>, time: int, k: nat)
    requires InOrder(ps) && k <= |ps|
    requires forall i :: 0 <= i < |ps| ==> (i < k <==> ps[i].enqueuedAt <= time)
    ensures Slot(ps, time) == k
  {
    SlotDivides(ps, time);
    var s := Slot(ps, time);
    assert s < |ps| ==> (ps[s].enqueuedAt <= time <==> s < k);
    assert k < |ps| ==> (ps[k].enqueuedAt <= time <==> k < s);
  }

  lemma InsertKeepsOrder(ps: seq<Prompt>, p: Prompt)
    requires InOrder(ps)
    ensures InOrder(Insert(ps, p))
  {
    SlotDivides(ps, p.enqueuedAt);
    var k, r := Slot(ps, p.enqueuedAt), Insert(ps, p);
    assert forall i :: 0 <= i < k ==> r[i] == ps[i];
    assert forall i :: k < i < |r| ==> r[i] == ps[i - 1];
  }

  /** Inserting moves a time's slot up exactly when what is inserted is not later. */
  lemma SlotAfterInsert(ps: seq<Prompt>, p: Prompt, time: int)
    requires InOrder(ps)
    ensures Slot(Insert(ps, p), time) == Slot(ps, time) + if p.enqueuedAt <= time then 1 else 0
  {
    var k, r := Slot(ps, p.enqueuedAt), Insert(ps, p);
    SlotDivides(ps, p.enqueuedAt);
    SlotDivides(ps, time);
    InsertKeepsOrder(ps, p);
    assert forall i :: 0 <= i < k ==> r[i] == ps[i];
    assert forall i :: k < i < |r| ==> r[i] == ps[i - 1];
    SlotIs(r, time, Slot(ps, time) + if p.enqueuedAt <= time then 1 else 0);
  }

  lemma {:induction false} EligibleInOrder(t: Table, d: DeviceId)
    ensures InOrder(EligibleFor(t, d))
  {
    if t != [] {
      var n := |t| - 1;
      EligibleInOrder(t[..n], d);
      InsertKeepsOrder(EligibleFor(t[..n], d), t[n]);
    }
  }

  lemma InsertHolds(ps: seq<Prompt>, p: Prompt, x: Prompt)
    ensures x in Insert(ps, p) <==> x in ps || x == p
  {
    var k := Slot(ps, p.enqueuedAt);
    assert ps == ps[..k] + ps[k..];
  }

  lemma {:induction false} EligibleRows(t: Table, d: DeviceId)
    ensures forall p :: p in EligibleFor(t, d) <==> p in t && Eligible(p, d)
  {
    if t != [] {
      var n := |t| - 1;
      EligibleRows(t[..n], d);
      assert forall p :: p in t <==> p in t[..n] || p == t[n];
      forall p ensures p in Insert(EligibleFor(t[..n], d), t[n]) <==> p in EligibleFor(t[..n], d) || p == t[n] {
        InsertHolds(EligibleFor(t[..n], d), t[n], p);
      }
    }
  }

  lemma {:induction false} EligibleUnique(t: Table, d: DeviceId)
    requires UniqueIds(t)
    ensures UniqueIds(EligibleFor(t, d))
  {
    if t != [] {
      var n := |t| - 1;
      EligibleUnique(t[..n], d);
      EligibleRows(t[..n], d);
      var before := EligibleFor(t[..n], d);
      forall q | q in before ensures q.id != t[n].id {
        assert q in t[..n];
      }
    }
  }

  lemma {:induction false} FindInWindow(window: seq<Prompt>, id: PromptId)
    ensures Find(window, id).Some? ==> Find(window, id).value in window && Find(window, id).value.id == id
    ensures Find(window, id).None? ==> forall k :: 0 <= k < |window| ==> window[k].id != id
    ensures UniqueIds(window) ==>
      forall k :: 0 <= k < |window| && window[k].id == id ==> Find(window, id) == Some(window[k])
  {
    if window != [] && window[0].id != id {
      FindInWindow(window[1..], id);
      forall k | 0 <= k < |window| && window[k].id == id ensures k > 0 && window[1..][k - 1] == window[k] {
      }
    }
  }

  // --- rank ---

  /** Row `j` is read before row `i`: enqueued earlier, or at the same time and inserted earlier. */
  predicate Ahead(t: Table, j: nat, i: nat)
    requires i < |t| && j < |t|
  {
    t[j].enqueuedAt < t[i].enqueuedAt || (t[j].enqueuedAt == t[i].enqueuedAt && j < i)
  }

  /** How many of the first `n` rows are eligible and ahead of row `i`. */
  function AheadAmong(t: Table, n: nat, i: nat, d: DeviceId): nat
    requires n <= |t| && i < |t|
  {
    if n == 0 then 0
    else AheadAmong(t, n - 1, i, d) + if Eligible(t[n - 1], d) && Ahead(t, n - 1, i) then 1 else 0
  }

  /** How many eligible rows of the device are ahead of row `i`. */
  function Rank(t: Table, i: nat, d: DeviceId): nat
    requires i < |t|
  {
    AheadAmong(t, |t|, i, d)
  }

  lemma SlotStep(t: Table, n: nat, time: int, d: DeviceId)
    requires n < |t|
    ensures Slot(EligibleFor(t[..n + 1], d), time)
         == Slot(EligibleFor(t[..n], d), time) + if Eligible(t[n], d) && t[n].enqueuedAt <= time then 1 else 0
  {
    var before := EligibleFor(t[..n], d);
    EligibleStep(t, n, d);
    EligibleInOrder(t[..n], d);
    SlotAfterInsert(before, t[n], time);
  }

  /** Before row `i` itself is reached, its slot is its count. */
  lemma {:induction false} SlotIsCount(t: Table, n: nat, i: nat, d: DeviceId)
    requires n <= i < |t|
    ensures Slot(EligibleFor(t[..n], d), t[i].enqueuedAt) == AheadAmong(t, n, i, d)
  {
    if n > 0 {
      var time := t[i].enqueuedAt;
      SlotIsCount(t, n - 1, i, d);
      SlotStep(t, n - 1, time, d);
      assert Ahead(t, n - 1, i) <==> t[n - 1].enqueuedAt <= time;
    }
  }

  lemma InsertShifts(ps: seq<Prompt>, p: Prompt, c: nat)
    requires InOrder(ps) && c < |ps|
    ensures Insert(ps, p)[c + if p.enqueuedAt < ps[c].enqueuedAt then 1 else 0] == ps[c]
  {
    SlotDivides(ps, p.enqueuedAt);
  }

  lemma RowArrives(t: Table, i: nat, d: DeviceId)
    requires i < |t| && Eligible(t[i], d)
    ensures var c := AheadAmong(t, i + 1, i, d);
      c < |EligibleFor(t[..i + 1], d)| && EligibleFor(t[..i + 1], d)[c] == t[i]
  {
    EligibleStep(t, i, d);
    SlotIsCount(t, i, i, d);
  }

  /** One more row of the table, and row `i` is still where its count says. */
  lemma RowStays(t: Table, n: nat, i: nat, d: DeviceId)
    requires i < n < |t| && AheadAmong(t, n, i, d) < |EligibleFor(t[..n], d)|
    requires EligibleFor(t[..n], d)[AheadAmong(t, n, i, d)] == t[i]
    ensures AheadAmong(t, n + 1, i, d) < |EligibleFor(t[..n + 1], d)|
    ensures EligibleFor(t[..n + 1], d)[AheadAmong(t, n + 1, i, d)] == t[i]
  {
    EligibleStep(t, n, d);
    EligibleInOrder(t[..n], d);
    InsertShifts(EligibleFor(t[..n], d), t[n], AheadAmong(t, n, i, d));
  }

  lemma {:induction false} RowAtCount(t: Table, n: nat, i: nat, d: DeviceId)
    requires i < n <= |t| && Eligible(t[i], d)
    ensures AheadAmong(t, n, i, d) < |EligibleFor(t[..n], d)|
    ensures EligibleFor(t[..n], d)[AheadAmong(t, n, i, d)] == t[i]
  {
    if n == i + 1 {
      RowArrives(t, i, d);
    } else {
      RowAtCount(t, n - 1, i, d);
      RowStays(t, n - 1, i, d);
    }
  }

  /** An eligible row stands in the list at its rank. */
  lemma RowAtRank(t: Table, i: nat, d: DeviceId)
    requires i < |t| && Eligible(t[i], d)
    ensures Rank(t, i, d) < |EligibleFor(t, d)| && EligibleFor(t, d)[Rank(t, i, d)] == t[i]
  {
    RowAtCount(t, |t|, i, d);
    assert t[..|t|] == t;
  }

  /** In a table with unique ids a row is in a window exactly when it is eligible and its rank is below the limit. */
  lemma InWindowIff(t: Table, i: nat, d: DeviceId, limit: int)
    requires UniqueIds(t) && i < |t|
    ensures t[i] in Window(t, d, limit) <==> Eligible(t[i], d) && Rank(t, i, d) < Paging.Clamp(limit)
    ensures Find(Window(t, d, limit), t[i].id)
         == if Eligible(t[i], d) && Rank(t, i, d) < Paging.Clamp(limit) then Some(t[i]) else None
  {
    var all, window := EligibleFor(t, d), Window(t, d, limit);
    EligibleRows(t, d);
    EligibleUnique(t, d);
    FindInWindow(window, t[i].id);
    if Eligible(t[i], d) {
      RowAtRank(t, i, d);
      if Rank(t, i, d) < Paging.Clamp(limit) {
        assert window[Rank(t, i, d)] == t[i];
      }
    }
    forall k | 0 <= k < |window| && window[k].id == t[i].id
      ensures Eligible(t[i], d) && Rank(t, i, d) == k
    {
      assert window[k] == all[k] && all[k] in t;
      assert all[k] == t[i];
    }
  }

  /** A new row moves row `i` back exactly when the device may be sent it and its time is the earlier one. */
  lemma EnqueueMovesBackIff(t: Table, p: Prompt, i: nat, d: DeviceId)
    requires i < |t|
    ensures Rank(t + [p], i, d) == Rank(t, i, d) + if Eligible(p, d) && p.enqueuedAt < t[i].enqueuedAt then 1 else 0
  {
    AheadAmongExtends(t, [p], |t|, i, d);
    assert (t + [p])[|t|] == p;
  }

  lemma {:induction false} AheadAmongExtends(t: Table, more: Table, n: nat, i: nat, d: DeviceId)
    requires n <= |t| && i < |t|
    ensures AheadAmong(t + more, n, i, d) == AheadAmong(t, n, i, d)
  {
    if n > 0 {
      AheadAmongExtends(t, more, n - 1, i, d);
    }
  }

  // --- the window against the query's own wording ---

  /** SELECT … WHERE device, status, attempts ORDER BY enqueued_at ASC LIMIT: every answer SQL allows. */
  ghost predicate SqlAnswer(t: Table, d: DeviceId, limit: int, out: seq<Prompt>) {
    && |out| <= Paging.Clamp(limit) && UniqueIds(out) && InOrder(out)
    && (forall k :: 0 <= k < |out| ==> out[k] in t && Eligible(out[k], d))
    && (forall p :: p in t && Eligible(p, d) && p !in out ==>
          |out| == Paging.Clamp(limit) && forall k :: 0 <= k < |out| ==> out[k].enqueuedAt <= p.enqueuedAt)
  }

  ghost predicate Increasing(ps: seq<Prompt>) {
    forall i, j :: 0 <= i < j < |ps| ==> ps[i].enqueuedAt < ps[j].enqueuedAt
  }

  ghost predicate DistinctTimes(ps: seq<Prompt>) {
    forall i, j :: 0 <= i < j < |ps| ==> ps[i].enqueuedAt != ps[j].enqueuedAt
  }

  lemma EligibleDistinctTimes(t: Table, d: DeviceId)
    requires UniqueIds(t) && DistinctTimes(t)
    ensures Increasing(EligibleFor(t, d))
  {
    var all := EligibleFor(t, d);
    EligibleRows(t, d);
    EligibleUnique(t, d);
    EligibleInOrder(t, d);
    forall i, j | 0 <= i < j < |all| ensures all[i].enqueuedAt < all[j].enqueuedAt {
      assert all[i] in all && all[j] in all && all[i].id != all[j].id;
    }
  }

  /** SqlAnswer with the eligible rows listed. */
  ghost predicate AnswerFrom(all: seq<Prompt>, limit: nat, out: seq<Prompt>) {
    && |out| <= limit && UniqueIds(out) && InOrder(out)
    && (forall k :: 0 <= k < |out| ==> out[k] in all)
    && (forall p :: p in all && p !in out ==>
          |out| == limit && forall k :: 0 <= k < |out| ==> out[k].enqueuedAt <= p.enqueuedAt)
  }

  lemma PrefixIsAnswer(all: seq<Prompt>, limit: nat)
    requires InOrder(all) && UniqueIds(all)
    ensures AnswerFrom(all, limit, all[..Min(limit, |all|)])
  {
    var out := all[..Min(limit, |all|)];
    forall p | p in all && p !in out
      ensures |out| == limit && forall k :: 0 <= k < |out| ==> out[k].enqueuedAt <= p.enqueuedAt
    {
      var j :| 0 <= j < |all| && all[j] == p;
      assert j >= |out|;
    }
  }

  lemma AnswersAgree(t: Table, d: DeviceId, limit: int, out: seq<Prompt>)
    ensures SqlAnswer(t, d, limit, out) <==> AnswerFrom(EligibleFor(t, d), Paging.Clamp(limit), out)
  {
    EligibleRows(t, d);
  }

  /** The window is an answer of the query on every table. */
  lemma WindowIsAnAnswer(t: Table, d: DeviceId, limit: int)
    requires UniqueIds(t)
    ensures SqlAnswer(t, d, limit, Window(t, d, limit))
  {
    EligibleUnique(t, d);
    EligibleInOrder(t, d);
    PrefixIsAnswer(EligibleFor(t, d), Paging.Clamp(limit));
    AnswersAgree(t, d, limit, Window(t, d, limit));
  }

  lemma SkippedIsMissing(all: seq<Prompt>, out: seq<Prompt>, n: nat, j: nat)
    requires Increasing(all) && InOrder(out) && n < |out| && n < j < |all| && all[j] == out[n]
    requires forall i :: 0 <= i < n ==> out[i] == all[i]
    ensures all[n] in all && all[n] !in out
  {
    forall k | 0 <= k < |out| ensures out[k] != all[n] {
      if k >= n {
        assert out[n].enqueuedAt <= out[k].enqueuedAt;
      }
    }
  }

  lemma NextIsLeast(all: seq<Prompt>, limit: nat, out: seq<Prompt>, n: nat, j: nat)
    requires Increasing(all) && AnswerFrom(all, limit, out)
    requires n < |out| && j < |all| && all[j] == out[n]
    requires n <= |all| && forall i :: 0 <= i < n ==> out[i] == all[i]
    ensures j == n
  {
    if j > n {
      SkippedIsMissing(all, out, n, j);
      assert false;
    }
  }

  lemma {:induction false} AnswerIsPrefix(all: seq<Prompt>, limit: nat, out: seq<Prompt>, n: nat)
    requires Increasing(all) && AnswerFrom(all, limit, out) && n <= |out|
    ensures n <= |all| && forall i :: 0 <= i < n ==> out[i] == all[i]
  {
    if n > 0 {
      AnswerIsPrefix(all, limit, out, n - 1);
      assert out[n - 1] in all;
      var j :| 0 <= j < |all| && all[j] == out[n - 1];
      NextIsLeast(all, limit, out, n - 1, j);
    }
  }

  lemma NotInPrefix(all: seq<Prompt>, n: nat)
    requires UniqueIds(all) && n < |all|
    ensures all[n] !in all[..n]
  {
  }

  lemma OnlyAnswer(all: seq<Prompt>, limit: nat, out: seq<Prompt>)
    requires Increasing(all) && UniqueIds(all) && AnswerFrom(all, limit, out)
    ensures out == all[..Min(limit, |all|)]
  {
    AnswerIsPrefix(all, limit, out, |out|);
    assert out == all[..|out|];
    if |out| < |all| && |out| < limit {
      NotInPrefix(all, |out|);
    }
  }

  /** When enqueue times are distinct the query has one answer, and it is the window. */
  lemma WindowIsTheSqlAnswer(t: Table, d: DeviceId, limit: int, out: seq<Prompt>)
    requires UniqueIds(t) && DistinctTimes(t)
    ensures SqlAnswer(t, d, limit, out) <==> out == Window(t, d, limit)
  {
    WindowIsAnAnswer(t, d, limit);
    if SqlAnswer(t, d, limit, out) {
      EligibleDistinctTimes(t, d);
      EligibleUnique(t, d);
      AnswersAgree(t, d, limit, out);
      OnlyAnswer(EligibleFor(t, d), Paging.Clamp(limit), out);
    }
  }
}
