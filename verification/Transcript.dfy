/**
 A session's transcript: numbering incoming lines, storing them, reading on from a number
 (backend/internal/app/session.go:264-293, backend/internal/adapter/postgres/session_store.go:192-279).
 */
module Transcript {
  import opened Prelude
  import Paging

  type SessionId = nat

  datatype Row = Row(seqNo: nat, stream: string, content: string, truncated: bool)

  /** A LOG frame. */
  datatype Payload = Payload(stream: string, lines: seq<string>, truncated: bool)

  /** One session's rows by sequence number. */
  type Rows = map<nat, Row>

  predicate IsMax(m: Rows, top: nat) {
    (top in m || top == 0) && forall k :: k in m ==> k <= top
  }

  lemma {:induction false} MaxExists(m: Rows)
    ensures exists top :: IsMax(m, top)
  {
    if m == map[] {
      assert IsMax(m, 0);
    } else {
      var k :| k in m;
      MaxExists(m - {k});
      var top :| IsMax(m - {k}, top);
      forall j | j in m ensures j == k || j <= top {
        assert j != k ==> j in m - {k};
      }
      assert IsMax(m, if k > top then k else top);
    }
  }

  ghost function MaxSeq(m: Rows): (top: nat)
    ensures IsMax(m, top)
  {
    MaxExists(m);
    var top :| IsMax(m, top);
    top
  }

  /** The i-th line of a frame, numbered on from `top`. */
  function LineRow(top: nat, p: Payload, i: nat): Row
    requires i < |p.lines|
  {
    Row(top + i + 1, p.stream, p.lines[i], p.truncated && i == 0)
  }

  /** INSERT … ON CONFLICT DO NOTHING, row by row: a number that is taken keeps its row. */
  function Ingested(m: Rows, batch: seq<Row>): Rows {
    if batch == [] then m
    else
      var before := Ingested(m, batch[..|batch| - 1]);
      var row := batch[|batch| - 1];
      if row.seqNo in before then before else before[row.seqNo := row]
  }

  /** The first `n` lines of a frame. */
  function Numbered(top: nat, p: Payload, n: nat): (batch: seq<Row>)
    requires n <= |p.lines|
    ensures |batch| == n
  {
    seq(n, i requires 0 <= i < n => LineRow(top, p, i))
  }

  function AllNumbered(top: nat, p: Payload): (batch: seq<Row>)
    ensures |batch| == |p.lines|
  {
    Numbered(top, p, |p.lines|)
  }

  /** The transcript after a frame. */
  ghost function Appended(m: Rows, p: Payload): Rows {
    Ingested(m, AllNumbered(MaxSeq(m), p))
  }

  /** No line of a frame meets a number that is taken: every one of them is stored. */
  lemma {:induction false} AppendedAt(m: Rows, top: nat, p: Payload, n: nat, k: nat)
    requires IsMax(m, top) && n <= |p.lines|
    ensures var m' := Ingested(m, Numbered(top, p, n));
      && (k in m' <==> k in m || top < k <= top + n)
      && (k in m ==> m'[k] == m[k])
      && (top < k <= top + n ==> m'[k] == Row(k, p.stream, p.lines[k - top - 1], p.truncated && k == top + 1))
  {
    if n > 0 {
      assert Numbered(top, p, n)[..n - 1] == Numbered(top, p, n - 1);
      AppendedAt(m, top, p, n - 1, k);
      AppendedAt(m, top, p, n - 1, top + n);
    }
  }

  /** A batch keeps every row that is there; a new number gets the first row of the batch that carries it. */
  lemma {:induction false} IngestedAt(m: Rows, batch: seq<Row>, k: nat)
    ensures var m' := Ingested(m, batch);
      && (k in m ==> k in m' && m'[k] == m[k])
      && (k !in m ==> (k in m' <==> exists j :: 0 <= j < |batch| && batch[j].seqNo == k))
      && (k !in m && k in m' ==>
            exists j :: 0 <= j < |batch| && m'[k] == batch[j] && batch[j].seqNo == k
              && forall i :: 0 <= i < j ==> batch[i].seqNo != k)
  {
    if batch != [] {
      var init, last := batch[..|batch| - 1], batch[|batch| - 1];
      IngestedAt(m, init, k);
      assert batch == init + [last];
      if k !in m && k in Ingested(m, init) {
        var j :| 0 <= j < |init| && Ingested(m, init)[k] == init[j] && init[j].seqNo == k
          && forall i :: 0 <= i < j ==> init[i].seqNo != k;
        assert batch[j] == init[j] && forall i :: 0 <= i < j ==> batch[i] == init[i];
      }
    }
  }

  class LogStore {
    var logs: map<SessionId, Rows>

    constructor ()
      ensures logs == map[]
    {
      logs := map[];
    }

    function Of(s: SessionId): Rows
      reads this
    {
      if s in logs then logs[s] else map[]
    }

    method HighestSeq(s: SessionId) returns (top: nat)
      ensures IsMax(Of(s), top)
    {
      top := 0;
      var m := Of(s);
      var rest := m.Keys;
      while rest != {}
        invariant rest <= m.Keys && (top in m || top == 0)
        invariant forall k :: k in m && k !in rest ==> k <= top
      {
        var k :| k in rest;
        rest := rest - {k};
        if k > top {
          top := k;
        }
      }
    }

    method AppendBatch(s: SessionId, batch: seq<Row>)
      modifies this
      ensures logs == old(logs)[s := Ingested(if s in old(logs) then old(logs)[s] else map[], batch)]
    {
      var m := Of(s);
      for n := 0 to |batch|
        invariant logs == old(logs) && m == Ingested(Of(s), batch[..n])
      {
        assert batch[..n + 1][..n] == batch[..n];
        if batch[n].seqNo !in m {
          m := m[batch[n].seqNo := batch[n]];
        }
      }
      assert batch[..|batch|] == batch;
      logs := logs[s := m];
    }

    method AppendLogs(s: SessionId, p: Payload)
      modifies this
      ensures p.lines == [] ==> logs == old(logs)
      ensures p.lines != [] ==>
        logs == old(logs)[s := Appended(if s in old(logs) then old(logs)[s] else map[], p)]
    {
      if |p.lines| == 0 {
        return;
      }
      var top := HighestSeq(s);
      var batch: seq<Row> := [];
      for i := 0 to |p.lines|
        invariant batch == Numbered(top, p, i)
      {
        batch := batch + [Row(top + i + 1, p.stream, p.lines[i], p.truncated && i == 0)];
      }
      AppendBatch(s, batch);
    }

    /** The stored rows after a number, in order, no more than the clamped limit. */
    method After(s: SessionId, after: nat, limit: int) returns (rows: seq<Row>)
      ensures s !in logs ==> rows == []
      ensures s in logs ==>
        var all := Following(logs[s], after); rows == all[..Min(Paging.Clamp(limit), |all|)]
    {
      var m := Of(s);
      var top := HighestSeq(s);
      rows := [];
      var k := after;
      while k < top && |rows| < Paging.Clamp(limit)
        invariant |rows| <= Paging.Clamp(limit) && after <= k && (k <= top || k == after)
        invariant rows == Between(m, after, k)
      {
        k := k + 1;
        if k in m {
          rows := rows + [m[k]];
        }
      }
      BetweenSplit(m, after, k, MaxSeq(m));
    }
  }

  // --- reading in order ---

  /** The rows numbered above `after` and up to `last`, ascending. */
  function Between(m: Rows, after: nat, last: nat): seq<Row> {
    if last <= after then []
    else Between(m, after, last - 1) + if last in m then [m[last]] else []
  }

  /** All a reader who has read up to `after` has yet to read. */
  ghost function Following(m: Rows, after: nat): seq<Row> {
    Between(m, after, MaxSeq(m))
  }

  lemma {:induction false} BetweenSplit(m: Rows, after: nat, mid: nat, last: nat)
    requires after <= mid
    ensures mid <= last ==> Between(m, after, last) == Between(m, after, mid) + Between(m, mid, last)
    decreases last
  {
    if mid < last {
      BetweenSplit(m, after, mid, last - 1);
    }
  }

  lemma {:induction false} BetweenAgree(m: Rows, m': Rows, after: nat, last: nat)
    requires forall k :: k <= last ==> (k in m <==> k in m') && (k in m ==> m[k] == m'[k])
    ensures Between(m, after, last) == Between(m', after, last)
  {
    if after < last {
      BetweenAgree(m, m', after, last - 1);
    }
  }

  lemma OneLineMore(rows: seq<Row>, from: nat, n: nat)
    requires from < n <= |rows|
    ensures rows[from..n] == rows[from..n - 1] + [rows[n - 1]]
  {
  }

  /** A stretch of numbers given to a frame's lines reads back as those lines. */
  lemma {:induction false} ReadsLines(m: Rows, top: nat, p: Payload, from: nat, n: nat)
    requires from <= n <= |p.lines|
    requires forall k :: top < k <= top + n ==> k in m && m[k] == LineRow(top, p, k - top - 1)
    ensures Between(m, top + from, top + n) == AllNumbered(top, p)[from..n]
  {
    if from < n {
      ReadsLines(m, top, p, from, n - 1);
      OneLineMore(AllNumbered(top, p), from, n);
    }
  }

  lemma MaxOfAppended(m: Rows, p: Payload)
    ensures MaxSeq(Appended(m, p)) == MaxSeq(m) + |p.lines|
  {
    var top := MaxSeq(m);
    var m', n := Appended(m, p), |p.lines|;
    AppendedAt(m, top, p, n, top + n);
    AppendedAt(m, top, p, n, MaxSeq(m'));
  }

  lemma AppendedAll(m: Rows, p: Payload)
    ensures Extends(m, Appended(m, p), MaxSeq(m), p)
  {
    forall k: nat
      ensures k in m ==> k in Appended(m, p) && Appended(m, p)[k] == m[k]
      ensures k in Appended(m, p) ==> k in m || MaxSeq(m) < k
      ensures MaxSeq(m) < k <= MaxSeq(m) + |p.lines| ==>
        k in Appended(m, p) && Appended(m, p)[k] == LineRow(MaxSeq(m), p, k - MaxSeq(m) - 1)
    {
      AppendedAt(m, MaxSeq(m), p, |p.lines|, k);
    }
  }

  // --- what a reader sees ---

  /** How many of `n` new lines a reader at `after` never sees when the highest number stored was `top`. */
  function Missed(after: nat, top: nat, n: nat): nat {
    if after <= top then 0 else Min(after - top, n)
  }

  /** `m'` is `m` up to `top`, and then the frame's lines. */
  ghost predicate Extends(m: Rows, m': Rows, top: nat, p: Payload) {
    && (forall k :: k <= top ==> (k in m <==> k in m') && (k in m ==> m[k] == m'[k]))
    && (forall k :: top < k <= top + |p.lines| ==> k in m' && m'[k] == LineRow(top, p, k - top - 1))
  }

  lemma ReadFromBehind(m: Rows, m': Rows, top: nat, p: Payload, after: nat)
    requires Extends(m, m', top, p) && after <= top
    ensures Between(m', after, top + |p.lines|) == Between(m, after, top) + AllNumbered(top, p)
  {
    BetweenSplit(m', after, top, top + |p.lines|);
    BetweenAgree(m, m', after, top);
    ReadsLines(m', top, p, 0, |p.lines|);
  }

  lemma ReadFromAhead(m: Rows, m': Rows, top: nat, p: Payload, after: nat)
    requires Extends(m, m', top, p) && top < after <= top + |p.lines|
    ensures Between(m', after, top + |p.lines|) == AllNumbered(top, p)[after - top..]
  {
    ReadsLines(m', top, p, after - top, |p.lines|);
  }

  /**
   A frame arrives while a reader stands at `after`. What the reader has yet to read grows by the frame's lines, less
   the first few when the highest number stored has fallen below where the reader stands.
   */
  lemma NewLinesRead(m: Rows, p: Payload, after: nat)
    ensures Following(Appended(m, p), after)
         == Following(m, after) + AllNumbered(MaxSeq(m), p)[Missed(after, MaxSeq(m), |p.lines|)..]
  {
    var m', top := Appended(m, p), MaxSeq(m);
    MaxOfAppended(m, p);
    AppendedAll(m, p);
    if after <= top {
      ReadFromBehind(m, m', top, p, after);
    } else if after <= top + |p.lines| {
      ReadFromAhead(m, m', top, p, after);
    }
  }

  /** So none is missed exactly when the reader is not ahead of what is stored. */
  lemma NothingMissedIff(m: Rows, p: Payload, after: nat)
    requires p.lines != []
    ensures Following(Appended(m, p), after) == Following(m, after) + AllNumbered(MaxSeq(m), p) <==> after <= MaxSeq(m)
  {
    NewLinesRead(m, p, after);
    var all, missed := AllNumbered(MaxSeq(m), p), Missed(after, MaxSeq(m), |p.lines|);
    assert missed == 0 ==> all[missed..] == all;
    assert missed > 0 ==> |all[missed..]| < |all|;
  }

  // --- a reader polling while frames arrive and old rows are deleted ---

  datatype Event = Frame(p: Payload) | Retain(kept: Rows) | Poll(limit: int)

  /** `got` is what the reader has been sent, up to number `cursor`; `all` every line stored since the reader began. */
  datatype World = World(rows: Rows, cursor: nat, got: seq<Row>, all: seq<Row>)

  ghost function PageAfter(m: Rows, after: nat, limit: int): seq<Row> {
    var rest := Following(m, after);
    rest[..Min(Paging.Clamp(limit), |rest|)]
  }

  ghost function Do(w: World, e: Event): World {
    match e
    case Frame(p) => w.(rows := Appended(w.rows, p), all := w.all + AllNumbered(MaxSeq(w.rows), p))
    case Retain(kept) => w.(rows := kept)
    case Poll(limit) =>
      var page := PageAfter(w.rows, w.cursor, limit);
      if page == [] then w else w.(cursor := page[|page| - 1].seqNo, got := w.got + page)
  }

  /** Deletion removes rows, any rows: it goes by their age, not by who has read them. */
  ghost predicate Possible(w: World, e: Event) {
    e.Retain? ==> forall k :: k in e.kept ==> k in w.rows && e.kept[k] == w.rows[k]
  }

  ghost predicate Run(ws: seq<World>, events: seq<Event>) {
    && |ws| == |events| + 1
    && ws[0] == World(map[], 0, [], [])
    && forall i :: 0 <= i < |events| ==> Possible(ws[i], events[i]) && ws[i + 1] == Do(ws[i], events[i])
  }

  /** Deletion leaves what the reader has not read, and lines arrive while the reader is not ahead of what is stored. */
  ghost predicate Harmless(w: World, e: Event) {
    && (e.Retain? ==> forall k :: k in w.rows && w.cursor < k ==> k in e.kept)
    && (e.Frame? && e.p.lines != [] ==> w.cursor <= MaxSeq(w.rows))
  }

  /** What the reader has and has yet to read are all lines there were, once and in order. */
  ghost predicate Complete(w: World) {
    w.got + Following(w.rows, w.cursor) == w.all
  }

  ghost predicate Keyed(m: Rows) {
    forall k :: k in m ==> m[k].seqNo == k
  }

  lemma {:induction false} BetweenNumbers(m: Rows, after: nat, last: nat, j: nat)
    requires Keyed(m) && j < |Between(m, after, last)|
    ensures after < Between(m, after, last)[j].seqNo <= last
  {
    if j < |Between(m, after, last - 1)| {
      BetweenNumbers(m, after, last - 1, j);
    }
  }

  /** Reading on from a row's number gives the rows after it. */
  lemma {:induction false} BetweenFrom(m: Rows, after: nat, last: nat, j: nat)
    requires Keyed(m) && 0 < j <= |Between(m, after, last)|
    ensures Between(m, Between(m, after, last)[j - 1].seqNo, last) == Between(m, after, last)[j..]
  {
    var before := Between(m, after, last - 1);
    if j <= |before| {
      BetweenFrom(m, after, last - 1, j);
      BetweenNumbers(m, after, last - 1, j - 1);
    }
  }

  lemma {:induction false} BetweenHolds(m: Rows, after: nat, last: nat, k: nat)
    requires Keyed(m) && k in m && after < k <= last
    ensures m[k] in Between(m, after, last)
  {
    if k < last {
      BetweenHolds(m, after, last - 1, k);
    }
  }

  lemma {:induction false} BetweenHeld(m: Rows, after: nat, last: nat, row: Row)
    requires Keyed(m) && row in Between(m, after, last)
    ensures row.seqNo in m && m[row.seqNo] == row
  {
    if row in Between(m, after, last - 1) {
      BetweenHeld(m, after, last - 1, row);
    }
  }

  lemma StepKeepsKeyed(w: World, e: Event)
    requires Keyed(w.rows) && Possible(w, e)
    ensures Keyed(Do(w, e).rows)
  {
    if e.Frame? {
      var m', top := Appended(w.rows, e.p), MaxSeq(w.rows);
      forall k | k in m' ensures m'[k].seqNo == k {
        AppendedAt(w.rows, top, e.p, |e.p.lines|, k);
      }
    }
  }

  lemma SameRest(got: seq<Row>, rest: seq<Row>, rest': seq<Row>)
    ensures got + rest == got + rest' <==> rest == rest'
  {
    assert (got + rest)[|got|..] == rest && (got + rest')[|got|..] == rest';
  }

  lemma FrameCompleteIff(w: World, p: Payload)
    requires Complete(w)
    ensures Complete(Do(w, Frame(p))) <==> Harmless(w, Frame(p))
  {
    var rest, lines := Following(w.rows, w.cursor), AllNumbered(MaxSeq(w.rows), p);
    var rest' := Following(Appended(w.rows, p), w.cursor);
    assert w.got + rest + lines == w.got + (rest + lines);
    SameRest(w.got, rest', rest + lines);
    if p.lines == [] {
      assert lines == [] && rest + lines == rest;
    } else {
      NothingMissedIff(w.rows, p, w.cursor);
    }
  }

  lemma RetainCompleteIff(w: World, kept: Rows)
    requires Keyed(w.rows) && Possible(w, Retain(kept)) && Complete(w)
    ensures Complete(Do(w, Retain(kept))) <==> Harmless(w, Retain(kept))
  {
    var rest, rest' := Following(w.rows, w.cursor), Following(kept, w.cursor);
    SameRest(w.got, rest, rest');
    if Harmless(w, Retain(kept)) {
      UnreadKept(w.rows, kept, w.cursor);
    }
    if rest == rest' {
      forall k | k in w.rows && w.cursor < k ensures k in kept {
        BetweenHolds(w.rows, w.cursor, MaxSeq(w.rows), k);
        BetweenHeld(kept, w.cursor, MaxSeq(kept), w.rows[k]);
      }
    }
  }

  lemma UnreadKept(m: Rows, kept: Rows, after: nat)
    requires forall k :: k in kept ==> k in m && kept[k] == m[k]
    requires forall k :: k in m && after < k ==> k in kept
    ensures Following(kept, after) == Following(m, after)
  {
    var top, top' := MaxSeq(m), MaxSeq(kept);
    assert top <= after ==> top' <= after;
    assert top > after ==> top' == top;
    BetweenAbove(m, kept, after, top);
  }

  lemma {:induction false} BetweenAbove(m: Rows, m': Rows, after: nat, last: nat)
    requires forall k :: after < k ==> (k in m <==> k in m') && (k in m ==> m[k] == m'[k])
    ensures Between(m, after, last) == Between(m', after, last)
  {
    if after < last {
      BetweenAbove(m, m', after, last - 1);
    }
  }

  lemma PollStaysComplete(w: World, limit: int)
    requires Keyed(w.rows) && Complete(w)
    ensures Complete(Do(w, Poll(limit)))
  {
    var rest, page := Following(w.rows, w.cursor), PageAfter(w.rows, w.cursor, limit);
    if page != [] {
      BetweenFrom(w.rows, w.cursor, MaxSeq(w.rows), |page|);
      assert rest == page + rest[|page|..];
    }
  }

  lemma StepCompleteIff(w: World, e: Event)
    requires Keyed(w.rows) && Possible(w, e) && Complete(w)
    ensures Complete(Do(w, e)) <==> Harmless(w, e)
  {
    match e
    case Frame(p) => FrameCompleteIff(w, p);
    case Retain(kept) => RetainCompleteIff(w, kept);
    case Poll(limit) => PollStaysComplete(w, limit);
  }

  lemma {:induction false} RunStaysKeyed(ws: seq<World>, events: seq<Event>, n: nat)
    requires Run(ws, events) && n < |ws|
    ensures Keyed(ws[n].rows)
  {
    if n > 0 {
      RunStaysKeyed(ws, events, n - 1);
      StepKeepsKeyed(ws[n - 1], events[n - 1]);
    }
  }

  lemma RunStepIff(ws: seq<World>, events: seq<Event>, n: nat)
    requires Run(ws, events) && n < |events| && Complete(ws[n])
    ensures Complete(ws[n + 1]) <==> Harmless(ws[n], events[n])
  {
    RunStaysKeyed(ws, events, n);
    StepCompleteIff(ws[n], events[n]);
  }

  ghost predicate CompleteUpTo(ws: seq<World>, n: nat)
    requires n < |ws|
  {
    forall i :: 0 <= i <= n ==> Complete(ws[i])
  }

  ghost predicate HarmlessUpTo(ws: seq<World>, events: seq<Event>, n: nat)
    requires n <= |events| < |ws|
  {
    forall i :: 0 <= i < n ==> Harmless(ws[i], events[i])
  }

  /**
   A polling reader is sent every line once and in order, at every point of a run, if and only if each deletion leaves
   what the reader has not read and each frame with lines finds the reader not ahead of what is stored.
   */
  lemma {:induction false} ReaderMissesNothingIff(ws: seq<World>, events: seq<Event>, n: nat)
    requires Run(ws, events) && n < |ws|
    ensures CompleteUpTo(ws, n) <==> HarmlessUpTo(ws, events, n)
  {
    if n > 0 {
      ReaderMissesNothingIff(ws, events, n - 1);
      assert CompleteUpTo(ws, n) <==> CompleteUpTo(ws, n - 1) && Complete(ws[n]);
      if CompleteUpTo(ws, n - 1) {
        RunStepIff(ws, events, n - 1);
      }
    } else {
      assert MaxSeq(ws[0].rows) == 0 && Complete(ws[0]);
    }
  }

  lemma FirstLine(m: Rows, line: string)
    requires m == map[]
    ensures var p := Payload("stdout", [line], false);
      && MaxSeq(m) == 0 && AllNumbered(0, p) == [Row(1, "stdout", line, false)]
      && Appended(m, p) == map[1 := Row(1, "stdout", line, false)]
  {
    var p := Payload("stdout", [line], false);
    var all := AllNumbered(0, p);
    assert all == [Row(1, "stdout", line, false)] && all[..|all| - 1] == [];
    assert Ingested(m, all[..|all| - 1]) == m;
  }

  lemma OneRow(row: Row)
    requires row.seqNo == 1
    ensures MaxSeq(map[1 := row]) == 1
    ensures Following(map[1 := row], 0) == [row] && Following(map[1 := row], 1) == []
  {
    assert 1 in map[1 := row];
    assert Between(map[1 := row], 0, 0) == [];
  }

  /** And lines are missed: one is read, retention deletes it, and the next is given its number. */
  lemma ReusedNumberIsMissed(a: string, b: string) returns (ws: seq<World>, events: seq<Event>)
    ensures Run(ws, events) && |events| == 4
    ensures events == [Frame(Payload("stdout", [a], false)), Poll(1), Retain(map[]),
                       Frame(Payload("stdout", [b], false))]
    ensures var w, row, row' := ws[4], Row(1, "stdout", a, false), Row(1, "stdout", b, false);
      && w.got == [row] && w.all == [row, row'] && w.rows == map[1 := row']
      && Following(w.rows, w.cursor) == [] && !Complete(w)
  {
    var row, row' := Row(1, "stdout", a, false), Row(1, "stdout", b, false);
    events := [Frame(Payload("stdout", [a], false)), Poll(1), Retain(map[]), Frame(Payload("stdout", [b], false))];
    FirstLine(map[], a);
    FirstLine(map[], b);
    OneRow(row);
    OneRow(row');
    ws := [World(map[], 0, [], []), World(map[1 := row], 0, [], [row]), World(map[1 := row], 1, [row], [row]),
           World(map[], 1, [row], [row]), World(map[1 := row'], 1, [row], [row, row'])];
    assert PageAfter(map[1 := row], 0, 1) == [row];
  }
}
