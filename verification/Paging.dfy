/**
 Listing rows newest first, page by page, from a keyset cursor
 (backend/internal/adapter/postgres/session_store.go:104-149, backend/internal/adapter/postgres/queue_store.go:125-165,
 backend/internal/adapter/postgres/helpers.go:12-31).
 Identifiers are numbers here: Ids.TextOrderIsNumberOrder says their text sorts the same.
 */
module Paging {
  import opened Prelude

  type RowId = nat
  type UserId = nat
  type DeviceId = nat

  datatype Row = Row(user: UserId, device: DeviceId, ended: bool)

  type Table = map<RowId, Row>

  datatype Filter = Filter(user: UserId, device: Option<DeviceId>, activeOnly: bool) {
    predicate Admits(r: Row) {
      && r.user == user
      && (device.Some? ==> r.device == device.value)
      && (activeOnly ==> !r.ended)
    }
  }

  const DEFAULT_LIMIT: nat := 50
  const MAX_LIMIT: nat := 500

  function Clamp(n: int): (limit: nat)
    ensures 1 <= limit <= MAX_LIMIT
    ensures 1 <= n <= MAX_LIMIT ==> limit == n
    ensures n <= 0 ==> limit == DEFAULT_LIMIT
    ensures n > MAX_LIMIT ==> limit == MAX_LIMIT
  {
    if n <= 0 then DEFAULT_LIMIT else if n > MAX_LIMIT then MAX_LIMIT else n
  }

  /** The rows a page is drawn from: they match, and come after the cursor in the listing. */
  function Below(t: Table, f: Filter, cursor: Option<RowId>): set<RowId> {
    set id | id in t && f.Admits(t[id]) && (cursor.Some? ==> id < cursor.value)
  }

  predicate Greatest(s: set<RowId>, m: RowId) {
    m in s && forall x :: x in s ==> x <= m
  }

  lemma {:induction false} GreatestExists(s: set<RowId>)
    requires s != {}
    ensures exists m :: Greatest(s, m)
  {
    var x :| x in s;
    if s != {x} {
      GreatestExists(s - {x});
      var m :| Greatest(s - {x}, m);
      forall y | y in s ensures y == x || y <= m {
        assert y != x ==> y in s - {x};
      }
      assert Greatest(s, if x > m then x else m);
    } else {
      assert Greatest(s, x);
    }
  }

  /** The ids of `s`, greatest first. */
  ghost function Listing(s: set<RowId>): seq<RowId> {
    if s == {} then []
    else
      GreatestExists(s);
      var m :| Greatest(s, m);
      [m] + Listing(s - {m})
  }

  ghost function Page(t: Table, f: Filter, cursor: Option<RowId>, limit: int): seq<RowId> {
    var all := Listing(Below(t, f, cursor));
    all[..Min(Clamp(limit), |all|)]
  }

  ghost function NextCursor(t: Table, f: Filter, cursor: Option<RowId>, limit: int): Option<RowId> {
    var all := Listing(Below(t, f, cursor));
    if |all| > Clamp(limit) then Some(all[Clamp(limit) - 1]) else None
  }

  class Store {
    var table: Table

    constructor (t: Table)
      ensures table == t
    {
      table := t;
    }

    /** ORDER BY id DESC LIMIT `k`. */
    method Select(f: Filter, cursor: Option<RowId>, k: nat) returns (rows: seq<RowId>)
      ensures var all := Listing(Below(table, f, cursor)); rows == all[..Min(k, |all|)]
    {
      rows := [];
      var rest := Below(table, f, cursor);
      while rest != {} && |rows| < k
        invariant |rows| <= k
        invariant rows + Listing(rest) == Listing(Below(table, f, cursor))
        decreases rest
      {
        GreatestExists(rest);
        var m :| Greatest(rest, m);
        Shift(rows, m, Listing(rest - {m}));
        rows := rows + [m];
        rest := rest - {m};
      }
    }

    /** One row more than the page is asked for, and cut off again when it is there. */
    method List(f: Filter, cursor: Option<RowId>, limit: int) returns (page: seq<RowId>, next: Option<RowId>)
      ensures page == Page(table, f, cursor, limit) && next == NextCursor(table, f, cursor, limit)
    {
      var k := Clamp(limit);
      var rows := Select(f, cursor, k + 1);
      page := [];
      for i := 0 to |rows|
        invariant page == rows[..i]
      {
        page := page + [rows[i]];
      }
      assert page == rows;
      next := None;
      if |page| > k {
        page := page[..k];
        next := Some(page[|page| - 1]);
      }
    }
  }

  lemma Shift(a: seq<RowId>, m: RowId, b: seq<RowId>)
    ensures a + ([m] + b) == a + [m] + b
  {
  }

  ghost predicate Descending(ids: seq<RowId>) {
    forall i, j :: 0 <= i < j < |ids| ==> ids[i] > ids[j]
  }

  /** The listing is the set, each id once, greatest first. */
  lemma {:induction false} ListingIsSorted(s: set<RowId>)
    ensures Descending(Listing(s))
    ensures forall id :: id in Listing(s) <==> id in s
  {
    if s != {} {
      GreatestExists(s);
      var m :| Greatest(s, m);
      ListingIsSorted(s - {m});
      DescendingOnto(m, Listing(s - {m}));
    }
  }

  lemma DescendingOnto(m: RowId, rest: seq<RowId>)
    requires Descending(rest) && forall id :: id in rest ==> id < m
    ensures Descending([m] + rest)
  {
    var all := [m] + rest;
    forall i, j | 0 <= i < j < |all| ensures all[i] > all[j] {
      assert all[j] == rest[j - 1] && rest[j - 1] in rest;
      assert i > 0 ==> all[i] == rest[i - 1];
    }
  }

  // --- one page ---

  lemma PageHolds(t: Table, f: Filter, cursor: Option<RowId>, limit: int)
    ensures var page, next := Page(t, f, cursor, limit), NextCursor(t, f, cursor, limit);
      && Descending(page) && |page| <= Clamp(limit)
      && (next.Some? ==> |page| == Clamp(limit) && next.value == page[|page| - 1])
      && (next.Some? && cursor.Some? ==> next.value < cursor.value)
      && (next.Some? ==> exists id :: id in Below(t, f, cursor) && id < next.value)
      && forall id :: id in page <==> id in Below(t, f, cursor) && (next.Some? ==> next.value <= id)
  {
    var all := Listing(Below(t, f, cursor));
    var page, next := Page(t, f, cursor, limit), NextCursor(t, f, cursor, limit);
    ListingIsSorted(Below(t, f, cursor));
    forall id ensures id in page <==> id in all && (next.Some? ==> next.value <= id) {
      if id in all {
        var k :| 0 <= k < |all| && all[k] == id;
        assert k < |page| ==> page[k] == id;
      }
      if id in page {
        var k :| 0 <= k < |page| && page[k] == id;
        assert all[k] == id;
      }
    }
    if next.Some? {
      assert next.value in all && all[|page|] in Below(t, f, cursor);
    }
  }

  /**
   A page holds exactly the rows between its cursor and its next cursor that are the user's, the device's if one is
   asked for, and open if only those are; strictly descending, no more than the clamped limit. A next cursor means
   the page is full, lies strictly below the cursor it came from, and is there exactly when the page is not the last.
   */
  lemma PageIff(t: Table, f: Filter, cursor: Option<RowId>, limit: int)
    ensures var page, next := Page(t, f, cursor, limit), NextCursor(t, f, cursor, limit);
      && Descending(page) && |page| <= Clamp(limit)
      && (next.Some? ==> |page| == Clamp(limit) && next.value == page[|page| - 1])
      && (next.Some? && cursor.Some? ==> next.value < cursor.value)
      && forall id :: id in page <==>
           && id in t && t[id].user == f.user && (f.device == None || f.device == Some(t[id].device))
           && !(f.activeOnly && t[id].ended)
           && (cursor == None || id < cursor.value) && (next == None || next.value <= id)
    ensures NextCursor(t, f, cursor, limit) == None
       <==> forall id :: id in Below(t, f, cursor) ==> id in Page(t, f, cursor, limit)
  {
    PageHolds(t, f, cursor, limit);
    var page, next := Page(t, f, cursor, limit), NextCursor(t, f, cursor, limit);
    forall id ensures id in Below(t, f, cursor) <==>
      && id in t && t[id].user == f.user && (f.device == None || f.device == Some(t[id].device))
      && !(f.activeOnly && t[id].ended) && (cursor == None || id < cursor.value)
    {
    }
  }

  // --- the scan of a table that does not change ---

  lemma NextShrinks(t: Table, f: Filter, cursor: Option<RowId>, limit: int)
    requires NextCursor(t, f, cursor, limit).Some?
    ensures Below(t, f, NextCursor(t, f, cursor, limit)) < Below(t, f, cursor)
  {
    PageHolds(t, f, cursor, limit);
    var next := NextCursor(t, f, cursor, limit).value;
    assert next in Page(t, f, cursor, limit);
  }

  /** All pages from a cursor on, following next cursors until there is none. */
  ghost function Scan(t: Table, f: Filter, cursor: Option<RowId>, limit: int): seq<RowId>
    decreases Below(t, f, cursor)
  {
    var next := NextCursor(t, f, cursor, limit);
    if next.None? then Page(t, f, cursor, limit)
    else
      NextShrinks(t, f, cursor, limit);
      Page(t, f, cursor, limit) + Scan(t, f, next, limit)
  }

  function Lower(s: set<RowId>, x: RowId): set<RowId> {
    set id | id in s && id < x
  }

  lemma {:induction false} ListingFrom(s: set<RowId>, k: nat)
    requires 0 < k <= |Listing(s)|
    ensures Listing(s)[k..] == Listing(Lower(s, Listing(s)[k - 1]))
  {
    GreatestExists(s);
    var m :| Greatest(s, m);
    var rest := Listing(s - {m});
    if k == 1 {
      BelowGreatest(s, m);
    } else {
      ListingFrom(s - {m}, k - 1);
      NotAbove(s, m, k - 2);
    }
  }

  lemma BelowGreatest(s: set<RowId>, m: RowId)
    requires Greatest(s, m)
    ensures Lower(s, m) == s - {m}
  {
  }

  lemma NotAbove(s: set<RowId>, m: RowId, k: nat)
    requires Greatest(s, m) && k < |Listing(s - {m})|
    ensures Lower(s - {m}, Listing(s - {m})[k]) == Lower(s, Listing(s - {m})[k])
  {
    ListingIsSorted(s - {m});
    assert Listing(s - {m})[k] in s - {m};
  }

  /** The pages make up exactly the matching rows, in order. */
  lemma {:induction false} ScanIsTheListing(t: Table, f: Filter, cursor: Option<RowId>, limit: int)
    ensures Scan(t, f, cursor, limit) == Listing(Below(t, f, cursor))
    decreases Below(t, f, cursor)
  {
    var next := NextCursor(t, f, cursor, limit);
    if next.Some? {
      NextShrinks(t, f, cursor, limit);
      ScanIsTheListing(t, f, next, limit);
      var s := Below(t, f, cursor);
      PageHolds(t, f, cursor, limit);
      ListingFrom(s, Clamp(limit));
      assert Below(t, f, next) == Lower(s, next.value);
    }
  }

  // --- the scan of a table that changes between pages ---

  /** `cursors[i]` is where page i starts; the table then is `ts[i]`. The scan may or may not be complete. */
  ghost predicate Scanning(ts: seq<Table>, cursors: seq<Option<RowId>>, f: Filter, limit: int) {
    && 0 < |ts| == |cursors|
    && cursors[0] == None
    && forall i :: 0 < i < |ts| ==> cursors[i].Some? && cursors[i] == NextCursor(ts[i - 1], f, cursors[i - 1], limit)
  }

  lemma {:induction false} CursorsDescend(
      ts: seq<Table>, cursors: seq<Option<RowId>>, f: Filter, limit: int, i: nat, j: nat)
    requires Scanning(ts, cursors, f, limit) && 0 < i < j < |ts|
    ensures cursors[i].value > cursors[j].value
  {
    PageHolds(ts[j - 1], f, cursors[j - 1], limit);
    if i < j - 1 {
      CursorsDescend(ts, cursors, f, limit, i, j - 1);
    }
  }

  /** Page i is the one that answers for `id`: past its cursor, and not past the next. */
  ghost predicate Covers(ts: seq<Table>, cursors: seq<Option<RowId>>, f: Filter, limit: int, i: nat, id: RowId)
    requires i < |ts| == |cursors|
  {
    && (cursors[i].Some? ==> id < cursors[i].value)
    && (NextCursor(ts[i], f, cursors[i], limit).Some? ==> NextCursor(ts[i], f, cursors[i], limit).value <= id)
  }

  /** In a complete scan every id, present or not, is answered for by one page. */
  lemma {:induction false} SomePageCovers(ts: seq<Table>, cursors: seq<Option<RowId>>, f: Filter, limit: int, id: RowId)
    returns (i: nat)
    requires Scanning(ts, cursors, f, limit) && NextCursor(ts[|ts| - 1], f, cursors[|ts| - 1], limit).None?
    ensures i < |ts| && Covers(ts, cursors, f, limit, i, id)
  {
    i := 0;
    while !Covers(ts, cursors, f, limit, i, id)
      invariant i < |ts| && (cursors[i].Some? ==> id < cursors[i].value)
      decreases |ts| - i
    {
      i := i + 1;
    }
  }

  lemma LaterPageMisses(
      ts: seq<Table>, cursors: seq<Option<RowId>>, f: Filter, limit: int, i: nat, j: nat, id: RowId)
    requires Scanning(ts, cursors, f, limit) && i < j < |ts| && Covers(ts, cursors, f, limit, i, id)
    ensures !Covers(ts, cursors, f, limit, j, id)
  {
    assert cursors[i + 1] == NextCursor(ts[i], f, cursors[i], limit);
    if i + 1 < j {
      CursorsDescend(ts, cursors, f, limit, i + 1, j);
    }
  }

  lemma OnePageCovers(
      ts: seq<Table>, cursors: seq<Option<RowId>>, f: Filter, limit: int, i: nat, j: nat, id: RowId)
    requires Scanning(ts, cursors, f, limit) && i < |ts| && j < |ts| && i != j
    requires Covers(ts, cursors, f, limit, i, id)
    ensures !Covers(ts, cursors, f, limit, j, id)
  {
    if i < j {
      LaterPageMisses(ts, cursors, f, limit, i, j, id);
    } else if Covers(ts, cursors, f, limit, j, id) {
      LaterPageMisses(ts, cursors, f, limit, j, i, id);
    }
  }

  /** Pages a complete scan returns `id` on. */
  ghost function PagesWith(ts: seq<Table>, cursors: seq<Option<RowId>>, f: Filter, limit: int, id: RowId): set<nat>
    requires |ts| == |cursors|
  {
    set i | 0 <= i < |ts| && id in Page(ts[i], f, cursors[i], limit)
  }

  /**
   Whatever happens to the table between pages, a complete scan returns an id on at most one page, and on one exactly
   when it matched at the moment of the page that answers for it. Rows that match throughout are returned once.
   */
  lemma ChangingScan(ts: seq<Table>, cursors: seq<Option<RowId>>, f: Filter, limit: int, id: RowId) returns (i: nat)
    requires Scanning(ts, cursors, f, limit) && NextCursor(ts[|ts| - 1], f, cursors[|ts| - 1], limit).None?
    ensures i < |ts| && Covers(ts, cursors, f, limit, i, id)
    ensures PagesWith(ts, cursors, f, limit, id) == if id in ts[i] && f.Admits(ts[i][id]) then {i} else {}
    ensures (forall k :: 0 <= k < |ts| ==> id in ts[k] && f.Admits(ts[k][id])) ==>
      |PagesWith(ts, cursors, f, limit, id)| == 1
  {
    i := SomePageCovers(ts, cursors, f, limit, id);
    forall k | 0 <= k < |ts|
      ensures id in Page(ts[k], f, cursors[k], limit) <==> k == i && id in ts[i] && f.Admits(ts[i][id])
    {
      PageHolds(ts[k], f, cursors[k], limit);
      if k != i {
        OnePageCovers(ts, cursors, f, limit, i, k, id);
      }
    }
  }

  /** The scan as a whole is strictly descending too: any id on a later page is below any on an earlier one. */
  lemma PagesDescend(
      ts: seq<Table>, cursors: seq<Option<RowId>>, f: Filter, limit: int, i: nat, j: nat, x: RowId, y: RowId)
    requires Scanning(ts, cursors, f, limit) && i < j < |ts|
    requires x in Page(ts[i], f, cursors[i], limit) && y in Page(ts[j], f, cursors[j], limit)
    ensures x > y
  {
    PageHolds(ts[i], f, cursors[i], limit);
    PageHolds(ts[j], f, cursors[j], limit);
    assert cursors[i + 1] == NextCursor(ts[i], f, cursors[i], limit);
    if i + 1 < j {
      CursorsDescend(ts, cursors, f, limit, i + 1, j);
    }
  }

  /** A scan ends: after the first cursor at most one page a remaining id. */
  lemma {:induction false} ScanEnds(ts: seq<Table>, cursors: seq<Option<RowId>>, f: Filter, limit: int, i: nat)
    requires Scanning(ts, cursors, f, limit) && 0 < i < |ts|
    ensures i - 1 + cursors[i].value <= cursors[1].value
  {
    if i > 1 {
      ScanEnds(ts, cursors, f, limit, i - 1);
      PageHolds(ts[i - 1], f, cursors[i - 1], limit);
    }
  }
}
