/**
 Refresh tokens: the rows, the statements that change them, and one call of each service operation run on its own
 (backend/internal/app/auth.go, backend/internal/adapter/postgres/token_store.go, backend/internal/domain/token.go).
 TokenRuns interleaves the same operations.
 */
module Tokens {
  import opened Prelude

  type TokenId = nat
  type UserId = nat
  type Hash = nat
  type Family = nat

  datatype Token = Token(id: TokenId, user: UserId, hash: Hash, family: Family, expires: int, used: Option<int>)

  datatype Refusal = Reused | Expired | Unauthorized

  type Rows = map<TokenId, Token>

  function Usable(t: Token, now: int): Result<(), Refusal> {
    if t.used.Some? then Err(Reused)
    else if now > t.expires then Err(Expired)
    else Ok(())
  }

  // --- the statements, as functions of the table ---

  predicate HasHash(rows: Rows, h: Hash) {
    exists id :: id in rows && rows[id].hash == h
  }

  /** Both unique constraints of the table: the primary key and the hash. */
  predicate CanInsert(rows: Rows, t: Token) {
    t.id !in rows && !HasHash(rows, t.hash)
  }

  function Inserted(rows: Rows, t: Token): Rows {
    rows[t.id := t.(used := None)]
  }

  predicate CanMark(rows: Rows, id: TokenId) {
    id in rows && rows[id].used.None?
  }

  function Marked(rows: Rows, id: TokenId, at: int): Rows
    requires id in rows
  {
    rows[id := rows[id].(used := Some(at))]
  }

  function WithoutFamily(rows: Rows, f: Family): Rows {
    map id | id in rows && rows[id].family != f :: rows[id]
  }

  function WithoutExpired(rows: Rows, before: int): Rows {
    map id | id in rows && !(rows[id].expires < before) :: rows[id]
  }

  class TokenStore {
    var rows: Rows

    constructor ()
      ensures rows == map[]
    {
      rows := map[];
    }

    method Create(t: Token) returns (ok: bool)
      modifies this
      ensures ok <==> CanInsert(old(rows), t)
      ensures ok <==> t.id !in old(rows) && forall id :: id in old(rows) ==> old(rows)[id].hash != t.hash
      ensures rows == if ok then Inserted(old(rows), t) else old(rows)
      ensures ok ==> rows[t.id] == Token(t.id, t.user, t.hash, t.family, t.expires, None)
    {
      ok := t.id !in rows && !HasHash(rows, t.hash);
      if ok {
        rows := rows[t.id := t.(used := None)];
      }
    }

    method ByHash(h: Hash) returns (found: Option<TokenId>)
      ensures found.Some? ==> found.value in rows && rows[found.value].hash == h
      ensures found.None? ==> !HasHash(rows, h)
    {
      if id :| id in rows && rows[id].hash == h {
        found := Some(id);
      } else {
        found := None;
      }
    }

    /** UPDATE … WHERE used_at IS NULL: reports whether a row was affected. */
    method MarkUsed(id: TokenId, at: int) returns (ok: bool)
      modifies this
      ensures ok <==> CanMark(old(rows), id)
      ensures rows == if ok then Marked(old(rows), id, at) else old(rows)
      ensures ok <==> id in old(rows) && old(rows)[id].used.None?
      ensures id in rows && ok ==> rows[id].used == Some(at)
    {
      ok := id in rows && rows[id].used.None?;
      if ok {
        rows := rows[id := rows[id].(used := Some(at))];
      }
    }

    method RevokeFamily(f: Family)
      modifies this
      ensures rows == WithoutFamily(old(rows), f)
      ensures forall id :: id in rows <==> id in old(rows) && old(rows)[id].family != f
    {
      rows := map id | id in rows && rows[id].family != f :: rows[id];
    }

    method DeleteExpired(before: int) returns (n: nat)
      modifies this
      ensures rows == WithoutExpired(old(rows), before)
      ensures forall id :: id in rows <==> id in old(rows) && before <= old(rows)[id].expires
      ensures n == |old(rows)| - |rows|
    {
      var kept := map id | id in rows && !(rows[id].expires < before) :: rows[id];
      SubmapSize(kept, rows);
      n := |rows| - |kept|;
      rows := kept;
    }
  }

  lemma SubmapSize(m: Rows, m': Rows)
    requires m.Keys <= m'.Keys
    ensures |m| <= |m'|
  {
    var rest := m'.Keys - m.Keys;
    assert m'.Keys == m.Keys + rest;
  }

  // --- one call, uninterrupted ---

  /** What issueSession mints for itself: identity, hash and expiry. User and family come from the caller. */
  datatype Minted = Minted(id: TokenId, hash: Hash, expires: int)

  function Record(m: Minted, user: UserId, f: Family): Token {
    Token(m.id, user, m.hash, f, m.expires, None)
  }

  /**
   The table after a call of Refresh that found `found` and met no other call. `minted` is None when the user
   lookup or the token issuer failed.
   */
  function RefreshedRows(rows: Rows, found: Option<TokenId>, now: int, minted: Option<Minted>): Rows
    requires found.Some? ==> found.value in rows
  {
    if found.None? then rows
    else
      var stored := rows[found.value];
      match Usable(stored, now)
      case Err(Reused) => WithoutFamily(rows, stored.family)
      case Err(_) => rows
      case Ok(_) =>
        var marked := Marked(rows, found.value, now);
        if minted.None? then marked
        else
          var t := Record(minted.value, stored.user, stored.family);
          if CanInsert(marked, t) then Inserted(marked, t) else marked
  }

  /**
   What presenting the token of one row does, on the fields of the rows: a used one takes its family's rows with it
   and no others, an expired one changes nothing, a live one is marked and its replacement joins if its id and hash
   are new.
   */
  lemma RefreshEffect(rows: Rows, found: TokenId, now: int, minted: Option<Minted>)
    requires found in rows
    ensures var t, rows' := rows[found], RefreshedRows(rows, Some(found), now, minted);
      var joins := minted.Some? && minted.value.id !in rows
        && forall id :: id in rows ==> rows[id].hash != minted.value.hash;
      && (t.used.Some? ==> found !in rows')
      && (t.used.Some? ==> forall id :: id in rows' <==> id in rows && rows[id].family != t.family)
      && (t.used.Some? ==> forall id :: id in rows' ==> rows'[id] == rows[id])
      && (t.used.None? && now > t.expires ==> rows' == rows)
      && (t.used.None? && now <= t.expires ==>
            && rows'.Keys == rows.Keys + (if joins then {minted.value.id} else {})
            && rows'[found] == Token(t.id, t.user, t.hash, t.family, t.expires, Some(now))
            && (joins ==>
                  var m := minted.value;
                  rows'[m.id] == Token(m.id, t.user, m.hash, t.family, m.expires, None))
            && forall id :: id in rows && id != found ==> rows'[id] == rows[id])
  {
    var marked := Marked(rows, found, now);
    assert forall id :: id in rows ==> marked[id].hash == rows[id].hash;
  }

  /**
   Refresh. It answers with a token exactly when the presented one was in the table, unused and unexpired and its
   replacement went in; a used one costs the whole family its rows.
   */
  method Refresh(store: TokenStore, hash: Hash, now: int, minted: Option<Minted>)
    returns (r: Result<Token, Refusal>, ghost found: Option<TokenId>)
    requires forall id :: id in store.rows ==> store.rows[id].id == id
    modifies store
    ensures found.Some? ==> found.value in old(store.rows) && old(store.rows)[found.value].hash == hash
    ensures found.None? ==> !HasHash(old(store.rows), hash)
    ensures store.rows == RefreshedRows(old(store.rows), found, now, minted)
    ensures r.Ok? ==>
      && found.Some? && old(store.rows)[found.value].used.None? && now <= old(store.rows)[found.value].expires
      && store.rows[found.value].used == Some(now)
      && r.value.id !in old(store.rows) && r.value.id in store.rows && store.rows[r.value.id] == r.value
      && r.value.used.None?
      && r.value.family == old(store.rows)[found.value].family
    ensures r.Err? ==> forall id :: id in store.rows ==> id in old(store.rows)
  {
    var known := store.ByHash(hash);
    found := known;
    if known.None? {
      return Err(Unauthorized), found;
    }
    var stored := store.rows[known.value];
    match Usable(stored, now)
    case Err(reason) =>
      if reason == Reused {
        store.RevokeFamily(stored.family);
      }
      return Err(Unauthorized), found;
    case Ok(_) =>
      var ok := store.MarkUsed(stored.id, now);
      assert ok;  // only a concurrent call can take this away: TokenRuns.TryMark
      if minted.None? {
        return Err(Unauthorized), found;
      }
      var t := Record(minted.value, stored.user, stored.family);
      var created := store.Create(t);
      if !created {
        return Err(Unauthorized), found;
      }
      return Ok(t), found;
  }

  method Logout(store: TokenStore, hash: Hash) returns (ghost found: Option<TokenId>)
    modifies store
    ensures found.Some? ==>
      && found.value in old(store.rows) && old(store.rows)[found.value].hash == hash
      && store.rows == WithoutFamily(old(store.rows), old(store.rows)[found.value].family)
    ensures found.None? ==> !HasHash(old(store.rows), hash) && store.rows == old(store.rows)
  {
    var known := store.ByHash(hash);
    found := known;
    if known.Some? {
      store.RevokeFamily(store.rows[known.value].family);
    }
  }
}
