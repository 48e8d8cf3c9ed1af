/**
 Any number of Refresh and Logout calls, logins and the expiry job, interleaved between their store statements
 (backend/internal/app/auth.go:193-294). The rotation and reuse-detection scheme is section 4.14.2 of RFC 9700.
 */
module TokenRuns {
  import opened Prelude
  import opened Tokens

  type CallId = nat

  /** Where a call is: the statement it will issue next. */
  datatype Pc =
    | Lookup(hash: Hash)                  // Refresh, before ByHash
    | Mark(row: Token, now: int)          // Refresh, holding the row it read, before MarkUsed
    | Rotate(user: UserId, family: Family)  // Refresh, between MarkUsed and Create
    | LogoutLookup(hash: Hash)            // Logout, before ByHash
    | Revoke(family: Family)              // Refresh or Logout, before RevokeFamily

  /** The table, the calls in flight, and the history the statements are about. */
  datatype World = World(
    rows: Rows,
    calls: map<CallId, Pc>,
    issued: map<TokenId, Family>,   // every token ever created
    families: set<Family>,          // every family ever started
    exchanged: seq<TokenId>)        // every token MarkUsed has succeeded on

  datatype Step =
    | BeginRefresh(call: CallId, hash: Hash)
    | BeginLogout(call: CallId, hash: Hash)
    | LookUp(call: CallId, found: Option<TokenId>, now: int)
    | TryMark(call: CallId)
    | Issue(call: CallId, minted: Minted)
    | DoRevoke(call: CallId)
    | GiveUp(call: CallId)                       // a failing statement or lookup, or the process dying
    | Login(minted: Minted, user: UserId, family: Family)
    | Expire(before: int)

  /** Random identities: never handed out before. */
  predicate Fresh(w: World, t: Token) {
    t.id !in w.issued && CanInsert(w.rows, t)
  }

  predicate Finds(rows: Rows, hash: Hash, found: Option<TokenId>) {
    match found
    case Some(id) => id in rows && rows[id].hash == hash
    case None => !HasHash(rows, hash)
  }

  predicate Enabled(w: World, s: Step) {
    match s
    case BeginRefresh(c, _) => c !in w.calls
    case BeginLogout(c, _) => c !in w.calls
    case LookUp(c, found, _) =>
      c in w.calls && (w.calls[c].Lookup? || w.calls[c].LogoutLookup?) && Finds(w.rows, w.calls[c].hash, found)
    case TryMark(c) => c in w.calls && w.calls[c].Mark?
    case Issue(c, m) => c in w.calls && w.calls[c].Rotate? && Fresh(w, Record(m, w.calls[c].user, w.calls[c].family))
    case DoRevoke(c) => c in w.calls && w.calls[c].Revoke?
    case GiveUp(c) => c in w.calls
    case Login(m, user, f) => f !in w.families && Fresh(w, Record(m, user, f))
    case Expire(_) => true
  }

  function AfterLookup(pc: Pc, rows: Rows, found: Option<TokenId>, now: int): Option<Pc>
    requires found.Some? ==> found.value in rows
  {
    if found.None? then None
    else if pc.LogoutLookup? then Some(Revoke(rows[found.value].family))
    else
      match Usable(rows[found.value], now)
      case Ok(_) => Some(Mark(rows[found.value], now))
      case Err(Reused) => Some(Revoke(rows[found.value].family))
      case Err(_) => None
  }

  function Move(calls: map<CallId, Pc>, c: CallId, pc: Option<Pc>): map<CallId, Pc> {
    if pc.Some? then calls[c := pc.value] else calls - {c}
  }

  function Create(w: World, t: Token): World {
    w.(rows := Inserted(w.rows, t), issued := w.issued[t.id := t.family], families := w.families + {t.family})
  }

  function Do(w: World, s: Step): World
    requires Enabled(w, s)
  {
    match s
    case BeginRefresh(c, h) => w.(calls := w.calls[c := Lookup(h)])
    case BeginLogout(c, h) => w.(calls := w.calls[c := LogoutLookup(h)])
    case LookUp(c, found, now) => w.(calls := Move(w.calls, c, AfterLookup(w.calls[c], w.rows, found, now)))
    case TryMark(c) =>
      var row := w.calls[c].row;
      if CanMark(w.rows, row.id) then
        w.(rows := Marked(w.rows, row.id, w.calls[c].now),
           calls := w.calls[c := Rotate(row.user, row.family)],
           exchanged := w.exchanged + [row.id])
      else
        w.(calls := w.calls[c := Revoke(row.family)])
    case Issue(c, m) => Create(w, Record(m, w.calls[c].user, w.calls[c].family)).(calls := w.calls - {c})
    case DoRevoke(c) => w.(rows := WithoutFamily(w.rows, w.calls[c].family), calls := w.calls - {c})
    case GiveUp(c) => w.(calls := w.calls - {c})
    case Login(m, user, f) => Create(w, Record(m, user, f))
    case Expire(before) => w.(rows := WithoutExpired(w.rows, before))
  }

  const EMPTY := World(map[], map[], map[], {}, [])

  /** `ws` lists the worlds a run goes through under `steps`. */
  ghost predicate Run(ws: seq<World>, steps: seq<Step>) {
    && |ws| == |steps| + 1
    && forall i :: 0 <= i < |steps| ==> Enabled(ws[i], steps[i]) && ws[i + 1] == Do(ws[i], steps[i])
  }

  // --- at most one live token a family ---

  ghost function Unused(w: World, f: Family): set<TokenId> {
    set id | id in w.rows && w.rows[id].family == f && w.rows[id].used.None?
  }

  ghost function Rotations(w: World, f: Family): set<CallId> {
    set c | c in w.calls && w.calls[c].Rotate? && w.calls[c].family == f
  }

  /** Rows and calls agree with the history. */
  ghost predicate Consistent(w: World) {
    && (forall id :: id in w.rows ==> w.rows[id].id == id && id in w.issued && w.issued[id] == w.rows[id].family)
    && (forall id :: id in w.issued ==> w.issued[id] in w.families)
    && (forall c :: c in w.calls && w.calls[c].Mark? ==>
          w.calls[c].row.id in w.issued && w.issued[w.calls[c].row.id] == w.calls[c].row.family)
    && (forall c :: c in w.calls && (w.calls[c].Rotate? || w.calls[c].Revoke?) ==> w.calls[c].family in w.families)
  }

  /** Two unused rows, two rotations, or one of each never share a family. */
  ghost predicate SingleHolder(w: World) {
    && (forall i, j | i in w.rows && j in w.rows && w.rows[i].used.None? && w.rows[j].used.None?
          && w.rows[i].family == w.rows[j].family :: i == j)
    && (forall c, d | c in w.calls && d in w.calls && w.calls[c].Rotate? && w.calls[d].Rotate?
          && w.calls[c].family == w.calls[d].family :: c == d)
    && (forall i, c | i in w.rows && c in w.calls && w.rows[i].used.None? && w.calls[c].Rotate? ::
          w.rows[i].family != w.calls[c].family)
  }

  /** A token MarkUsed has succeeded on is issued, is not unused any more, and is listed once. */
  ghost predicate ExchangedOnce(w: World) {
    && (forall k :: 0 <= k < |w.exchanged| ==> w.exchanged[k] in w.issued)
    && (forall k :: 0 <= k < |w.exchanged| && w.exchanged[k] in w.rows ==> w.rows[w.exchanged[k]].used.Some?)
    && (forall j, k :: 0 <= j < k < |w.exchanged| ==> w.exchanged[j] != w.exchanged[k])
  }

  ghost predicate Inv(w: World) {
    Consistent(w) && SingleHolder(w) && ExchangedOnce(w)
  }

  lemma StepKeepsConsistent(w: World, s: Step)
    requires Consistent(w) && Enabled(w, s)
    ensures Consistent(Do(w, s))
  {
  }

  lemma StepKeepsSingleHolder(w: World, s: Step)
    requires Consistent(w) && SingleHolder(w) && Enabled(w, s)
    ensures SingleHolder(Do(w, s))
  {
    match s
    case TryMark(c) => MarkKeepsSingleHolder(w, c);
    case Issue(c, m) => CreateKeepsSingleHolder(w, s);
    case Login(m, user, f) => CreateKeepsSingleHolder(w, s);
    case _ => RemovalKeepsSingleHolder(w, Do(w, s));
  }

  lemma MarkKeepsSingleHolder(w: World, c: CallId)
    requires Consistent(w) && SingleHolder(w) && Enabled(w, TryMark(c))
    ensures SingleHolder(Do(w, TryMark(c)))
  {
  }

  lemma CreateKeepsSingleHolder(w: World, s: Step)
    requires Consistent(w) && SingleHolder(w) && Enabled(w, s) && (s.Issue? || s.Login?)
    ensures SingleHolder(Do(w, s))
  {
  }

  /** Steps that neither add an unused row nor start a rotation. */
  lemma RemovalKeepsSingleHolder(w: World, w': World)
    requires SingleHolder(w)
    requires forall i :: i in w'.rows && w'.rows[i].used.None? ==> i in w.rows && w.rows[i] == w'.rows[i]
    requires forall c :: c in w'.calls && w'.calls[c].Rotate? ==> c in w.calls && w.calls[c] == w'.calls[c]
    ensures SingleHolder(w')
  {
  }

  lemma StepKeepsExchangedOnce(w: World, s: Step)
    requires Consistent(w) && ExchangedOnce(w) && Enabled(w, s)
    ensures ExchangedOnce(Do(w, s))
  {
  }

  lemma {:induction false} RunKeepsInv(ws: seq<World>, steps: seq<Step>)
    requires Run(ws, steps) && Inv(ws[0])
    ensures forall i :: 0 <= i < |ws| ==> Inv(ws[i])
  {
    for i := 0 to |steps|
      invariant forall k :: 0 <= k <= i ==> Inv(ws[k])
    {
      StepKeepsConsistent(ws[i], steps[i]);
      StepKeepsSingleHolder(ws[i], steps[i]);
      StepKeepsExchangedOnce(ws[i], steps[i]);
    }
  }

  lemma SingletonSize<T>(s: set<T>)
    requires forall x, y :: x in s && y in s ==> x == y
    ensures |s| <= 1
  {
    if x :| x in s {
      assert s == {x};
    }
  }

  /** At every point of every run a family has at most one token that is unused or about to be issued. */
  lemma AtMostOneLiveToken(ws: seq<World>, steps: seq<Step>, i: nat, f: Family)
    requires Run(ws, steps) && ws[0] == EMPTY && i < |ws|
    ensures |Unused(ws[i], f)| + |Rotations(ws[i], f)| <= 1
  {
    RunKeepsInv(ws, steps);
    var unused, rotations := Unused(ws[i], f), Rotations(ws[i], f);
    SingletonSize(unused);
    SingletonSize(rotations);
    if x :| x in unused {
      assert rotations == {};
    }
  }

  /** No token is exchanged twice, whoever presents it and however the calls interleave. */
  lemma NeverExchangedTwice(ws: seq<World>, steps: seq<Step>, i: nat, j: nat, k: nat)
    requires Run(ws, steps) && ws[0] == EMPTY && i < |ws|
    requires j < |ws[i].exchanged| && k < |ws[i].exchanged| && ws[i].exchanged[j] == ws[i].exchanged[k]
    ensures j == k
  {
    RunKeepsInv(ws, steps);
  }

  // --- what revoking a family achieves ---

  /** Some token of `f` exchanged after the first `n` exchanges. */
  ghost predicate ExchangedSince(w: World, f: Family, n: nat) {
    exists k :: n <= k < |w.exchanged| && w.exchanged[k] in w.issued && w.issued[w.exchanged[k]] == f
  }

  ghost predicate CanStillExchange(w: World, f: Family) {
    exists ws, steps :: Run(ws, steps) && ws[0] == w && ExchangedSince(ws[|ws| - 1], f, |w.exchanged|)
  }

  ghost predicate Dead(w: World, f: Family) {
    f in w.families && Unused(w, f) == {} && Rotations(w, f) == {}
  }

  lemma DeadStaysDead(w: World, s: Step, f: Family)
    requires Inv(w) && Dead(w, f) && Enabled(w, s)
    ensures Dead(Do(w, s), f)
    ensures Do(w, s).exchanged == w.exchanged
         || (|Do(w, s).exchanged| == |w.exchanged| + 1 && Do(w, s).exchanged[..|w.exchanged|] == w.exchanged
             && w.issued[Do(w, s).exchanged[|w.exchanged|]] != f)
    ensures forall id :: id in w.issued ==> id in Do(w, s).issued && Do(w, s).issued[id] == w.issued[id]
  {
    if s.TryMark? && CanMark(w.rows, w.calls[s.call].row.id) {
      assert w.calls[s.call].row.id !in Unused(w, f);
    }
    if s.Issue? {
      assert s.call !in Rotations(w, f);
    }
    var w' := Do(w, s);
    forall id | id in w'.rows && w'.rows[id].family == f ensures w'.rows[id].used.Some? {
      if id in w.rows {
        assert id !in Unused(w, f);
      }
    }
    forall c | c in w'.calls && w'.calls[c].Rotate? ensures w'.calls[c].family != f {
      if c in w.calls && w.calls[c].Rotate? {
        assert c !in Rotations(w, f);
      }
    }
  }

  lemma {:induction false} DeadNeverExchanges(ws: seq<World>, steps: seq<Step>, f: Family)
    requires Run(ws, steps) && Inv(ws[0]) && Dead(ws[0], f)
    ensures !ExchangedSince(ws[|ws| - 1], f, |ws[0].exchanged|)
  {
    RunKeepsInv(ws, steps);
    for i := 0 to |steps|
      invariant Dead(ws[i], f) && |ws[0].exchanged| <= |ws[i].exchanged|
      invariant !ExchangedSince(ws[i], f, |ws[0].exchanged|)
    {
      DeadStaysDead(ws[i], steps[i], f);
      var w, w' := ws[i], ws[i + 1];
      forall k | |ws[0].exchanged| <= k < |w'.exchanged| ensures w'.issued[w'.exchanged[k]] != f {
        if k < |w.exchanged| {
          assert w'.exchanged[k] == w.exchanged[k];
        }
      }
    }
  }

  lemma FreshNat(s: set<nat>) returns (n: nat)
    ensures n !in s
  {
    n := 0;
    var rest := s;
    while exists x :: x in rest && x >= n
      invariant rest <= s && forall x :: x in s && x !in rest ==> x < n
      decreases rest
    {
      var x :| x in rest && x >= n;
      rest := rest - {x};
      n := x + 1;
    }
  }

  lemma FreshMint(w: World, user: UserId, f: Family) returns (m: Minted)
    ensures Fresh(w, Record(m, user, f))
  {
    var id := FreshNat(w.issued.Keys + w.rows.Keys);
    var hashes := set i | i in w.rows :: w.rows[i].hash;
    var hash := FreshNat(hashes);
    assert forall i :: i in w.rows ==> w.rows[i].hash in hashes;
    m := Minted(id, hash, 0);
  }

  /** Presenting an unused, unexpired token exchanges it when nothing else gets in between. */
  lemma UnusedIsExchanged(w: World, id: TokenId, call: CallId) returns (ws: seq<World>, steps: seq<Step>)
    requires id in w.rows && w.rows[id].id == id && w.rows[id].used.None? && call !in w.calls
    ensures Run(ws, steps) && ws[0] == w
    ensures ws[|ws| - 1].exchanged == w.exchanged + [id] && ws[|ws| - 1].issued == w.issued
  {
    var row := w.rows[id];
    steps := [BeginRefresh(call, row.hash), LookUp(call, Some(id), row.expires), TryMark(call)];
    var w1 := Do(w, steps[0]);
    var w2 := Do(w1, steps[1]);
    assert w2.calls[call] == Mark(row, row.expires);
    ws := [w, w1, w2, Do(w2, steps[2])];
  }

  lemma RunPrepend(w: World, s: Step, ws: seq<World>, steps: seq<Step>)
    requires Enabled(w, s) && Run(ws, steps) && ws[0] == Do(w, s)
    ensures Run([w] + ws, [s] + steps)
  {
  }

  /** The run that brings a revoked family back: the pending Create lands, and its token is refreshed. */
  lemma RotationRevives(w: World, c: CallId) returns (ws: seq<World>, steps: seq<Step>)
    requires c in w.calls && w.calls[c].Rotate?
    ensures Run(ws, steps) && ws[0] == w
    ensures ExchangedSince(ws[|ws| - 1], w.calls[c].family, |w.exchanged|)
  {
    var m := FreshMint(w, w.calls[c].user, w.calls[c].family);
    var w1 := Do(w, Issue(c, m));
    var ws1, steps1 := UnusedIsExchanged(w1, m.id, c);
    RunPrepend(w, Issue(c, m), ws1, steps1);
    ws, steps := [w] + ws1, [Issue(c, m)] + steps1;
    var last := ws[|ws| - 1];
    assert last == ws1[|ws1| - 1];
    assert last.exchanged[|w.exchanged|] == m.id;
  }

  /**
   RevokeFamily is final exactly when no call is between MarkUsed and Create for that family: such a call's Create
   puts a live token back. Holds in every reachable world, whoever issues the revocation.
   */
  lemma RevocationIsFinalIff(w: World, c: CallId)
    requires Inv(w) && Enabled(w, DoRevoke(c))
    ensures var f := w.calls[c].family;
      CanStillExchange(Do(w, DoRevoke(c)), f) <==> Rotations(w, f) != {}
  {
    var f := w.calls[c].family;
    var w' := Do(w, DoRevoke(c));
    StepKeepsConsistent(w, DoRevoke(c));
    StepKeepsSingleHolder(w, DoRevoke(c));
    StepKeepsExchangedOnce(w, DoRevoke(c));
    assert Unused(w', f) == {};
    assert Rotations(w', f) == Rotations(w, f);
    if d :| d in Rotations(w, f) {
      var ws, steps := RotationRevives(w', d);
    } else {
      forall ws, steps | Run(ws, steps) && ws[0] == w' ensures !ExchangedSince(ws[|ws| - 1], f, |w'.exchanged|) {
        DeadNeverExchanges(ws, steps, f);
      }
    }
  }

  /**
   Where a lookup that finds a row leads, on the fields of that row: a Refresh of a used one goes on to revoke the
   family, of an expired one ends, of a live one goes on to mark it, and a Logout revokes whatever it finds. The table
   and every other call stay.
   */
  lemma LookupEffect(w: World, c: CallId, id: TokenId, now: int)
    requires Enabled(w, LookUp(c, Some(id), now))
    ensures var t, w' := w.rows[id], Do(w, LookUp(c, Some(id), now));
      && w' == w.(calls := w'.calls)
      && (forall d :: d != c ==> (d in w'.calls <==> d in w.calls) && (d in w.calls ==> w'.calls[d] == w.calls[d]))
      && (w.calls[c].LogoutLookup? || t.used.Some? ==> c in w'.calls && w'.calls[c] == Revoke(t.family))
      && (w.calls[c].Lookup? && t.used.None? && now > t.expires ==> c !in w'.calls)
      && (w.calls[c].Lookup? && t.used.None? && now <= t.expires ==> c in w'.calls && w'.calls[c] == Mark(t, now))
  {
  }

  /** A lookup that finds nothing is one of a hash no row has; it ends the call and changes nothing else. */
  lemma UnknownEffect(w: World, c: CallId, now: int)
    requires c in w.calls && (w.calls[c].Lookup? || w.calls[c].LogoutLookup?)
    ensures Enabled(w, LookUp(c, None, now)) <==> forall id :: id in w.rows ==> w.rows[id].hash != w.calls[c].hash
    ensures Enabled(w, LookUp(c, None, now)) ==> Do(w, LookUp(c, None, now)) == w.(calls := w.calls - {c})
  {
  }

  /** The expiry job may run at any time; it keeps exactly the rows that expire at its instant or later. */
  lemma ExpireEffect(w: World, before: int)
    ensures Enabled(w, Expire(before))
    ensures var w' := Do(w, Expire(before));
      && w' == w.(rows := w'.rows)
      && (forall id :: id in w'.rows <==> id in w.rows && before <= w.rows[id].expires)
      && (forall id :: id in w'.rows ==> w'.rows[id] == w.rows[id])
  {
  }

  /** A Logout that no other call gets in between: the family of the token presented is gone, or nothing happens. */
  lemma LogoutAloneIsARun(w: World, c: CallId, hash: Hash, found: Option<TokenId>)
    returns (ws: seq<World>, steps: seq<Step>)
    requires c !in w.calls && Finds(w.rows, hash, found)
    ensures Run(ws, steps) && ws[0] == w && ws[|ws| - 1] == w.(rows := ws[|ws| - 1].rows)
    ensures var rows := ws[|ws| - 1].rows;
      && (found.None? ==> rows == w.rows)
      && (found.Some? ==> forall id :: id in rows <==> id in w.rows && w.rows[id].family != w.rows[found.value].family)
  {
    var w1 := Do(w, BeginLogout(c, hash));
    var w2 := Do(w1, LookUp(c, found, 0));
    assert w1.calls - {c} == w.calls;
    if found.None? {
      return [w, w1, w2], [BeginLogout(c, hash), LookUp(c, found, 0)];
    }
    var w3 := Do(w2, DoRevoke(c));
    assert w2.calls - {c} == w.calls;
    return [w, w1, w2, w3], [BeginLogout(c, hash), LookUp(c, found, 0), DoRevoke(c)];
  }

  /**
   Replaying a used token ends its family: lookup, then revocation, and no run exchanges a token of the family again.
   That holds exactly when no rotation of the family is under way as the token is presented.
   */
  lemma ReplayIsFinalIff(w: World, c: CallId, id: TokenId, now: int)
    requires Inv(w) && Enabled(w, LookUp(c, Some(id), now)) && w.calls[c].Lookup? && w.rows[id].used.Some?
    ensures var f, w1 := w.rows[id].family, Do(w, LookUp(c, Some(id), now));
      && Enabled(w1, DoRevoke(c))
      && (forall i :: i in Do(w1, DoRevoke(c)).rows <==> i in w.rows && w.rows[i].family != f)
      && (Dead(Do(w1, DoRevoke(c)), f) <==> Rotations(w, f) == {})
      && (CanStillExchange(Do(w1, DoRevoke(c)), f) <==> Rotations(w, f) != {})
  {
    var f, w1 := w.rows[id].family, Do(w, LookUp(c, Some(id), now));
    LookupEffect(w, c, id, now);
    RunKeepsInv([w, w1], [LookUp(c, Some(id), now)]);
    assert w1 == [w, w1][1];
    RevocationIsFinalIff(w1, c);
    var w2 := Do(w1, DoRevoke(c));
    assert Rotations(w1, f) == Rotations(w, f) == Rotations(w2, f);
    assert Unused(w2, f) == {};
    assert f in w2.families;
  }

  /**
   Two calls hold the same unused row. Whoever marks first rotates, the other revokes the family; and if that
   revocation lands before the winner's Create, it is not final.
   */
  lemma RaceOnOneToken(w: World, c: CallId, d: CallId)
    requires Inv(w) && c != d && c in w.calls && d in w.calls && w.calls[c].Mark? && w.calls[d].Mark?
    requires w.calls[c].row == w.calls[d].row && CanMark(w.rows, w.calls[c].row.id)
    ensures var f := w.calls[c].row.family;
      var w1 := Do(w, TryMark(c));
      var w2 := Do(w1, TryMark(d));
      && w2.exchanged == w.exchanged + [w.calls[c].row.id]
      && w2.calls[c] == Rotate(w.calls[c].row.user, f) && w2.calls[d] == Revoke(f)
      && CanStillExchange(Do(w2, DoRevoke(d)), f)
  {
    var f := w.calls[c].row.family;
    var w1 := Do(w, TryMark(c));
    var w2 := Do(w1, TryMark(d));
    RunKeepsInv([w, w1, w2], [TryMark(c), TryMark(d)]);
    assert w1 == [w, w1, w2][1] && w2 == [w, w1, w2][2];
    assert c in Rotations(w2, f);
    RevocationIsFinalIff(w2, d);
  }

  /** The five steps after which two calls hold one unused row. */
  lemma RaceBegins() returns (ws: seq<World>, steps: seq<Step>)
    ensures Run(ws, steps) && ws[0] == EMPTY
    ensures steps == [Login(Minted(0, 0, 10), 0, 0), BeginRefresh(1, 0), BeginRefresh(2, 0),
                      LookUp(1, Some(0), 5), LookUp(2, Some(0), 5)]
    ensures var w, row := ws[5], Record(Minted(0, 0, 10), 0, 0);
      w.calls == map[1 := Mark(row, 5), 2 := Mark(row, 5)] && w.rows == map[0 := row]
  {
    steps := [Login(Minted(0, 0, 10), 0, 0), BeginRefresh(1, 0), BeginRefresh(2, 0),
              LookUp(1, Some(0), 5), LookUp(2, Some(0), 5)];
    var w1 := Do(EMPTY, steps[0]);
    var w2 := Do(w1, steps[1]);
    var w3 := Do(w2, steps[2]);
    var w4 := Do(w3, steps[3]);
    ws := [EMPTY, w1, w2, w3, w4, Do(w4, steps[4])];
  }

  /**
   That race does happen, from an empty table: one login, two refreshes of its token. The loser's revocation is about
   to run while the winner's Create is pending, and so it will not be final.
   */
  lemma EarlyRevocationHappens() returns (ws: seq<World>, steps: seq<Step>)
    ensures Run(ws, steps) && ws[0] == EMPTY && |steps| == 7
    ensures var w := ws[7];
      && 1 in w.calls && w.calls[1] == Rotate(0, 0) && 2 in w.calls && w.calls[2] == Revoke(0)
      && Rotations(w, 0) != {} && CanStillExchange(Do(w, DoRevoke(2)), 0)
  {
    ws, steps := RaceBegins();
    RunKeepsInv(ws, steps);
    var w := ws[5];
    RaceOnOneToken(w, 1, 2);
    var w1 := Do(w, TryMark(1));
    var w2 := Do(w1, TryMark(2));
    RunAppend(ws, steps, TryMark(1));
    RunAppend(ws + [w1], steps + [TryMark(1)], TryMark(2));
    ws, steps := ws + [w1] + [w2], steps + [TryMark(1)] + [TryMark(2)];
    assert 1 in Rotations(w2, 0);
  }

  lemma RunAppend(ws: seq<World>, steps: seq<Step>, s: Step)
    requires Run(ws, steps) && Enabled(ws[|ws| - 1], s)
    ensures Run(ws + [Do(ws[|ws| - 1], s)], steps + [s])
  {
  }

  /** A call of Refresh that no other call gets in between is a run of the steps. */
  lemma RefreshAloneIsARun(w: World, c: CallId, hash: Hash, found: Option<TokenId>, now: int, minted: Option<Minted>)
    returns (ws: seq<World>, steps: seq<Step>)
    requires Consistent(w) && c !in w.calls && Finds(w.rows, hash, found)
    requires found.Some? && minted.Some? ==>
      Fresh(w, Record(minted.value, w.rows[found.value].user, w.rows[found.value].family))
    ensures Run(ws, steps) && ws[0] == w
    ensures ws[|ws| - 1].rows == RefreshedRows(w.rows, found, now, minted) && ws[|ws| - 1].calls == w.calls
  {
    var w1 := Do(w, BeginRefresh(c, hash));
    var w2 := Do(w1, LookUp(c, found, now));
    if c !in w2.calls {
      return [w, w1, w2], [BeginRefresh(c, hash), LookUp(c, found, now)];
    }
    var row := w.rows[found.value];
    if w2.calls[c].Revoke? {
      var w3 := Do(w2, DoRevoke(c));
      return [w, w1, w2, w3], [BeginRefresh(c, hash), LookUp(c, found, now), DoRevoke(c)];
    }
    var w3 := Do(w2, TryMark(c));
    var last := if minted.Some? then Issue(c, minted.value) else GiveUp(c);
    var w4 := Do(w3, last);
    return [w, w1, w2, w3, w4], [BeginRefresh(c, hash), LookUp(c, found, now), TryMark(c), last];
  }
}
