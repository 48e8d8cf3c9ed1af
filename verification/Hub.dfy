/** The hub's two indexes of the connections this backend instance owns (backend/internal/adapter/ws/hub.go). */
module Hub {
  import opened Prelude

  type ConnId = nat
  type UserId = nat
  type DeviceId = nat

  /** `device` is None for a dashboard connection. */
  datatype Conn = Conn(id: ConnId, user: UserId, device: Option<DeviceId>)

  datatype Index = Index(byDevice: map<DeviceId, Conn>, byUser: map<UserId, map<ConnId, Conn>>)

  const EMPTY := Index(map[], map[])

  /** Go's delete on the inner map; a user without one is left without one. */
  function DeleteInner(byUser: map<UserId, map<ConnId, Conn>>, u: UserId, id: ConnId): map<UserId, map<ConnId, Conn>> {
    if u in byUser then byUser[u := byUser[u] - {id}] else byUser
  }

  function Evicted(ix: Index, c: Conn): Option<Conn> {
    if c.device.Some? && c.device.value in ix.byDevice && ix.byDevice[c.device.value].id != c.id
    then Some(ix.byDevice[c.device.value]) else None
  }

  function Registered(ix: Index, c: Conn): Index {
    var evicted := Evicted(ix, c);
    var byUser := if evicted.Some? then DeleteInner(ix.byUser, evicted.value.user, evicted.value.id) else ix.byUser;
    Index(if c.device.Some? then ix.byDevice[c.device.value := c] else ix.byDevice,
          byUser[c.user := (if c.user in byUser then byUser[c.user] else map[])[c.id := c]])
  }

  function Unregistered(ix: Index, c: Conn): Index {
    var mine := c.device.Some? && c.device.value in ix.byDevice && ix.byDevice[c.device.value].id == c.id;
    var inner := if c.user in ix.byUser then ix.byUser[c.user] - {c.id} else map[];
    Index(if mine then ix.byDevice - {c.device.value} else ix.byDevice,
          if inner == map[] then ix.byUser - {c.user} else ix.byUser[c.user := inner])
  }

  class Hub {
    var byDevice: map<DeviceId, Conn>
    var byUser: map<UserId, map<ConnId, Conn>>
    var closed: set<ConnId>

    ghost function State(): Index
      reads this
    {
      Index(byDevice, byUser)
    }

    constructor ()
      ensures State() == EMPTY && closed == {}
    {
      byDevice, byUser, closed := map[], map[], {};
    }

    method Register(c: Conn)
      modifies this
      ensures State() == Registered(old(State()), c)
      ensures closed == old(closed) + (match Evicted(old(State()), c) case Some(e) => {e.id} case None => {})
    {
      var evicted: Option<Conn> := None;
      if c.device.Some? {
        var d := c.device.value;
        if d in byDevice && byDevice[d].id != c.id {
          var existing := byDevice[d];
          evicted := Some(existing);
          if existing.user in byUser {
            byUser := byUser[existing.user := byUser[existing.user] - {existing.id}];
          }
        }
        byDevice := byDevice[d := c];
      }
      if c.user !in byUser {
        byUser := byUser[c.user := map[]];
      }
      var inner: map<ConnId, Conn> := byUser[c.user];
      inner := inner[c.id := c];
      byUser := byUser[c.user := inner];
      if evicted.Some? {
        closed := closed + {evicted.value.id};
      }
    }

    method Unregister(c: Conn)
      modifies this
      ensures State() == Unregistered(old(State()), c) && closed == old(closed)
    {
      if c.device.Some? && c.device.value in byDevice && byDevice[c.device.value].id == c.id {
        byDevice := byDevice - {c.device.value};
      }
      if c.user in byUser {
        byUser := byUser[c.user := byUser[c.user] - {c.id}];
        if byUser[c.user] == map[] {
          byUser := byUser - {c.user};
        }
      }
    }

    method DeviceConnected(d: DeviceId) returns (r: bool)
      ensures r <==> d in State().byDevice
    {
      r := d in byDevice;
    }

    method Count() returns (n: nat)
      ensures n == |Entries(State().byUser, State().byUser.Keys)|
    {
      n := 0;
      var rest := byUser.Keys;
      while rest != {}
        invariant rest <= byUser.Keys
        invariant n == |Entries(byUser, byUser.Keys - rest)|
      {
        var u :| u in rest;
        EntriesOfOneMore(byUser, byUser.Keys - rest, u);
        n := n + |byUser[u]|;
        assert byUser.Keys - (rest - {u}) == (byUser.Keys - rest) + {u};
        rest := rest - {u};
      }
      assert byUser.Keys - rest == byUser.Keys;
    }

    method CloseAll()
      modifies this
      ensures State() == EMPTY
      ensures closed == old(closed) + set u, id | u in old(byUser) && id in old(byUser)[u] :: id
    {
      closed := closed + set u, id | u in byUser && id in byUser[u] :: id;
      byDevice, byUser := map[], map[];
    }
  }

  /** The entries of the inner maps of `users`. */
  function Entries(byUser: map<UserId, map<ConnId, Conn>>, users: set<UserId>): set<(UserId, ConnId)> {
    set u, id | u in byUser && u in users && id in byUser[u] :: (u, id)
  }

  function Paired(u: UserId, ids: set<ConnId>): set<(UserId, ConnId)> {
    set id | id in ids :: (u, id)
  }

  lemma {:induction false} PairedSize(u: UserId, ids: set<ConnId>)
    ensures |Paired(u, ids)| == |ids|
  {
    if ids == {} {
      assert Paired(u, ids) == {};
    } else {
      var id :| id in ids;
      PairedSize(u, ids - {id});
      assert Paired(u, ids) == Paired(u, ids - {id}) + {(u, id)};
    }
  }

  lemma EntriesOfOneMore(byUser: map<UserId, map<ConnId, Conn>>, users: set<UserId>, u: UserId)
    requires u in byUser && u !in users
    ensures |Entries(byUser, users + {u})| == |Entries(byUser, users)| + |byUser[u]|
  {
    var mine := Paired(u, byUser[u].Keys);
    PairedSize(u, byUser[u].Keys);
    EntriesSplit(byUser, users, u);
  }

  lemma EntriesSplit(byUser: map<UserId, map<ConnId, Conn>>, users: set<UserId>, u: UserId)
    requires u in byUser && u !in users
    ensures Entries(byUser, users + {u}) == Entries(byUser, users) + Paired(u, byUser[u].Keys)
    ensures Entries(byUser, users) !! Paired(u, byUser[u].Keys)
  {
    var all, some, mine := Entries(byUser, users + {u}), Entries(byUser, users), Paired(u, byUser[u].Keys);
    forall v, id ensures (v, id) in all <==> (v, id) in some + mine {
    }
    forall p | p in all ensures p in some + mine {
      assert (p.0, p.1) in all;
    }
    forall p | p in some + mine ensures p in all {
      assert (p.0, p.1) in some + mine;
    }
  }

  // --- the set of live connections the two indexes stand for ---

  type Live = map<ConnId, Conn>

  predicate Displaces(c: Conn, other: Conn) {
    c.device.Some? && other.device == c.device && other.id != c.id
  }

  function LiveRegistered(live: Live, c: Conn): Live {
    (map id | id in live && !Displaces(c, live[id]) :: live[id])[c.id := c]
  }

  function LiveUnregistered(live: Live, c: Conn): Live {
    live - {c.id}
  }

  function OfUser(live: Live, u: UserId): map<ConnId, Conn> {
    map id | id in live && live[id].user == u :: live[id]
  }

  ghost predicate Keyed(live: Live) {
    forall id :: id in live ==> live[id].id == id
  }

  ghost predicate DevicesRefine(byDevice: map<DeviceId, Conn>, live: Live) {
    && (forall d :: d in byDevice ==>
          byDevice[d].device == Some(d) && byDevice[d].id in live && live[byDevice[d].id] == byDevice[d])
    && (forall id :: id in live && live[id].device.Some? ==>
          live[id].device.value in byDevice && byDevice[live[id].device.value] == live[id])
  }

  ghost predicate UsersRefine(byUser: map<UserId, map<ConnId, Conn>>, live: Live) {
    && (forall u :: u in byUser ==> byUser[u] == OfUser(live, u) && byUser[u] != map[])
    && (forall id :: id in live ==> live[id].user in byUser)
  }

  /** Each index holds exactly the live connections, and no inner map is empty. */
  ghost predicate Refines(ix: Index, live: Live) {
    && Keyed(live)
    && DevicesRefine(ix.byDevice, live)
    && UsersRefine(ix.byUser, live)
  }

  /** The device's live connection, if any, belongs to the same user. */
  ghost predicate OwnersAgree(live: Live, c: Conn) {
    forall id :: id in live && live[id].device.Some? && live[id].device == c.device ==> live[id].user == c.user
  }

  lemma EvictedIsLive(ix: Index, live: Live, c: Conn)
    requires Keyed(live) && DevicesRefine(ix.byDevice, live) && c.id !in live
    ensures var evicted := Evicted(ix, c);
      && (evicted.Some? ==> evicted.value.id in live && live[evicted.value.id] == evicted.value)
      && (evicted.Some? ==> evicted.value.device == c.device)
  {
  }

  lemma RegisteredIsOneMore(ix: Index, live: Live, c: Conn)
    requires Keyed(live) && DevicesRefine(ix.byDevice, live) && c.id !in live
    ensures LiveRegistered(live, c)
         == (if Evicted(ix, c).Some? then live - {Evicted(ix, c).value.id} else live)[c.id := c]
  {
    var evicted := Evicted(ix, c);
    EvictedIsLive(ix, live, c);
    var kept := map id | id in live && !Displaces(c, live[id]) :: live[id];
    var kept' := if evicted.Some? then live - {evicted.value.id} else live;
    assert forall id :: id in live ==> (id in kept <==> id in kept');
    assert kept == kept';
  }

  lemma OfUserRemoved(live: Live, id: ConnId, u: UserId)
    ensures OfUser(live - {id}, u) == OfUser(live, u) - {id}
  {
  }

  lemma AddUsers(byUser: map<UserId, map<ConnId, Conn>>, live: Live, c: Conn)
    requires c.id !in live
    requires forall u :: u in byUser ==> byUser[u] == OfUser(live, u) && (byUser[u] != map[] || u == c.user)
    requires forall id :: id in live ==> live[id].user in byUser
    ensures UsersRefine(byUser[c.user := (if c.user in byUser then byUser[c.user] else map[])[c.id := c]],
                        live[c.id := c])
  {
    var inner := if c.user in byUser then byUser[c.user] else map[];
    var byUser' := byUser[c.user := inner[c.id := c]];
    assert c.user !in byUser ==> OfUser(live, c.user) == map[];
    forall u | u in byUser' ensures byUser'[u] == OfUser(live[c.id := c], u) && byUser'[u] != map[] {
      assert c.id in inner[c.id := c];
    }
  }

  lemma EvictUsers(byUser: map<UserId, map<ConnId, Conn>>, live: Live, e: Conn)
    requires UsersRefine(byUser, live) && e.id in live && live[e.id] == e
    ensures var byUser1, live1 := DeleteInner(byUser, e.user, e.id), live - {e.id};
      && (forall u :: u in byUser1 ==> byUser1[u] == OfUser(live1, u) && (byUser1[u] != map[] || u == e.user))
      && (forall id :: id in live1 ==> live1[id].user in byUser1)
  {
    var byUser1 := DeleteInner(byUser, e.user, e.id);
    forall u | u in byUser1 ensures byUser1[u] == OfUser(live - {e.id}, u) {
      OfUserRemoved(live, e.id, u);
      if u != e.user {
        assert e.id !in OfUser(live, u);
      }
    }
  }

  lemma RegisterDevices(ix: Index, live: Live, c: Conn)
    requires Keyed(live) && DevicesRefine(ix.byDevice, live) && c.id !in live
    ensures DevicesRefine(Registered(ix, c).byDevice, LiveRegistered(live, c))
  {
  }

  lemma RegisterRefines(ix: Index, live: Live, c: Conn)
    requires Refines(ix, live) && c.id !in live && OwnersAgree(live, c)
    ensures Refines(Registered(ix, c), LiveRegistered(live, c))
  {
    RegisteredIsOneMore(ix, live, c);
    EvictedIsLive(ix, live, c);
    RegisterDevices(ix, live, c);
    match Evicted(ix, c)
    case None => AddUsers(ix.byUser, live, c);
    case Some(e) =>
      EvictUsers(ix.byUser, live, e);
      AddUsers(DeleteInner(ix.byUser, e.user, e.id), live - {e.id}, c);
  }

  lemma UnregisterDevices(ix: Index, live: Live, c: Conn)
    requires Keyed(live) && DevicesRefine(ix.byDevice, live) && c.id in live && live[c.id] == c
    ensures DevicesRefine(Unregistered(ix, c).byDevice, live - {c.id})
  {
  }

  lemma UnregisterRefines(ix: Index, live: Live, c: Conn)
    requires Refines(ix, live) && (c.id in live ==> live[c.id] == c)
    ensures Refines(Unregistered(ix, c), LiveUnregistered(live, c))
  {
    if c.id !in live {
      LateUnregisterIsANoOp(ix, live, c);
      assert LiveUnregistered(live, c) == live;
    } else {
      UnregisterDevices(ix, live, c);
      UnregisterUsers(ix.byUser, live, c);
    }
  }

  lemma UnregisterUsers(byUser: map<UserId, map<ConnId, Conn>>, live: Live, c: Conn)
    requires UsersRefine(byUser, live) && c.id in live && live[c.id] == c
    ensures var inner := byUser[c.user] - {c.id};
      UsersRefine(if inner == map[] then byUser - {c.user} else byUser[c.user := inner], live - {c.id})
  {
    EvictUsers(byUser, live, c);
    var live' := live - {c.id};
    forall id | id in live' && live'[id].user == c.user ensures id in byUser[c.user] - {c.id} {
      assert id in OfUser(live', c.user);
    }
  }

  /** A late Unregister, of a connection already evicted or removed, changes nothing. */
  lemma LateUnregisterIsANoOp(ix: Index, live: Live, c: Conn)
    requires Refines(ix, live) && c.id !in live
    ensures Unregistered(ix, c) == ix
  {
    if c.user in ix.byUser {
      assert c.id !in OfUser(live, c.user);
      assert ix.byUser[c.user] - {c.id} == ix.byUser[c.user];
    } else {
      assert ix.byUser - {c.user} == ix.byUser;
    }
  }

  /** Count is the number of live connections. */
  lemma CountIsLive(ix: Index, live: Live)
    requires Refines(ix, live)
    ensures |Entries(ix.byUser, ix.byUser.Keys)| == |live|
  {
    PairsWithUser(live, live.Keys);
    forall id | id in live ensures id in OfUser(live, live[id].user) && live[id].user in ix.byUser {
    }
    forall u, id | u in ix.byUser && id in ix.byUser[u] ensures id in live && live[id].user == u {
      assert id in OfUser(live, u);
    }
    assert Entries(ix.byUser, ix.byUser.Keys) == Owned(live, live.Keys);
  }

  /** A device is reported connected exactly when one of the live connections is its own. */
  lemma ConnectedIffLive(ix: Index, live: Live, d: DeviceId)
    requires Refines(ix, live)
    ensures d in ix.byDevice <==> exists id :: id in live && live[id].device == Some(d)
  {
    if d in ix.byDevice {
      assert live[ix.byDevice[d].id].device == Some(d);
    }
  }

  function Owned(live: Live, ids: set<ConnId>): set<(UserId, ConnId)> {
    set id | id in ids && id in live :: (live[id].user, id)
  }

  lemma {:induction false} PairsWithUser(live: Live, ids: set<ConnId>)
    requires ids <= live.Keys
    ensures |Owned(live, ids)| == |ids|
  {
    if ids == {} {
      assert Owned(live, ids) == {};
    } else {
      var id :| id in ids;
      PairsWithUser(live, ids - {id});
      assert Owned(live, ids) == Owned(live, ids - {id}) + {(live[id].user, id)};
    }
  }

  // --- whole histories ---

  datatype Event = Reg(c: Conn) | Unreg(c: Conn) | CloseEverything

  /** Connection ids are fresh, a device has one owner, and what is unregistered is what was registered. */
  ghost predicate Proper(events: seq<Event>) {
    && (forall i, j | 0 <= i < j < |events| && events[i].Reg? && events[j].Reg? :: events[i].c.id != events[j].c.id)
    && (forall i, j | 0 <= i < |events| && 0 <= j < |events| && events[i].Reg? && events[j].Reg?
          && events[i].c.device.Some? && events[i].c.device == events[j].c.device ::
          events[i].c.user == events[j].c.user)
    && (forall i, j | 0 <= i < |events| && 0 <= j < |events| && events[i].Unreg? && events[j].Reg?
          && events[i].c.id == events[j].c.id :: events[i].c == events[j].c)
  }

  function IndexAfter(events: seq<Event>): Index {
    if events == [] then EMPTY
    else
      var before := IndexAfter(events[..|events| - 1]);
      match events[|events| - 1]
      case Reg(c) => Registered(before, c)
      case Unreg(c) => Unregistered(before, c)
      case CloseEverything => EMPTY
  }

  predicate Removes(e: Event, c: Conn) {
    match e
    case Reg(c') => Displaces(c', c)
    case Unreg(c') => c'.id == c.id
    case CloseEverything => true
  }

  /** The connection registered at `i` has since been neither evicted, unregistered nor closed with the rest. */
  ghost predicate StillLive(events: seq<Event>, i: nat)
    requires i < |events|
  {
    events[i].Reg? && forall j :: i < j < |events| ==> !Removes(events[j], events[i].c)
  }

  /** The connections of a history, read off the history alone. */
  ghost predicate LiveIn(events: seq<Event>, live: Live) {
    && (forall i :: 0 <= i < |events| && StillLive(events, i) ==>
          events[i].c.id in live && live[events[i].c.id] == events[i].c)
    && (forall id :: id in live ==> exists i :: 0 <= i < |events| && StillLive(events, i) && events[i] == Reg(live[id]))
  }

  function LiveNext(live: Live, e: Event): Live {
    match e
    case Reg(c) => LiveRegistered(live, c)
    case Unreg(c) => LiveUnregistered(live, c)
    case CloseEverything => map[]
  }

  lemma StillLiveExtends(events: seq<Event>, e: Event, i: nat)
    requires i < |events|
    ensures StillLive(events + [e], i) <==> StillLive(events, i) && !Removes(e, events[i].c)
  {
    var events' := events + [e];
    assert events'[i] == events[i] && events'[|events|] == e;
    assert forall j :: 0 <= j < |events| ==> events'[j] == events[j];
  }

  lemma FreshRegistration(events: seq<Event>, c: Conn, i: nat)
    requires Proper(events + [Reg(c)]) && i < |events| && events[i].Reg?
    ensures events[i].c.id != c.id
  {
    var events' := events + [Reg(c)];
    assert events'[i] == events[i] && events'[|events|] == Reg(c);
  }

  lemma LiveStays(events: seq<Event>, live: Live, e: Event, i: nat)
    requires Proper(events + [e]) && LiveIn(events, live) && i < |events| && StillLive(events + [e], i)
    ensures var c := events[i].c; c.id in LiveNext(live, e) && LiveNext(live, e)[c.id] == c
  {
    StillLiveExtends(events, e, i);
    if e.Reg? {
      FreshRegistration(events, e.c, i);
    }
  }

  lemma LiveInStep(events: seq<Event>, live: Live, e: Event)
    requires Proper(events + [e]) && LiveIn(events, live) && Keyed(live)
    ensures LiveIn(events + [e], LiveNext(live, e))
  {
    var events', live' := events + [e], LiveNext(live, e);
    forall i | 0 <= i < |events'| && StillLive(events', i)
      ensures events'[i].c.id in live' && live'[events'[i].c.id] == events'[i].c
    {
      if i < |events| {
        LiveStays(events, live, e, i);
        assert events'[i] == events[i];
      }
    }
    forall id | id in live'
      ensures exists i :: 0 <= i < |events'| && StillLive(events', i) && events'[i] == Reg(live'[id])
    {
      if e.Reg? && id == e.c.id {
        assert StillLive(events', |events|) && events'[|events|] == e;
      } else {
        var i :| 0 <= i < |events| && StillLive(events, i) && events[i] == Reg(live[id]);
        StillLiveExtends(events, e, i);
        assert events'[i] == events[i];
      }
    }
  }

  lemma LiveRegistrations(events: seq<Event>, live: Live, c: Conn)
    requires Proper(events + [Reg(c)]) && LiveIn(events, live) && Keyed(live)
    ensures c.id !in live && OwnersAgree(live, c)
  {
    var events' := events + [Reg(c)];
    forall id | id in live
      ensures id != c.id && (live[id].device.Some? && live[id].device == c.device ==> live[id].user == c.user)
    {
      var i :| 0 <= i < |events| && StillLive(events, i) && events[i] == Reg(live[id]);
      assert events'[i] == events[i] && events'[|events|] == Reg(c);
    }
  }

  /**
   After any history the indexes stand for exactly the connections registered and not removed since: each device's
   entry is its latest such registration, each user's inner map holds all of that user's and is not empty.
   */
  lemma {:induction false} HistoryRefines(events: seq<Event>) returns (live: Live)
    requires Proper(events)
    ensures LiveIn(events, live) && Refines(IndexAfter(events), live)
  {
    if events == [] {
      live := map[];
    } else {
      var n := |events| - 1;
      var init, e := events[..n], events[n];
      assert events == init + [e];
      var before := HistoryRefines(init);
      live := LiveNext(before, e);
      LiveInStep(init, before, e);
      match e
      case Reg(c) =>
        LiveRegistrations(init, before, c);
        RegisterRefines(IndexAfter(init), before, c);
      case Unreg(c) =>
        UnregisteredIsLive(init, before, c);
        UnregisterRefines(IndexAfter(init), before, c);
      case CloseEverything =>
    }
  }

  lemma UnregisteredIsLive(events: seq<Event>, live: Live, c: Conn)
    requires Proper(events + [Unreg(c)]) && LiveIn(events, live) && Keyed(live)
    ensures c.id in live ==> live[c.id] == c
  {
    if c.id in live {
      var events' := events + [Unreg(c)];
      var i :| 0 <= i < |events| && StillLive(events, i) && events[i] == Reg(live[c.id]);
      assert events'[i] == events[i] && events'[|events|] == Unreg(c);
    }
  }

  ghost predicate Alive(events: seq<Event>, c: Conn) {
    exists i :: 0 <= i < |events| && StillLive(events, i) && events[i] == Reg(c)
  }

  lemma AliveIff(events: seq<Event>, live: Live, c: Conn)
    requires LiveIn(events, live)
    ensures Alive(events, c) <==> c.id in live && live[c.id] == c
  {
    if Alive(events, c) {
      var i :| 0 <= i < |events| && StillLive(events, i) && events[i] == Reg(c);
      assert events[i].c == c;
    }
    if c.id in live && live[c.id] == c {
      assert exists i :: 0 <= i < |events| && StillLive(events, i) && events[i] == Reg(live[c.id]);
    }
  }

  lemma UserEntryIff(ix: Index, live: Live, c: Conn)
    requires Refines(ix, live)
    ensures c.id in live && live[c.id] == c
       <==> c.user in ix.byUser && c.id in ix.byUser[c.user] && ix.byUser[c.user][c.id] == c
  {
    if c.user in ix.byUser {
      assert ix.byUser[c.user] == OfUser(live, c.user);
    }
  }

  /** The same, index by index. */
  lemma IndexesFollowHistory(events: seq<Event>, c: Conn)
    requires Proper(events)
    ensures var ix := IndexAfter(events);
      && (Alive(events, c) <==> c.user in ix.byUser && c.id in ix.byUser[c.user] && ix.byUser[c.user][c.id] == c)
      && (c.device.Some? ==>
            (Alive(events, c) <==> c.device.value in ix.byDevice && ix.byDevice[c.device.value] == c))
  {
    var live := HistoryRefines(events);
    AliveIff(events, live, c);
    UserEntryIff(IndexAfter(events), live, c);
  }

  lemma OnlyEvictionEmpties(ix: Index, live: Live, c: Conn, u: UserId)
    requires Refines(ix, live) && c.id !in live && u in Registered(ix, c).byUser && Registered(ix, c).byUser[u] == map[]
    ensures Evicted(ix, c).Some? && Evicted(ix, c).value.user == u != c.user
  {
    assert c.id in Registered(ix, c).byUser[c.user];
  }

  lemma EvictedMapAfter(ix: Index, live: Live, c: Conn)
    requires Refines(ix, live) && c.id !in live && Evicted(ix, c).Some? && Evicted(ix, c).value.user != c.user
    ensures var e := Evicted(ix, c).value;
      && e.user in Registered(ix, c).byUser && e.id in OfUser(live, e.user) && OfUser(live, e.user)[e.id] == e
      && Registered(ix, c).byUser[e.user] == OfUser(live, e.user) - {e.id}
  {
    EvictedIsLive(ix, live, c);
  }

  lemma EmptyWithoutIff(m: map<ConnId, Conn>, e: Conn)
    requires e.id in m && m[e.id] == e
    ensures m - {e.id} == map[] <==> m == map[e.id := e]
  {
    if m - {e.id} == map[] {
      assert forall id :: id in m && id != e.id ==> id in m - {e.id};
    }
  }

  /**
   Why one owner a device is needed: evicting another user's only connection leaves that user an empty inner map, and
   that is the one way an inner map is ever left empty.
   */
  lemma EmptyInnerMapIff(ix: Index, live: Live, c: Conn)
    requires Refines(ix, live) && c.id !in live
    ensures (exists u :: u in Registered(ix, c).byUser && Registered(ix, c).byUser[u] == map[])
       <==> Evicted(ix, c).Some? && Evicted(ix, c).value.user != c.user
            && OfUser(live, Evicted(ix, c).value.user) == map[Evicted(ix, c).value.id := Evicted(ix, c).value]
  {
    var byUser, evicted := Registered(ix, c).byUser, Evicted(ix, c);
    forall u | u in byUser && byUser[u] == map[] ensures evicted.Some? && evicted.value.user == u != c.user {
      OnlyEvictionEmpties(ix, live, c, u);
    }
    if evicted.Some? && evicted.value.user != c.user {
      EvictedMapAfter(ix, live, c);
      EmptyWithoutIff(OfUser(live, evicted.value.user), evicted.value);
    }
  }

  /** And it happens: device 0 connects for user 0, and again for user 1. */
  lemma EmptyInnerMapHappens()
    ensures var ix := IndexAfter([Reg(Conn(0, 0, Some(0))), Reg(Conn(1, 1, Some(0)))]);
      0 in ix.byUser && ix.byUser[0] == map[]
  {
    var events := [Reg(Conn(0, 0, Some(0))), Reg(Conn(1, 1, Some(0)))];
    assert events[..1] == [events[0]] && events[..1][..0] == [];
    assert IndexAfter(events[..1]) == Registered(EMPTY, Conn(0, 0, Some(0)));
  }
}
