/**
 The backend's session rows: who may open one, which frames close it, and the sweep
 (backend/internal/app/session.go, backend/internal/domain/session.go,
 backend/internal/adapter/postgres/session_store.go).
 */
module Sessions {
  import opened Prelude
  import opened Protocol

  type SessionId = nat
  type DeviceId = nat
  type UserId = nat
  type RepoId = nat

  datatype Problem = NotFound | Revoked | AdapterUnavailable | Conflict | DeviceOffline | Invalid | Database

  datatype Session = Session(
    id: SessionId, user: UserId, device: DeviceId, adapter: string, directory: string, state: AgentState,
    startedAt: int, endedAt: Option<int>, exitCode: Option<int>)
  {
    predicate Active() {
      endedAt.None?
    }

    function Elapsed(now: int): int {
      if endedAt.Some? then endedAt.value - startedAt else now - startedAt
    }

    function ApplyState(next: AgentState, now: int): Result<Session, Problem> {
      if state == next then Ok(this)
      else if !state.CanTransitionTo(next) then Err(Invalid)
      else
        var moved := this.(state := next);
        Ok(if next.Terminal() && endedAt.None? then moved.(endedAt := Some(now)) else moved)
    }

    function End(code: int, now: int): Session {
      this.(endedAt := if endedAt.None? then Some(now) else endedAt, exitCode := Some(code))
    }

    predicate Describable() {
      !Blank(adapter) && !Blank(directory)
    }
  }

  type Rows = map<SessionId, Session>

  // --- the statements ---

  ghost predicate Free(rows: Rows, d: DeviceId) {
    forall id :: id in rows && rows[id].Active() ==> rows[id].device != d
  }

  /** What the INSERT is accepted on: the primary key and the unique index over open sessions of a device. */
  ghost predicate CanInsert(rows: Rows, s: Session) {
    s.id !in rows && (s.Active() ==> Free(rows, s.device))
  }

  /** The table's CHECK: a session does not end before it started. */
  predicate InOrder(s: Session) {
    s.endedAt.Some? ==> s.startedAt <= s.endedAt.value
  }

  /** The columns Update writes. */
  function Rewritten(row: Session, s: Session): Session {
    row.(state := s.state, exitCode := s.exitCode, endedAt := s.endedAt)
  }

  predicate CanUpdate(rows: Rows, s: Session) {
    s.id in rows && InOrder(Rewritten(rows[s.id], s))
  }

  predicate Stale(row: Session, silent: set<DeviceId>) {
    row.Active() && row.device in silent
  }

  function StaleIds(rows: Rows, silent: set<DeviceId>): set<SessionId> {
    set id | id in rows && Stale(rows[id], silent)
  }

  function Crash(row: Session, at: int): Session {
    row.(state := Crashed, endedAt := Some(at))
  }

  function Swept(rows: Rows, silent: set<DeviceId>, at: int): Rows {
    map id | id in rows :: if Stale(rows[id], silent) then Crash(rows[id], at) else rows[id]
  }

  predicate CanSweep(rows: Rows, silent: set<DeviceId>, at: int) {
    forall id :: id in rows && Stale(rows[id], silent) ==> rows[id].startedAt <= at
  }

  // --- the operations on the table ---

  datatype Op =
    | OpenSession(s: Session)
    | StopRequest(id: SessionId, connected: bool, now: int)
    | StatusFrame(id: SessionId, state: AgentState, now: int)
    | CompleteFrame(id: SessionId, exitCode: int, now: int)
    | Sweep(silent: set<DeviceId>, at: int)

  function Stored(rows: Rows, s: Session): Rows {
    if CanUpdate(rows, s) then rows[s.id := Rewritten(rows[s.id], s)] else rows
  }

  function Moved(rows: Rows, id: SessionId, next: AgentState, now: int): Rows
    requires id in rows
  {
    match rows[id].ApplyState(next, now)
    case Ok(s) => Stored(rows, s)
    case Err(_) => rows
  }

  ghost function Next(rows: Rows, op: Op): Rows {
    match op
    case OpenSession(s) => if CanInsert(rows, s) then rows[s.id := s] else rows
    case StopRequest(id, connected, now) =>
      if id in rows && rows[id].Active() && connected then Moved(rows, id, Stopping, now) else rows
    case StatusFrame(id, state, now) => if id in rows then Moved(rows, id, state, now) else rows
    case CompleteFrame(id, code, now) =>
      if id in rows && code >= 0 then Stored(rows, rows[id].End(code, now)) else rows
    case Sweep(silent, at) => if CanSweep(rows, silent, at) then Swept(rows, silent, at) else rows
  }

  datatype Device = Device(user: UserId, revoked: bool, capabilities: seq<string>, lastSeen: Option<int>)

  datatype Repo = Repo(user: UserId, localPath: string)

  datatype StartInput = StartInput(
    user: UserId, device: DeviceId, repo: Option<RepoId>, adapter: string, directory: string)

  /** Which of a Start's statements the database answers. */
  datatype Answers = Answers(device: bool, active: bool, repo: bool, insert: bool)

  class SessionService {
    var rows: Rows
    var devices: map<DeviceId, Device>
    var repos: map<RepoId, Repo>
    var connected: set<DeviceId>
    var stopsSent: seq<SessionId>

    ghost predicate Valid()
      reads this
    {
      forall id :: id in rows ==> rows[id].id == id && InOrder(rows[id])
    }

    constructor (devices: map<DeviceId, Device>, repos: map<RepoId, Repo>)
      ensures Valid() && rows == map[] && this.devices == devices && this.repos == repos && stopsSent == []
    {
      rows, this.devices, this.repos, connected, stopsSent := map[], devices, repos, {}, [];
    }

    /** The device's open session that started last. */
    method ActiveForDevice(d: DeviceId) returns (found: Option<SessionId>)
      ensures found.None? <==> Free(rows, d)
      ensures found.Some? ==>
        && found.value in rows && rows[found.value].Active() && rows[found.value].device == d
        && forall id :: id in rows && rows[id].Active() && rows[id].device == d ==>
             rows[id].startedAt <= rows[found.value].startedAt
    {
      found := None;
      var rest := rows.Keys;
      while rest != {}
        invariant rest <= rows.Keys
        invariant found.Some? ==> found.value in rows && rows[found.value].Active() && rows[found.value].device == d
        invariant forall id :: id in rows && id !in rest && rows[id].Active() && rows[id].device == d ==>
          found.Some? && rows[id].startedAt <= rows[found.value].startedAt
      {
        var id :| id in rest;
        rest := rest - {id};
        var row := rows[id];
        if row.Active() && row.device == d && (found.None? || rows[found.value].startedAt < row.startedAt) {
          found := Some(id);
        }
      }
    }

    /**
     `id` is the fresh identifier, `db` which statements the database answers. Start succeeds exactly when nothing
     stands in its way, and then opens one row.
     */
    method Start(in_: StartInput, id: SessionId, now: int, db: Answers) returns (r: Result<Session, Problem>)
      requires Valid() && id !in rows
      modifies this`rows
      ensures Valid()
      ensures var known := in_.device in devices && devices[in_.device].user == in_.user;
        var ready := known && !devices[in_.device].revoked
          && (devices[in_.device].capabilities == [] || in_.adapter in devices[in_.device].capabilities);
        var free := forall i :: i in old(rows) && old(rows)[i].endedAt.None? ==> old(rows)[i].device != in_.device;
        var own := in_.repo.Some? ==> in_.repo.value in repos && repos[in_.repo.value].user == in_.user;
        var directory :=
          if own && in_.repo.Some? && in_.directory == "" then repos[in_.repo.value].localPath else in_.directory;
        && (r.Ok? <==>
              && ready && free && own && !Blank(in_.adapter) && !Blank(directory)
              && db.device && db.active && (in_.repo.Some? ==> db.repo) && db.insert)
        && (r.Ok? ==> r.value == Session(id, in_.user, in_.device, in_.adapter, directory, Starting, now, None, None))
        && (r == Err(Revoked) <==> db.device && known && devices[in_.device].revoked)
        && (r == Err(AdapterUnavailable) <==> db.device && known && !devices[in_.device].revoked && !ready)
        && (r == Err(Conflict) <==> db.device && ready && db.active && !free)
      ensures r.Ok? ==> rows == Next(old(rows), OpenSession(r.value)) && id in rows && rows[id] == r.value
      ensures r.Err? ==> rows == old(rows)
      ensures r == Err(Database) ==> !(db.device && db.active && db.repo && db.insert)
    {
      if !db.device {
        return Err(Database);
      }
      if in_.device !in devices || devices[in_.device].user != in_.user {
        return Err(NotFound);
      }
      var device := devices[in_.device];
      if device.revoked {
        return Err(Revoked);
      }
      if |device.capabilities| > 0 && in_.adapter !in device.capabilities {
        return Err(AdapterUnavailable);
      }
      if !db.active {
        return Err(Database);
      }
      var existing := ActiveForDevice(in_.device);
      if existing.Some? {
        return Err(Conflict);
      }
      var directory := in_.directory;
      if in_.repo.Some? {
        if !db.repo {
          return Err(Database);
        }
        if in_.repo.value !in repos || repos[in_.repo.value].user != in_.user {
          return Err(NotFound);
        }
        var path := repos[in_.repo.value].localPath;
        if directory == "" && path != "" {
          directory := path;
        }
      }
      var s := Session(id, in_.user, in_.device, in_.adapter, directory, Starting, now, None, None);
      if !s.Describable() {
        return Err(Invalid);
      }
      if !db.insert {
        return Err(Database);
      }
      assert CanInsert(rows, s);
      rows := rows[id := s];
      return Ok(s);
    }

    method Update(s: Session) returns (r: Result<(), Problem>)
      requires Valid()
      modifies this`rows
      ensures Valid()
      ensures r.Ok? <==> CanUpdate(old(rows), s)
      ensures r == Err(NotFound) <==> s.id !in old(rows)
      ensures rows == Stored(old(rows), s)
    {
      if s.id !in rows {
        return Err(NotFound);
      }
      var row := rows[s.id].(state := s.state, exitCode := s.exitCode, endedAt := s.endedAt);
      if row.endedAt.Some? && row.endedAt.value < row.startedAt {
        return Err(Database);
      }
      rows := rows[s.id := row];
      return Ok(());
    }

    method Stop(id: SessionId, user: UserId, now: int) returns (r: Result<(), Problem>)
      requires Valid()
      modifies this`rows, this`stopsSent
      ensures Valid()
      ensures rows == if id in old(rows) && old(rows)[id].user == user
                      then Next(old(rows), StopRequest(id, old(rows)[id].device in connected, now)) else old(rows)
      ensures var asked := id in old(rows) && old(rows)[id].user == user && old(rows)[id].Active()
                           && old(rows)[id].device in connected;
        && stopsSent == (if asked then old(stopsSent) + [id] else old(stopsSent))
        && (r.Ok? <==> asked && old(rows)[id].state in {Running, WaitingInput, Stopping})
    {
      if id !in rows || rows[id].user != user {
        return Err(NotFound);
      }
      var s := rows[id];
      if !s.Active() {
        return Err(Conflict);
      }
      if s.device !in connected {
        return Err(DeviceOffline);
      }
      stopsSent := stopsSent + [id];
      match s.ApplyState(Stopping, now)
      case Err(reason) => return Err(reason);
      case Ok(moved) =>
        r := Update(moved);
    }

    /** An illegal transition is dropped, not reported. */
    method ApplyStatus(id: SessionId, state: AgentState, now: int) returns (r: Result<(), Problem>)
      requires Valid()
      modifies this`rows
      ensures Valid()
      ensures rows == Next(old(rows), StatusFrame(id, state, now))
      ensures r == Err(NotFound) <==> id !in old(rows)
      ensures id in old(rows) && old(rows)[id].state != state && !old(rows)[id].state.CanTransitionTo(state) ==>
        r.Ok? && rows == old(rows)
    {
      if id !in rows {
        return Err(NotFound);
      }
      match rows[id].ApplyState(state, now)
      case Err(_) => return Ok(());
      case Ok(moved) =>
        r := Update(moved);
    }

    method Complete(id: SessionId, exitCode: int, now: int) returns (r: Result<(), Problem>)
      requires Valid()
      modifies this`rows
      ensures Valid()
      ensures rows == Next(old(rows), CompleteFrame(id, exitCode, now))
      ensures r == Err(NotFound) <==> id !in old(rows)
    {
      if id !in rows {
        return Err(NotFound);
      }
      if exitCode < 0 {
        return Ok(());
      }
      r := Update(rows[id].End(exitCode, now));
    }

    /** The devices not seen since `cutoff`. */
    function Silent(cutoff: int): set<DeviceId>
      reads this`devices
    {
      set d | d in devices && (devices[d].lastSeen.None? || devices[d].lastSeen.value < cutoff)
    }

    /** One UPDATE statement: `at` is the database's own clock, `now` the service's. */
    method SweepStale(now: int, staleAfter: nat, at: int) returns (r: Result<nat, Problem>)
      requires Valid()
      modifies this`rows
      ensures Valid()
      ensures var silent := Silent(now - staleAfter);
        && rows == Next(old(rows), Sweep(silent, at))
        && (r.Ok? <==> CanSweep(old(rows), silent, at))
        && (r.Ok? ==> r.value == |StaleIds(old(rows), silent)|)
        && forall d :: d in silent <==>
             d in devices && (devices[d].lastSeen.Some? ==> devices[d].lastSeen.value + staleAfter < now)
    {
      var silent := Silent(now - staleAfter);
      if exists id :: id in rows && Stale(rows[id], silent) && at < rows[id].startedAt {
        return Err(Database);
      }
      var hit := StaleIds(rows, silent);
      r := Ok(|hit|);
      rows := map id | id in rows :: if Stale(rows[id], silent) then Crash(rows[id], at) else rows[id];
    }
  }
}
