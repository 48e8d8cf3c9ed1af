/**
 Any sequence of calls on the state file, with a crash between any two system calls
 (agent/internal/store/store.go:105-244).
 */
module StateRuns {
  import opened Prelude
  import opened StateFile

  datatype Call =
    | Save(s: State, now: int, luck: Luck)
    | Update(fn: State -> State, now: int, luck: Luck)
    | Reset(removed: bool)
    | Load(access: Access)

  /** What the process holds in memory, and the disk. */
  datatype World = World(state: State, medium: Medium)

  datatype Setup = Setup(codec: Codec, key: Bytes)

  predicate Possible(w: World, c: Call) {
    (c.Save? || c.Update?) ==> c.luck.Fits(w.medium.disk)
  }

  function Memory(e: Setup, w: World, c: Call): State {
    match c
    case Save(s, now, _) => s.(updatedAt := now)
    case Update(fn, now, _) => fn(w.state).(updatedAt := now)
    case Reset(_) => ZERO
    case Load(access) =>
      match Read(e.codec, e.key, w.medium.disk.target, access)
      case Ok(s) => s
      case Err(_) => w.state
  }

  /** The media a call passes through after the one it starts from. */
  function Visits(e: Setup, w: World, c: Call): seq<Medium> {
    match c
    case Reset(removed) => [ResetMedium(w.medium, removed)]
    case Load(_) => []
    case _ => Persisting(e.codec, e.key, w.medium, Memory(e, w, c), c.luck)
  }

  function Done(e: Setup, w: World, c: Call): World {
    World(Memory(e, w, c), Last(w.medium, Visits(e, w, c)))
  }

  /** What is durable stays; anything else may hold any bytes, or none. */
  predicate Survives(f: Option<File>, f': Option<File>) {
    f.Some? && f.value.durable ==> f' == f
  }

  /**
   A crash that leaves the state file's name at its `kept`-th content. The directory itself is never synced, so this
   may be an earlier one; when renames are durable by themselves it is the last. Temporary files may become anything.
   */
  ghost predicate Crashes(m: Medium, kept: nat, m': Medium) {
    && kept < |m.versions| == |m.saves|
    && m'.saves == m.saves[..kept + 1]
    && |m'.versions| == kept + 1
    && (forall i :: 0 <= i <= kept ==>
          (m.versions[i].None? ==> m'.versions[i].None?) && Survives(m.versions[i], m'.versions[i]))
    && m'.disk.target == m'.versions[kept]
  }

  datatype Event =
    | Completed(c: Call)
    | Crashed(c: Call, at: nat, kept: nat)   // while making `c`, after `at` of the media it visits

  /** The medium a crash finds. */
  function Struck(e: Setup, w: World, c: Call, at: nat): Medium
    requires at <= |Visits(e, w, c)|
  {
    Last(w.medium, Visits(e, w, c)[..at])
  }

  ghost predicate Step(e: Setup, w: World, ev: Event, w': World) {
    && Possible(w, ev.c)
    && match ev
       case Completed(c) => w' == Done(e, w, c)
       case Crashed(c, at, kept) =>
         at <= |Visits(e, w, c)| && w'.state == ZERO && Crashes(Struck(e, w, c, at), kept, w'.medium)
  }

  ghost predicate Run(e: Setup, ws: seq<World>, events: seq<Event>) {
    && |ws| == |events| + 1
    && ws[0] == World(ZERO, BLANK)
    && forall i :: 0 <= i < |events| ==> Step(e, ws[i], events[i], ws[i + 1])
  }

  // --- the invariant ---

  /** `f` reads back as `s`, whatever a crash does to it. */
  ghost predicate Holds(e: Setup, f: Option<File>, s: State) {
    match f
    case None => s == ZERO
    case Some(file) => file.durable && file.content != [] && Read(e.codec, e.key, f, GRANTED) == Ok(s)
  }

  ghost predicate Inv(e: Setup, m: Medium) {
    && 0 < |m.versions| == |m.saves|
    && m.disk.target == m.versions[|m.versions| - 1]
    && forall i :: 0 <= i < |m.versions| ==> Holds(e, m.versions[i], m.saves[i])
  }

  /** The framing: the nonce goes first and comes off again. */
  lemma EncryptedReadsBack(e: Setup, nonce: Bytes, s: State)
    requires e.codec.Sound() && |e.key| == KEY_SIZE && |nonce| == NONCE_SIZE
    ensures Holds(e, Some(File(nonce + e.codec.seal(e.key, nonce, e.codec.marshal(s)), true)), s)
  {
    var body := e.codec.seal(e.key, nonce, e.codec.marshal(s));
    var all := nonce + body;
    assert all[..NONCE_SIZE] == nonce && all[NONCE_SIZE..] == body;
    assert e.codec.open(e.key, nonce, body) == Some(e.codec.marshal(s));
    assert e.codec.unmarshal(e.codec.marshal(s)) == Some(s);
  }

  lemma ReplaceKeeps(e: Setup, m: Medium, f: Option<File>, s: State)
    requires Inv(e, m) && Holds(e, f, s)
    ensures Inv(e, m.Replace(f, s))
  {
  }

  lemma ReplacingKeeps(e: Setup, m: Medium, bytes: Bytes, name: Name, s: State, l: Luck, k: nat)
    requires Inv(e, m) && Holds(e, Some(File(bytes, true)), s) && k < |Replacing(m, bytes, name, s, l)|
    ensures Inv(e, Replacing(m, bytes, name, s, l)[k])
  {
    var synced := m.Put(name, File(bytes, true));
    ReplaceKeeps(e, synced.(disk := synced.disk.(temps := synced.disk.temps - {name})), Some(File(bytes, true)), s);
  }

  /** The invariant holds at every point inside every call, not only between calls. */
  lemma VisitsKeep(e: Setup, w: World, c: Call, k: nat)
    requires e.codec.Sound() && Inv(e, w.medium) && Possible(w, c) && k < |Visits(e, w, c)|
    ensures Inv(e, Visits(e, w, c)[k])
  {
    match c
    case Reset(removed) => ReplaceKeeps(e, w.medium, None, ZERO);
    case Load(_) =>
    case _ =>
      var s, l := Memory(e, w, c), c.luck;
      var bytes := l.nonce.value + e.codec.seal(e.key, l.nonce.value, e.codec.marshal(s));
      EncryptedReadsBack(e, l.nonce.value, s);
      ReplacingKeeps(e, w.medium, bytes, l.temp.value, s, l, k);
  }

  lemma StruckKeeps(e: Setup, w: World, c: Call, at: nat)
    requires e.codec.Sound() && Inv(e, w.medium) && Possible(w, c) && at <= |Visits(e, w, c)|
    ensures Inv(e, Struck(e, w, c, at))
  {
    if at > 0 {
      VisitsKeep(e, w, c, at - 1);
    }
  }

  lemma StepKeeps(e: Setup, w: World, ev: Event, w': World)
    requires e.codec.Sound() && Inv(e, w.medium) && Step(e, w, ev, w')
    ensures Inv(e, w'.medium)
  {
    match ev
    case Completed(c) =>
      StruckKeeps(e, w, c, |Visits(e, w, c)|);
      assert Visits(e, w, c)[..|Visits(e, w, c)|] == Visits(e, w, c);
    case Crashed(c, at, kept) =>
      StruckKeeps(e, w, c, at);
  }

  lemma BlankHolds(e: Setup)
    ensures Inv(e, BLANK)
  {
  }

  lemma RunStepKeeps(e: Setup, ws: seq<World>, events: seq<Event>, i: nat)
    requires e.codec.Sound() && Run(e, ws, events) && i < |events| && Inv(e, ws[i].medium)
    ensures Inv(e, ws[i + 1].medium)
  {
    StepKeeps(e, ws[i], events[i], ws[i + 1]);
  }

  lemma {:induction false} RunKeepsInv(e: Setup, ws: seq<World>, events: seq<Event>, n: nat)
    requires e.codec.Sound() && Run(e, ws, events) && n < |ws|
    ensures Inv(e, ws[n].medium)
  {
    if n == 0 {
      BlankHolds(e);
    } else {
      RunKeepsInv(e, ws, events, n - 1);
      RunStepKeeps(e, ws, events, n - 1);
    }
  }

  // --- what a restart finds ---

  /**
   After any run of calls and crashes, crash anywhere inside the next call: the next Load reads the state of the last
   rename the crash kept, and when renames are durable it is the last one completed. Even a Load that is denied the
   file or the key never takes it for corrupt.
   */
  lemma CrashNeverCorrupts(
      e: Setup, ws: seq<World>, events: seq<Event>, n: nat, c: Call, at: nat, kept: nat, m: Medium)
    requires e.codec.Sound() && Run(e, ws, events) && n < |ws|
    requires Possible(ws[n], c) && at <= |Visits(e, ws[n], c)| && Crashes(Struck(e, ws[n], c, at), kept, m)
    ensures var struck := Struck(e, ws[n], c, at);
      && Read(e.codec, e.key, m.disk.target, GRANTED) == Ok(struck.saves[kept])
      && (kept == |struck.versions| - 1 ==>
            Read(e.codec, e.key, m.disk.target, GRANTED) == Ok(struck.saves[|struck.saves| - 1]))
    ensures forall access :: Read(e.codec, e.key, m.disk.target, access) != Err(Corrupt)
  {
    RunKeepsInv(e, ws, events, n);
    StruckKeeps(e, ws[n], c, at);
  }

  /** The directory is not synced: a save that reported success can be gone after a crash. */
  lemma RenameMayBeLost(e: Setup, s: State, now: int, luck: Luck) returns (ws: seq<World>, events: seq<Event>)
    requires luck.Fits(BLANK.disk) && luck.Completes(e.key)
    ensures Run(e, ws, events) && events == [Completed(Save(s, now, luck)), Crashed(Load(GRANTED), 0, 0)]
    ensures ws[1].medium.saves == [ZERO, s.(updatedAt := now)]
    ensures Read(e.codec, e.key, ws[2].medium.disk.target, GRANTED) == Ok(ZERO)
  {
    var c := Save(s, now, luck);
    events := [Completed(c), Crashed(Load(GRANTED), 0, 0)];
    var w0 := World(ZERO, BLANK);
    SuccessIsTheRename(e, w0, c);
    var w1 := Done(e, w0, c);
    assert w1.medium.versions[0] == None && |w1.medium.versions| == 2;
    assert Crashes(w1.medium, 0, BLANK);
    ws := [w0, w1, World(ZERO, BLANK)];
  }

  /** What a completed call adds to the states the file has held. */
  function Adds(e: Setup, w: World, c: Call): seq<State> {
    match c
    case Reset(removed) => if w.medium.disk.target.Some? && removed then [ZERO] else []
    case Load(_) => []
    case _ => if c.luck.Completes(e.key) then [Memory(e, w, c)] else []
  }

  /** A save that reports success is on disk, and one that reports failure left the file as it was. */
  lemma SuccessIsTheRename(e: Setup, w: World, c: Call)
    requires Possible(w, c)
    ensures Done(e, w, c).medium.saves == w.medium.saves + Adds(e, w, c)
    ensures Adds(e, w, c) == [] ==> Done(e, w, c).medium.disk.target == w.medium.disk.target
  {
  }

  /** A crash inside a call finds the file as before the call or as after it, nothing in between. */
  lemma CrashIsBeforeOrAfter(e: Setup, w: World, c: Call, at: nat)
    requires Possible(w, c) && at <= |Visits(e, w, c)|
    ensures Struck(e, w, c, at).saves == w.medium.saves
         || Struck(e, w, c, at).saves == w.medium.saves + Adds(e, w, c)
    ensures at == |Visits(e, w, c)| ==> Struck(e, w, c, at).saves == w.medium.saves + Adds(e, w, c)
  {
    match c
    case Reset(removed) =>
    case Load(_) =>
    case _ =>
      var visits := Visits(e, w, c);
      if at > 0 {
        assert visits[..at][at - 1] == visits[at - 1];
      }
  }

  function AddedBy(e: Setup, ws: seq<World>, calls: seq<Call>): seq<State>
    requires |ws| >= |calls|
  {
    if calls == [] then []
    else
      var n := |calls| - 1;
      AddedBy(e, ws, calls[..n]) + Adds(e, ws[n], calls[n])
  }

  /** With no crash, the states the file has held are the empty one and those of the successful calls, in order. */
  lemma {:induction false} SavesAreTheSuccesses(e: Setup, ws: seq<World>, calls: seq<Call>)
    requires Run(e, ws, seq(|calls|, (i: nat) requires i < |calls| => Completed(calls[i])))
    ensures ws[|calls|].medium.saves == [ZERO] + AddedBy(e, ws, calls)
  {
    if calls != [] {
      var n := |calls| - 1;
      var events := seq(|calls|, (i: nat) requires i < |calls| => Completed(calls[i]));
      var fewer := seq(n, (i: nat) requires i < n => Completed(calls[..n][i]));
      assert forall i :: 0 <= i < n ==> fewer[i] == events[i];
      assert Run(e, ws[..|calls|], fewer);
      SavesAreTheSuccesses(e, ws[..|calls|], calls[..n]);
      AddedByPrefix(e, ws, calls[..n]);
      assert events[n] == Completed(calls[n]) && Step(e, ws[n], events[n], ws[n + 1]);
      SuccessIsTheRename(e, ws[n], calls[n]);
    }
  }

  lemma {:induction false} AddedByPrefix(e: Setup, ws: seq<World>, calls: seq<Call>)
    requires |calls| < |ws|
    ensures AddedBy(e, ws, calls) == AddedBy(e, ws[..|ws| - 1], calls)
  {
    if calls != [] {
      AddedByPrefix(e, ws, calls[..|calls| - 1]);
    }
  }

  /** After a failed save memory is ahead of the disk, and stays in use: the next successful Update builds on it. */
  lemma FailedSaveIsCarried(e: Setup, w: World, c: Call, next: Call)
    requires Possible(w, c) && c.Save? && !c.luck.Completes(e.key)
    requires next.Update? && Possible(Done(e, w, c), next) && next.luck.Completes(e.key)
    ensures Done(e, w, c).state == c.s.(updatedAt := c.now) && Done(e, w, c).medium.saves == w.medium.saves
    ensures var w' := Done(e, Done(e, w, c), next);
      && w'.medium.saves == w.medium.saves + [w'.state]
      && w'.state == next.fn(c.s.(updatedAt := c.now)).(updatedAt := next.now)
  {
    SuccessIsTheRename(e, w, c);
    SuccessIsTheRename(e, Done(e, w, c), next);
  }

  /** A process that just loaded and one that saved successfully both hold what the disk holds. */
  lemma MemoryIsOnDisk(e: Setup, ws: seq<World>, events: seq<Event>, n: nat, c: Call)
    requires e.codec.Sound() && Run(e, ws, events) && n < |ws| && Possible(ws[n], c)
    requires c == Load(GRANTED) || ((c.Save? || c.Update?) && c.luck.Completes(e.key))
    ensures var w := Done(e, ws[n], c); Read(e.codec, e.key, w.medium.disk.target, GRANTED) == Ok(w.state)
  {
    RunKeepsInv(e, ws, events, n);
    var m := ws[n].medium;
    assert Holds(e, m.versions[|m.versions| - 1], m.saves[|m.saves| - 1]);
    if !c.Load? {
      StepKeeps(e, ws[n], Completed(c), Done(e, ws[n], c));
      SuccessIsTheRename(e, ws[n], c);
      var m' := Done(e, ws[n], c).medium;
      assert Holds(e, m'.versions[|m'.versions| - 1], m'.saves[|m'.saves| - 1]);
    }
  }
}
