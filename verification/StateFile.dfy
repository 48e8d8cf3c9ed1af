/**
 The agent's encrypted state file and what a crash can do to it (agent/internal/store/store.go). Encryption and JSON
 are function values assumed to invert; every system call of a save may fail, and a crash may strike between any two.
 */
module StateFile {
  import opened Prelude

  type Bytes = seq<bv8>
  type Name = string

  datatype PendingPrompt = PendingPrompt(id: string, text: string, receivedAt: int, attempts: int)

  datatype State = State(
    deviceId: string, deviceToken: string, tokenExpiry: int, userId: string, pending: seq<PendingPrompt>,
    lastSession: string, updatedAt: int)

  const ZERO := State("", "", 0, "", [], "", 0)

  const KEY_SIZE := 32
  const NONCE_SIZE := 12

  datatype Codec = Codec(
    seal: (Bytes, Bytes, Bytes) -> Bytes, open: (Bytes, Bytes, Bytes) -> Option<Bytes>,
    marshal: State -> Bytes, unmarshal: Bytes -> Option<State>)
  {
    ghost predicate Sound() {
      && (forall k, n, p :: open(k, n, seal(k, n, p)) == Some(p))
      && (forall s :: unmarshal(marshal(s)) == Some(s))
    }

    function Encrypt(key: Bytes, nonce: Bytes, plain: Bytes): Option<Bytes> {
      if |key| != KEY_SIZE then None else Some(nonce + seal(key, nonce, plain))
    }

    function Decrypt(key: Bytes, cipher: Bytes): Option<Bytes> {
      if |key| != KEY_SIZE || |cipher| < NONCE_SIZE then None
      else open(key, cipher[..NONCE_SIZE], cipher[NONCE_SIZE..])
    }
  }

  /** `durable` once synced: what is not may be anything after a crash. */
  datatype File = File(content: Bytes, durable: bool)

  /** The directory: the state file, if there is one, and temporary files by name. */
  datatype Disk = Disk(target: Option<File>, temps: map<Name, File>)

  datatype Failure = Unreadable | NoKey | Corrupt

  /** Whether the operating system lets the file be read, if it is there, and whether the key provider answers. */
  datatype Access = Access(readable: bool, keyed: bool)

  const GRANTED := Access(true, true)

  /** What Load makes of the file. */
  function Read(codec: Codec, key: Bytes, target: Option<File>, access: Access): Result<State, Failure> {
    if !access.readable then Err(Unreadable)
    else if target.None? || target.value.content == [] then Ok(ZERO)
    else if !access.keyed then Err(NoKey)
    else
      match codec.Decrypt(key, target.value.content)
      case None => Err(Corrupt)
      case Some(plain) =>
        match codec.unmarshal(plain)
        case None => Err(Corrupt)
        case Some(state) => Ok(state)
  }

  /**
   Each answer of Load and when it is given. A missing and an empty file read as no state, before any key is asked
   for; a state is read exactly from a nonce and a ciphertext that opens under a key of the right size and parses.
   */
  lemma ReadsAs(codec: Codec, key: Bytes, target: Option<File>, access: Access, s: State)
    ensures var r := Read(codec, key, target, access);
      var content := if target.Some? then target.value.content else [];
      var opens := |key| == 32 && 12 <= |content| && codec.open(key, content[..12], content[12..]).Some?;
      && (r == Err(Unreadable) <==> !access.readable)
      && (r == Err(NoKey) <==> access.readable && content != [] && !access.keyed)
      && (r == Ok(s) <==>
            && access.readable
            && (content == [] ==> s == ZERO)
            && (content != [] ==>
                  && access.keyed && opens
                  && codec.unmarshal(codec.open(key, content[..12], content[12..]).value) == Some(s)))
      && (r == Err(Corrupt) <==>
            && access.readable && content != [] && access.keyed
            && (opens ==> codec.unmarshal(codec.open(key, content[..12], content[12..]).value) == None))
  {
  }

  /**
   Which system calls of a save succeed. `nonce` and `temp` are the random bytes and the fresh name, if there are any;
   `written` is None for a complete write and otherwise how many bytes got in.
   */
  datatype Luck = Luck(
    mkdir: bool, marshal: bool, key: bool, nonce: Option<Bytes>, temp: Option<Name>, chmod: bool,
    written: Option<nat>, sync: bool, close: bool, rename: bool, remove: bool)
  {
    predicate Fits(d: Disk) {
      && (nonce.Some? ==> |nonce.value| == NONCE_SIZE)
      && (temp.Some? ==> temp.value !in d.temps)
    }

    /** Nothing fails up to and including the rename. */
    predicate Completes(key: Bytes) {
      && mkdir && marshal && this.key && |key| == KEY_SIZE && nonce.Some? && temp.Some?
      && chmod && written.None? && sync && close && rename
    }
  }

  /** The disk, and the states the state file's name has stood for, oldest first. */
  datatype Medium = Medium(disk: Disk, versions: seq<Option<File>>, saves: seq<State>)
  {
    function Put(name: Name, f: File): Medium {
      this.(disk := disk.(temps := disk.temps[name := f]))
    }

    function Replace(target: Option<File>, s: State): Medium {
      this.(disk := disk.(target := target), versions := versions + [target], saves := saves + [s])
    }

    /** The temporary file takes over the state file's name, in one step. */
    function Rename(name: Name, s: State): Medium
      requires name in disk.temps
    {
      this.(disk := disk.(temps := disk.temps - {name})).Replace(Some(disk.temps[name]), s)
    }

    /** The deferred removal of the temporary file. */
    function Clean(name: Name, remove: bool): Medium {
      if remove then this.(disk := disk.(temps := disk.temps - {name})) else this
    }
  }

  const BLANK := Medium(Disk(None, map[]), [None], [ZERO])

  function Prefix(b: Bytes, n: nat): Bytes {
    if n <= |b| then b[..n] else b
  }

  /** Every medium one persist passes through, in order, after the one it starts from. */
  function Persisting(codec: Codec, key: Bytes, m: Medium, s: State, l: Luck): seq<Medium> {
    if !l.mkdir || !l.marshal || !l.key || |key| != KEY_SIZE || l.nonce.None? || l.temp.None? then []
    else Replacing(m, l.nonce.value + codec.seal(key, l.nonce.value, codec.marshal(s)), l.temp.value, s, l)
  }

  function Replacing(m: Medium, bytes: Bytes, name: Name, s: State, l: Luck): seq<Medium> {
    var created := m.Put(name, File([], false));
    var written := m.Put(name, File(if l.written.Some? then Prefix(bytes, l.written.value) else bytes, false));
    var synced := m.Put(name, File(bytes, true));
    if !l.chmod then [created, created.Clean(name, l.remove)]
    else if l.written.Some? || !l.sync then [created, written, written.Clean(name, l.remove)]
    else if !l.close || !l.rename then [created, written, synced, synced.Clean(name, l.remove)]
    else
      var renamed := synced.Rename(name, s);
      [created, written, synced, renamed, renamed.Clean(name, l.remove)]
  }

  /** The temporary file as the k-th medium of a save has it: synced from the third on, and whole. */
  ghost predicate TempAt(v: Medium, k: nat, m: Medium, bytes: Bytes, name: Name, l: Luck) {
    var whole := l.chmod && l.written.None?;
    && (name in v.disk.temps ==>
          var file := v.disk.temps[name];
          && (k == 0 || !l.chmod ==> file == File([], false))
          && (file.durable <==> 2 <= k && whole && l.sync)
          && (1 <= k && whole ==> file.content == bytes)
          && (1 <= k && l.chmod && l.written.Some? ==>
                file.content == if l.written.value < |bytes| then bytes[..l.written.value] else bytes))
    && (k < 3 && v.disk.target == m.disk.target ==> name in v.disk.temps || (l.remove && 0 < k))
  }

  lemma TempsOnTheWay(m: Medium, bytes: Bytes, name: Name, s: State, l: Luck, k: nat)
    requires k < |Replacing(m, bytes, name, s, l)|
    ensures TempAt(Replacing(m, bytes, name, s, l)[k], k, m, bytes, name, l)
  {
  }

  /**
   What a save leaves behind. If every call up to the rename succeeds, a synced file of the nonce and the ciphertext
   has taken the state file's place; if not, that place is untouched. No temporary file stays when removing works.
   */
  lemma PersistEffect(codec: Codec, key: Bytes, m: Medium, s: State, l: Luck)
    requires l.Fits(m.disk)
    ensures var m' := Last(m, Persisting(codec, key, m, s, l));
      && (l.Completes(key) ==>
            var file := Some(File(l.nonce.value + codec.seal(key, l.nonce.value, codec.marshal(s)), true));
            && m'.disk.target == file && m'.versions == m.versions + [file] && m'.saves == m.saves + [s])
      && (!l.Completes(key) ==>
            m'.disk.target == m.disk.target && m'.versions == m.versions && m'.saves == m.saves)
      && (m'.disk.temps == m.disk.temps
          <==> l.remove || l.Completes(key)
               || !l.mkdir || !l.marshal || !l.key || |key| != 32 || l.nonce.None? || l.temp.None?)
      && (forall name :: name in m.disk.temps ==> name in m'.disk.temps && m'.disk.temps[name] == m.disk.temps[name])
      && (forall name :: name in m'.disk.temps && name !in m.disk.temps ==> l.temp == Some(name))
  {
  }

  lemma PutPut(m: Medium, name: Name, f: File, g: File)
    ensures m.Put(name, f).Put(name, g) == m.Put(name, g)
  {
    assert m.disk.temps[name := f][name := g] == m.disk.temps[name := g];
  }

  class Store {
    const codec: Codec
    const key: Bytes
    var state: State
    var medium: Medium
    ghost var visited: seq<Medium>

    constructor (codec: Codec, key: Bytes, medium: Medium)
      ensures this.codec == codec && this.key == key && this.medium == medium && state == ZERO && visited == []
    {
      this.codec, this.key, this.medium, state, visited := codec, key, medium, ZERO, [];
    }

    method Load(access: Access) returns (r: Result<State, Failure>)
      modifies this`state
      ensures r == Read(codec, key, medium.disk.target, access)
      ensures state == if r.Ok? then r.value else old(state)
    {
      if !access.readable {
        return Err(Unreadable);
      }
      if medium.disk.target.None? {
        state := ZERO;
        return Ok(state);
      }
      var raw := medium.disk.target.value.content;
      if |raw| == 0 {
        state := ZERO;
        return Ok(state);
      }
      if !access.keyed {
        return Err(NoKey);
      }
      var plain := codec.Decrypt(key, raw);
      if plain.None? {
        return Err(Corrupt);
      }
      var parsed := codec.unmarshal(plain.value);
      if parsed.None? {
        return Err(Corrupt);
      }
      state := parsed.value;
      return Ok(state);
    }

    method Save(s: State, now: int, l: Luck) returns (ok: bool)
      requires l.Fits(medium.disk)
      modifies this
      ensures state == s.(updatedAt := now) && ok == l.Completes(key)
      ensures visited == old(visited) + Persisting(codec, key, old(medium), state, l)
      ensures medium == Last(old(medium), Persisting(codec, key, old(medium), state, l))
    {
      state := s.(updatedAt := now);
      ok := Persist(state, l);
    }

    method Update(fn: State -> State, now: int, l: Luck) returns (ok: bool)
      requires l.Fits(medium.disk)
      modifies this
      ensures state == fn(old(state)).(updatedAt := now) && ok == l.Completes(key)
      ensures visited == old(visited) + Persisting(codec, key, old(medium), state, l)
      ensures medium == Last(old(medium), Persisting(codec, key, old(medium), state, l))
    {
      state := fn(state).(updatedAt := now);
      ok := Persist(state, l);
    }

    method Step(m: Medium)
      modifies this`medium, this`visited
      ensures medium == m && visited == old(visited) + [m]
    {
      medium, visited := m, visited + [m];
    }

    method Persist(s: State, l: Luck) returns (ok: bool)
      requires l.Fits(medium.disk)
      modifies this`medium, this`visited
      ensures ok == l.Completes(key)
      ensures visited == old(visited) + Persisting(codec, key, old(medium), s, l)
      ensures medium == Last(old(medium), Persisting(codec, key, old(medium), s, l))
    {
      if !l.mkdir || !l.marshal || !l.key || l.nonce.None? {
        return false;
      }
      var cipher := codec.Encrypt(key, l.nonce.value, codec.marshal(s));
      if cipher.None? || l.temp.None? {
        return false;
      }
      ok := Replace(s, l, cipher.value, l.temp.value);
    }

    /** From the temporary file's creation on, ending with its deferred removal. */
    method Replace(s: State, l: Luck, bytes: Bytes, name: Name) returns (ok: bool)
      requires name !in medium.disk.temps
      modifies this`medium, this`visited
      ensures ok == (l.chmod && l.written.None? && l.sync && l.close && l.rename)
      ensures visited == old(visited) + Replacing(old(medium), bytes, name, s, l)
      ensures medium == Last(old(medium), Replacing(old(medium), bytes, name, s, l))
    {
      ok := false;
      ghost var m := medium;
      Step(medium.Put(name, File([], false)));
      if l.chmod {
        Step(medium.Put(name, File(if l.written.Some? then Prefix(bytes, l.written.value) else bytes, false)));
        PutPut(m, name, File([], false), medium.disk.temps[name]);
        if l.written.None? && l.sync {
          Step(medium.Put(name, File(medium.disk.temps[name].content, true)));
          PutPut(m, name, File(bytes, false), File(bytes, true));
          if l.close && l.rename {
            Step(medium.Rename(name, s));
            ok := true;
          }
        }
      }
      Step(medium.Clean(name, l.remove));
    }

    method Reset(removed: bool) returns (ok: bool)
      modifies this
      ensures state == ZERO && ok == (removed || old(medium).disk.target.None?)
      ensures medium == ResetMedium(old(medium), removed) && visited == old(visited) + [medium]
    {
      state := ZERO;
      ok := true;
      if medium.disk.target.Some? {
        ok := removed;
        if removed {
          medium := medium.Replace(None, ZERO);
        }
      }
      visited := visited + [medium];
    }
  }

  function Last<T>(x: T, xs: seq<T>): T {
    if xs == [] then x else xs[|xs| - 1]
  }

  function ResetMedium(m: Medium, removed: bool): Medium {
    if m.disk.target.Some? && removed then m.Replace(None, ZERO) else m
  }

  /** After a reset that could remove the file a load finds no state; one that could not leaves the medium alone. */
  lemma ResetEffect(codec: Codec, key: Bytes, m: Medium, removed: bool, access: Access)
    ensures var m' := ResetMedium(m, removed);
      && (removed || m.disk.target.None? ==>
            m'.disk.target.None? && (access.readable ==> Read(codec, key, m'.disk.target, access) == Ok(ZERO)))
      && (!removed || m.disk.target.None? ==> m' == m)
      && m'.disk.temps == m.disk.temps
  {
  }
}
