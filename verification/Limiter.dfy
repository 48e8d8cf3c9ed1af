/**
 The fixed-window rate limiter over Redis counters (backend/internal/adapter/redis/pubsub.go:183-210). Times are
 nanoseconds since the zero time of Go's clock, durations nanoseconds.
 */
module Limiter {
  import opened Prelude

  type Key = string

  const SECOND := 1_000_000_000

  /** The Unix epoch, in seconds since the zero time. */
  const UNIX_EPOCH := 62_135_596_800

  /** Time.Truncate: the last multiple of `window` not after `t`. */
  function WindowStart(t: int, window: int): int {
    if window <= 0 then t else t - t % window
  }

  /** The number in the counter's name: the window's start in whole Unix seconds. */
  function Bucket(t: int, window: int): int {
    WindowStart(t, window) / SECOND - UNIX_EPOCH
  }

  datatype Counter = Counter(count: nat, expires: int)

  /** Counters by key and bucket. The bucket is digits after the last colon of the name, so the pair is the name. */
  type Counters = map<(Key, int), Counter>

  /** INCR and EXPIRE. A counter that has expired is not there any more. */
  function Bumped(cs: Counters, name: (Key, int), now: int, ttl: int): Counters {
    var count := if name in cs && now < cs[name].expires then cs[name].count else 0;
    cs[name := Counter(count + 1, now + ttl)]
  }

  /** A counter lives until the instant it expires at, and not at it; the one bumped gets a new lease, no other does. */
  lemma BumpedEffect(cs: Counters, name: (Key, int), now: int, ttl: int)
    ensures var cs' := Bumped(cs, name, now, ttl);
      && (forall n :: n in cs' <==> n in cs || n == name)
      && (forall n :: n in cs && n != name ==> cs'[n] == cs[n])
      && cs'[name].expires == now + ttl
      && cs'[name].count == (if name in cs && cs[name].expires - now > 0 then cs[name].count else 0) + 1
  {
  }

  /** `Lost` is a pipeline that failed, after the commands were carried out or before. */
  datatype Reply = Unavailable | Lost(applied: bool) | Answered

  datatype Verdict = Verdict(allowed: bool, remaining: int, resetAt: int)

  class Limiter {
    var counters: Counters
    const expiry: int -> int   // what the Redis client makes of a duration

    constructor (expiry: int -> int)
      ensures counters == map[] && this.expiry == expiry
    {
      counters, this.expiry := map[], expiry;
    }

    /** Whatever goes wrong, the request is let through. */
    method Allow(key: Key, limit: int, window: int, now: int, reply: Reply) returns (v: Verdict)
      modifies this
      ensures var bumped := Bumped(old(counters), (key, Bucket(now, window)), now, expiry(window + SECOND));
        match reply
        case Unavailable => counters == old(counters) && v == Verdict(true, limit, now + window)
        case Lost(applied) =>
          counters == (if applied then bumped else old(counters))
          && v == Verdict(true, limit, WindowStart(now, window) + window)
        case Answered =>
          && counters == bumped
          && var count := bumped[(key, Bucket(now, window))].count;
             && v.allowed == (count <= limit) && v.remaining == (if count <= limit then limit - count else 0)
             && v.resetAt == WindowStart(now, window) + window
    {
      if reply.Unavailable? {
        return Verdict(true, limit, now + window);
      }
      var name := (key, Bucket(now, window));
      var resetAt := WindowStart(now, window) + window;
      if reply.Answered? || reply.applied {
        var count := if name in counters && now < counters[name].expires then counters[name].count else 0;
        counters := counters[name := Counter(count + 1, now + expiry(window + SECOND))];
      }
      if reply.Lost? {
        return Verdict(true, limit, resetAt);
      }
      var count := counters[name].count;
      var remaining := limit - count;
      if remaining < 0 {
        remaining := 0;
      }
      return Verdict(count <= limit, remaining, resetAt);
    }
  }

  // --- whole request histories, Redis answering ---

  datatype Request = Request(key: Key, at: int)

  ghost predicate Timely(reqs: seq<Request>) {
    forall i, j :: 0 <= i <= j < |reqs| ==> reqs[i].at <= reqs[j].at
  }

  /** The counters after a history, each refreshed to last `ttl`. */
  function After(reqs: seq<Request>, window: int, ttl: int): Counters {
    if reqs == [] then map[]
    else Served(After(reqs[..|reqs| - 1], window, ttl), window, ttl, reqs[|reqs| - 1])
  }

  function Served(cs: Counters, window: int, ttl: int, r: Request): Counters {
    Bumped(cs, (r.key, Bucket(r.at, window)), r.at, ttl)
  }

  /** The count the i-th request is answered with, and whether it is admitted. */
  function Count(reqs: seq<Request>, window: int, ttl: int, i: nat): nat
    requires i < |reqs|
  {
    var counters := After(reqs[..i + 1], window, ttl);
    var name := (reqs[i].key, Bucket(reqs[i].at, window));
    if name in counters then counters[name].count else 0
  }

  predicate Admitted(reqs: seq<Request>, limit: int, window: int, ttl: int, i: nat)
    requires i < |reqs|
  {
    Count(reqs, window, ttl, i) <= limit
  }

  // --- aligned windows ---

  predicate SameWindow(r: Request, key: Key, start: int, window: int) {
    r.key == key && WindowStart(r.at, window) == start
  }

  /** How many requests of `key` fall into the aligned window that begins at `start`. */
  function InWindow(reqs: seq<Request>, key: Key, start: int, window: int): nat {
    if reqs == [] then 0
    else InWindow(reqs[..|reqs| - 1], key, start, window)
         + if SameWindow(reqs[|reqs| - 1], key, start, window) then 1 else 0
  }

  /** The i-th request is the so-manieth of its key in its window. */
  function Ordinal(reqs: seq<Request>, window: int, i: nat): nat
    requires i < |reqs|
  {
    InWindow(reqs[..i + 1], reqs[i].key, WindowStart(reqs[i].at, window), window)
  }

  // --- aligned windows and their names ---

  lemma Multiple(t: int, window: int) returns (q: int)
    requires 0 < window
    ensures WindowStart(t, window) == q * window
  {
    q := t / window;
  }

  /**
   The window starts at its last multiple not after `t`, and the counter's name says at which second since 1970: the
   zero time is 62135596800 seconds earlier.
   */
  lemma BucketIsUnixSecond(t: int, window: int) returns (q: int)
    requires 0 < window
    ensures var start, unix := WindowStart(t, window), Bucket(t, window) + 62_135_596_800;
      start == q * window && start <= t < start + window && unix * SECOND <= start < (unix + 1) * SECOND
  {
    q := Multiple(t, window);
  }

  lemma Product(a: nat, b: nat)
    ensures a * b >= 0
  {
  }

  lemma Apart(p: int, q: int, window: int)
    requires 0 < window && p < q
    ensures p * window + window <= q * window
  {
    var k: nat := q - p - 1;
    Product(k, window);
    assert q * window == p * window + window + k * window;
  }

  lemma Smaller(p: int, q: int, window: int)
    requires 0 < window && p * window < q * window
    ensures p < q
  {
    if q < p {
      Apart(q, p, window);
    }
  }

  lemma StartsApart(t: int, u: int, window: int)
    requires 0 < window && WindowStart(t, window) < WindowStart(u, window)
    ensures WindowStart(t, window) + window <= WindowStart(u, window)
  {
    var p := Multiple(t, window);
    var q := Multiple(u, window);
    Smaller(p, q, window);
    Apart(p, q, window);
  }

  lemma StartOfMultiple(q: int, window: int)
    requires 0 < window
    ensures WindowStart(q * window, window) == q * window
  {
    var p := Multiple(q * window, window);
    if p < q {
      Apart(p, q, window);
    } else if q < p {
      Apart(q, p, window);
    }
  }

  lemma NextStart(t: int, window: int)
    requires 0 < window
    ensures WindowStart(WindowStart(t, window) + window, window) == WindowStart(t, window) + window
  {
    var q := Multiple(t, window);
    StartOfMultiple(q + 1, window);
    assert q * window + window == (q + 1) * window;
  }

  lemma StartsFollow(t: int, u: int, window: int)
    requires 0 < window && t <= u
    ensures WindowStart(t, window) <= WindowStart(u, window)
  {
    if WindowStart(u, window) < WindowStart(t, window) {
      StartsApart(u, t, window);
    }
  }

  lemma SecondsApart(a: int, b: int)
    requires a + SECOND <= b
    ensures a / SECOND < b / SECOND
  {
  }

  /** Windows of a second or more have names of their own. */
  lemma NamesAreExact(t: int, u: int, window: int)
    requires SECOND <= window
    ensures Bucket(t, window) == Bucket(u, window) <==> WindowStart(t, window) == WindowStart(u, window)
  {
    var s, s' := WindowStart(t, window), WindowStart(u, window);
    if s < s' {
      StartsApart(t, u, window);
      SecondsApart(s, s');
    } else if s' < s {
      StartsApart(u, t, window);
      SecondsApart(s', s);
    }
  }

  // --- counting windows and buckets ---

  lemma {:induction false} NoneInWindow(reqs: seq<Request>, key: Key, start: int, window: int)
    requires forall i :: 0 <= i < |reqs| ==> !SameWindow(reqs[i], key, start, window)
    ensures InWindow(reqs, key, start, window) == 0
  {
    if reqs != [] {
      NoneInWindow(reqs[..|reqs| - 1], key, start, window);
    }
  }

  lemma InWindowOneMore(reqs: seq<Request>, r: Request, key: Key, start: int, window: int)
    ensures InWindow(reqs + [r], key, start, window)
         == InWindow(reqs, key, start, window) + if SameWindow(r, key, start, window) then 1 else 0
  {
    assert (reqs + [r])[..|reqs|] == reqs;
  }

  predicate SameBucket(r: Request, key: Key, bucket: int, window: int) {
    r.key == key && Bucket(r.at, window) == bucket
  }

  function InBucket(reqs: seq<Request>, key: Key, bucket: int, window: int): nat {
    if reqs == [] then 0
    else InBucket(reqs[..|reqs| - 1], key, bucket, window)
         + if SameBucket(reqs[|reqs| - 1], key, bucket, window) then 1 else 0
  }

  lemma {:induction false} NoneInBucket(reqs: seq<Request>, key: Key, bucket: int, window: int)
    requires forall i :: 0 <= i < |reqs| ==> !SameBucket(reqs[i], key, bucket, window)
    ensures InBucket(reqs, key, bucket, window) == 0
  {
    if reqs != [] {
      NoneInBucket(reqs[..|reqs| - 1], key, bucket, window);
    }
  }

  lemma InBucketOneMore(reqs: seq<Request>, r: Request, key: Key, bucket: int, window: int)
    ensures InBucket(reqs + [r], key, bucket, window)
         == InBucket(reqs, key, bucket, window) + if SameBucket(r, key, bucket, window) then 1 else 0
  {
    assert (reqs + [r])[..|reqs|] == reqs;
  }

  // --- a counter lasts as long as its window, and never counts less than the window's requests ---

  ghost predicate Standing(cs: Counters, window: int, ttl: int, r: Request) {
    var name := (r.key, Bucket(r.at, window));
    name in cs && r.at + ttl <= cs[name].expires
  }

  lemma {:induction false} AllStanding(reqs: seq<Request>, window: int, ttl: int)
    requires Timely(reqs)
    ensures forall i :: 0 <= i < |reqs| ==> Standing(After(reqs, window, ttl), window, ttl, reqs[i])
  {
    if reqs != [] {
      var init := reqs[..|reqs| - 1];
      AllStanding(init, window, ttl);
      forall i | 0 <= i < |reqs| ensures Standing(After(reqs, window, ttl), window, ttl, reqs[i]) {
        if i < |init| {
          assert init[i] == reqs[i];
        }
      }
    }
  }

  /** A counter's expiry never falls before its window ends, whatever outlasts the window it is given. */
  lemma OutlivesItsWindow(reqs: seq<Request>, window: int, ttl: int, i: nat)
    requires 0 < window <= ttl && Timely(reqs) && i < |reqs|
    ensures var name := (reqs[i].key, Bucket(reqs[i].at, window));
      && name in After(reqs, window, ttl)
      && WindowStart(reqs[i].at, window) + window <= After(reqs, window, ttl)[name].expires
  {
    AllStanding(reqs, window, ttl);
  }

  /** `r`'s counter stands, and counts at least the requests of `r`'s window. */
  ghost predicate Covered(reqs: seq<Request>, cs: Counters, window: int, ttl: int, r: Request) {
    && Standing(cs, window, ttl, r)
    && InWindow(reqs, r.key, WindowStart(r.at, window), window) <= cs[(r.key, Bucket(r.at, window))].count
  }

  /** So it is for every request in the window of the latest. */
  ghost predicate Current(reqs: seq<Request>, cs: Counters, window: int, ttl: int) {
    forall i ::
      0 <= i < |reqs| && WindowStart(reqs[i].at, window) == WindowStart(reqs[|reqs| - 1].at, window) ==>
        Covered(reqs, cs, window, ttl, reqs[i])
  }

  /** What falls into one window with a new request falls into one with everything since. */
  lemma EarlierIsCovered(reqs: seq<Request>, cs: Counters, window: int, ttl: int, r: Request, i: nat)
    requires 0 < window && Timely(reqs + [r]) && Current(reqs, cs, window, ttl)
    requires i < |reqs| && WindowStart(reqs[i].at, window) == WindowStart(r.at, window)
    ensures Covered(reqs, cs, window, ttl, reqs[i])
  {
    var all, n := reqs + [r], |reqs|;
    assert all[i] == reqs[i] && all[n - 1] == reqs[n - 1] && all[n] == r;
    StartsFollow(reqs[i].at, reqs[n - 1].at, window);
    StartsFollow(reqs[n - 1].at, r.at, window);
  }

  lemma LatestIsCovered(reqs: seq<Request>, cs: Counters, window: int, ttl: int, r: Request)
    requires 0 < window <= ttl && Timely(reqs + [r]) && Current(reqs, cs, window, ttl)
    ensures Covered(reqs + [r], Served(cs, window, ttl, r), window, ttl, r)
  {
    var start := WindowStart(r.at, window);
    InWindowOneMore(reqs, r, r.key, start, window);
    if i :| 0 <= i < |reqs| && SameWindow(reqs[i], r.key, start, window) {
      EarlierIsCovered(reqs, cs, window, ttl, r, i);
    } else {
      NoneInWindow(reqs, r.key, start, window);
    }
  }

  lemma ServedStaysCurrent(reqs: seq<Request>, cs: Counters, window: int, ttl: int, r: Request)
    requires 0 < window <= ttl && Timely(reqs + [r]) && Current(reqs, cs, window, ttl)
    ensures Current(reqs + [r], Served(cs, window, ttl, r), window, ttl)
  {
    var all, cs' := reqs + [r], Served(cs, window, ttl, r);
    LatestIsCovered(reqs, cs, window, ttl, r);
    forall i | 0 <= i < |all| && WindowStart(all[i].at, window) == WindowStart(all[|all| - 1].at, window)
      ensures Covered(all, cs', window, ttl, all[i])
    {
      if i < |reqs| {
        assert all[i] == reqs[i] && all[|reqs|] == r;
        EarlierIsCovered(reqs, cs, window, ttl, r, i);
      }
    }
  }

  lemma {:induction false} AfterIsCurrent(reqs: seq<Request>, window: int, ttl: int)
    requires 0 < window <= ttl && Timely(reqs)
    ensures Current(reqs, After(reqs, window, ttl), window, ttl)
  {
    if reqs != [] {
      var init, r := reqs[..|reqs| - 1], reqs[|reqs| - 1];
      assert reqs == init + [r];
      AfterIsCurrent(init, window, ttl);
      ServedStaysCurrent(init, After(init, window, ttl), window, ttl, r);
    }
  }

  /** However expiries are rounded, if only they outlast the window: no request is counted below its place in it. */
  lemma CountAtLeastOrdinal(reqs: seq<Request>, window: int, ttl: int, i: nat)
    requires 0 < window <= ttl && Timely(reqs) && i < |reqs|
    ensures Count(reqs, window, ttl, i) >= Ordinal(reqs, window, i)
  {
    var upto := reqs[..i + 1];
    AfterIsCurrent(upto, window, ttl);
    assert Covered(upto, After(upto, window, ttl), window, ttl, upto[i]);
  }

  // --- counters hold what they are named for ---

  /** The expiry outlasts the bucket. Windows shorter than a second share one and need the second on top. */
  predicate Lasting(window: int, ttl: int) {
    0 < window && (if window < SECOND then window + SECOND else window) <= ttl
  }

  /** The counter a request uses counts its bucket, and lasts. */
  ghost predicate Kept(reqs: seq<Request>, cs: Counters, window: int, ttl: int, r: Request) {
    && Standing(cs, window, ttl, r)
    && cs[(r.key, Bucket(r.at, window))].count == InBucket(reqs, r.key, Bucket(r.at, window), window)
  }

  ghost predicate Inv(reqs: seq<Request>, cs: Counters, window: int, ttl: int) {
    && (forall name :: name in cs ==>
          exists i :: 0 <= i < |reqs| && name == (reqs[i].key, Bucket(reqs[i].at, window)))
    && (forall i :: 0 <= i < |reqs| ==> Kept(reqs, cs, window, ttl, reqs[i]))
  }

  /** Requests of one bucket are never so far apart that its counter has expired in between. */
  lemma SameBucketIsSoon(t: int, u: int, window: int, ttl: int)
    requires Lasting(window, ttl) && Bucket(t, window) == Bucket(u, window)
    ensures u < t + ttl
  {
    if SECOND <= window {
      NamesAreExact(t, u, window);
    } else if WindowStart(t, window) + SECOND <= WindowStart(u, window) {
      SecondsApart(WindowStart(t, window), WindowStart(u, window));
    }
  }

  lemma CountBefore(reqs: seq<Request>, cs: Counters, window: int, ttl: int, r: Request)
    requires Lasting(window, ttl) && Inv(reqs, cs, window, ttl)
    ensures var name := (r.key, Bucket(r.at, window));
      InBucket(reqs, r.key, Bucket(r.at, window), window)
      == if name in cs && r.at < cs[name].expires then cs[name].count else 0
  {
    var name := (r.key, Bucket(r.at, window));
    if name in cs {
      var i :| 0 <= i < |reqs| && name == (reqs[i].key, Bucket(reqs[i].at, window));
      assert Kept(reqs, cs, window, ttl, reqs[i]);
      SameBucketIsSoon(reqs[i].at, r.at, window, ttl);
    } else {
      forall i | 0 <= i < |reqs| ensures !SameBucket(reqs[i], r.key, Bucket(r.at, window), window) {
        assert Kept(reqs, cs, window, ttl, reqs[i]);
      }
      NoneInBucket(reqs, r.key, Bucket(r.at, window), window);
    }
  }

  lemma KeptByOthers(reqs: seq<Request>, cs: Counters, window: int, ttl: int, r: Request, q: Request)
    requires Kept(reqs, cs, window, ttl, q) && q.at <= r.at
    requires Kept(reqs + [r], Served(cs, window, ttl, r), window, ttl, r)
    ensures Kept(reqs + [r], Served(cs, window, ttl, r), window, ttl, q)
  {
    InBucketOneMore(reqs, r, q.key, Bucket(q.at, window), window);
  }

  lemma ServedKeeps(reqs: seq<Request>, cs: Counters, window: int, ttl: int, r: Request)
    requires Lasting(window, ttl) && Inv(reqs, cs, window, ttl) && Timely(reqs + [r])
    ensures Inv(reqs + [r], Served(cs, window, ttl, r), window, ttl)
  {
    var all, cs' := reqs + [r], Served(cs, window, ttl, r);
    CountBefore(reqs, cs, window, ttl, r);
    InBucketOneMore(reqs, r, r.key, Bucket(r.at, window), window);
    assert Kept(all, cs', window, ttl, r);
    forall i | 0 <= i < |all| ensures Kept(all, cs', window, ttl, all[i]) {
      if i < |reqs| {
        assert all[i] == reqs[i] && all[|reqs|] == r;
        KeptByOthers(reqs, cs, window, ttl, r, reqs[i]);
      }
    }
    ServedNames(reqs, cs, window, ttl, r);
  }

  lemma ServedNames(reqs: seq<Request>, cs: Counters, window: int, ttl: int, r: Request)
    requires Inv(reqs, cs, window, ttl)
    ensures var all := reqs + [r];
      forall name :: name in Served(cs, window, ttl, r) ==>
        exists i :: 0 <= i < |all| && name == (all[i].key, Bucket(all[i].at, window))
  {
    var all, cs' := reqs + [r], Served(cs, window, ttl, r);
    forall name | name in cs'
      ensures exists i :: 0 <= i < |all| && name == (all[i].key, Bucket(all[i].at, window))
    {
      if name in cs {
        var i :| 0 <= i < |reqs| && name == (reqs[i].key, Bucket(reqs[i].at, window));
        assert all[i] == reqs[i];
      } else {
        assert all[|reqs|] == r;
      }
    }
  }

  lemma {:induction false} AfterKeepsInv(reqs: seq<Request>, window: int, ttl: int)
    requires Lasting(window, ttl) && Timely(reqs)
    ensures Inv(reqs, After(reqs, window, ttl), window, ttl)
  {
    if reqs != [] {
      var init, r := reqs[..|reqs| - 1], reqs[|reqs| - 1];
      assert reqs == init + [r];
      AfterKeepsInv(init, window, ttl);
      ServedKeeps(init, After(init, window, ttl), window, ttl, r);
    }
  }

  /** With an expiry that lasts, the count answered is the request's place among those of its bucket. */
  lemma CountIsPlaceInBucket(reqs: seq<Request>, window: int, ttl: int, i: nat)
    requires Lasting(window, ttl) && Timely(reqs) && i < |reqs|
    ensures Count(reqs, window, ttl, i) == InBucket(reqs[..i + 1], reqs[i].key, Bucket(reqs[i].at, window), window)
  {
    var upto := reqs[..i + 1];
    AfterKeepsInv(upto, window, ttl);
    assert Kept(upto, After(upto, window, ttl), window, ttl, upto[i]);
  }

  /** The code's own expiry, a second more than the window, lasts for windows of every length. */
  lemma SecondOnTopLasts(window: int)
    requires 0 < window
    ensures Lasting(window, window + SECOND)
  {
  }

  /** What a client makes of a duration that counts in whole seconds, and in no fewer than one. */
  function WholeSeconds(duration: int): int {
    if duration < SECOND then SECOND else duration / SECOND * SECOND
  }

  /** Cut to whole seconds it still outlasts every window, and lasts exactly if the window is a second or longer. */
  lemma WholeSecondsOutlast(window: int)
    requires 0 < window
    ensures window < WholeSeconds(window + SECOND)
    ensures Lasting(window, WholeSeconds(window + SECOND)) <==> SECOND <= window
  {
  }

  /** A whole number of seconds, and of 700 ms windows, not before `since`. */
  function SevenSeconds(since: int): (base: int)
    ensures since <= base && base % (7 * SECOND) == 0
  {
    (if since <= 0 then 0 else since) * (7 * SECOND)
  }

  lemma SevenSecondsName(base: int)
    requires base % (7 * SECOND) == 0
    ensures WindowStart(base, 700_000_000) == base
    ensures WindowStart(base + 1_300_000_000, 700_000_000) == base + 700_000_000
    ensures Bucket(base, 700_000_000) == Bucket(base + 1_300_000_000, 700_000_000)
  {
    var q := base / (7 * SECOND);
    assert base == q * 10 * 700_000_000 && base == q * SECOND * 7;
    StartOfMultiple(q * 10, 700_000_000);
    NextStart(base, 700_000_000);
    StartWithin(base + 1_300_000_000, base + 700_000_000, 700_000_000);
    SecondsInAligned(q, 7, 0);
    SecondsInAligned(q, 7, 700_000_000);
  }

  lemma StartWithin(t: int, start: int, window: int)
    requires 0 < window && WindowStart(start, window) == start && start <= t < start + window
    ensures WindowStart(t, window) == start
  {
    OneOfTwoWindows(t, start, window);
  }

  /** So a window of 700 ms may lose its count, at any time: two requests of one bucket, the second counted first. */
  lemma ShortWindowForgets(since: int)
    ensures var window, base := 700_000_000, SevenSeconds(since);
      var reqs := [Request("", base), Request("", base + 1_300_000_000)];
      && Timely(reqs) && since <= base && Bucket(reqs[0].at, window) == Bucket(reqs[1].at, window)
      && Count(reqs, window, WholeSeconds(window + SECOND), 1) == 1
  {
    var window, base := 700_000_000, SevenSeconds(since);
    var ttl := WholeSeconds(window + SECOND);
    var reqs := [Request("", base), Request("", base + 1_300_000_000)];
    SevenSecondsName(base);
    assert reqs[..2] == reqs && reqs[..1] == [reqs[0]] && reqs[..1][..0] == [];
    assert After(reqs[..1], window, ttl) == map[("", Bucket(base, window)) := Counter(1, base + ttl)];
  }

  // --- exact admission ---

  lemma {:induction false} BucketsAreWindows(reqs: seq<Request>, key: Key, t: int, window: int)
    requires SECOND <= window
    ensures InBucket(reqs, key, Bucket(t, window), window) == InWindow(reqs, key, WindowStart(t, window), window)
  {
    if reqs != [] {
      BucketsAreWindows(reqs[..|reqs| - 1], key, t, window);
      NamesAreExact(reqs[|reqs| - 1].at, t, window);
    }
  }

  /** With windows of a second or more the count a request is answered with is its place in its window. */
  lemma CountIsOrdinal(reqs: seq<Request>, window: int, ttl: int, i: nat)
    requires SECOND <= window <= ttl && Timely(reqs) && i < |reqs|
    ensures Count(reqs, window, ttl, i) == Ordinal(reqs, window, i)
  {
    CountIsPlaceInBucket(reqs, window, ttl, i);
    BucketsAreWindows(reqs[..i + 1], reqs[i].key, reqs[i].at, window);
  }

  ghost predicate NotBefore(reqs: seq<Request>, since: int) {
    forall i :: 0 <= i < |reqs| ==> since <= reqs[i].at
  }

  /** In every history that begins at `since` or later. */
  ghost predicate ExactlyTheFirst(limit: int, window: int, ttl: int, since: int) {
    forall reqs, i :: Timely(reqs) && NotBefore(reqs, since) && 0 <= i < |reqs| ==>
      (Admitted(reqs, limit, window, ttl, i) <==> Ordinal(reqs, window, i) <= limit)
  }

  /** `n` requests at one instant. */
  function Burst(key: Key, at: int, n: nat): (r: seq<Request>)
    ensures |r| == n && forall i :: 0 <= i < n ==> r[i] == Request(key, at)
  {
    seq(n, (i: nat) => Request(key, at))
  }

  lemma {:induction false} BurstCount(key: Key, at: int, n: nat, window: int, ttl: int)
    requires 0 < n && 0 < ttl
    ensures After(Burst(key, at, n), window, ttl) == map[(key, Bucket(at, window)) := Counter(n, at + ttl)]
  {
    var b := Burst(key, at, n);
    assert b[..n - 1] == Burst(key, at, n - 1);
    if n > 1 {
      BurstCount(key, at, n - 1, window, ttl);
    }
  }

  lemma FirstOfItsWindow(burst: seq<Request>, r: Request, window: int)
    requires forall i :: 0 <= i < |burst| ==> WindowStart(burst[i].at, window) != WindowStart(r.at, window)
    ensures InWindow(burst + [r], r.key, WindowStart(r.at, window), window) == 1
  {
    InWindowOneMore(burst, r, r.key, WindowStart(r.at, window), window);
    NoneInWindow(burst, r.key, WindowStart(r.at, window), window);
  }

  /** A whole number of seconds, and of windows, not before `since`. */
  function Aligned(since: int, window: int): int {
    (if since <= 0 then 0 else since) * SECOND * window
  }

  lemma AlignedIsLater(since: int, window: int)
    requires 0 < window
    ensures since <= Aligned(since, window)
  {
    if since > 0 {
      Product(since * SECOND, window - 1);
      assert since * SECOND * window == since * SECOND + since * SECOND * (window - 1);
    }
  }

  lemma SecondsInAligned(n: int, window: int, rest: int)
    requires 0 <= rest < SECOND
    ensures (n * SECOND * window + rest) / SECOND == n * window
  {
    assert n * SECOND * window == n * window * SECOND;
  }

  lemma NeighboursShareASecond(since: int, window: int)
    requires 0 < window < SECOND
    ensures var base := Aligned(since, window);
      && WindowStart(base, window) == base && WindowStart(base + window, window) == base + window
      && Bucket(base, window) == Bucket(base + window, window)
  {
    var base, n := Aligned(since, window), if since <= 0 then 0 else since;
    StartOfMultiple(n * SECOND, window);
    NextStart(base, window);
    SecondsInAligned(n, window, 0);
    SecondsInAligned(n, window, window);
  }

  /** The limit's worth of requests, and one more a window later. */
  function OneWindowLater(limit: nat, base: int, window: int): (r: seq<Request>)
    ensures |r| == limit + 1
  {
    Burst("", base, limit) + [Request("", base + window)]
  }

  /** In a window shorter than a second the next window may find this one's counter, at any time. */
  lemma ShortWindowRefusesFirst(limit: int, window: int, ttl: int, since: int)
    requires 0 < window < SECOND && window < ttl && 1 <= limit
    ensures var reqs := OneWindowLater(limit, Aligned(since, window), window);
      && Timely(reqs) && NotBefore(reqs, since)
      && Ordinal(reqs, window, limit) == 1 && !Admitted(reqs, limit, window, ttl, limit)
  {
    var base := Aligned(since, window);
    var burst, r := Burst("", base, limit), Request("", base + window);
    var reqs := OneWindowLater(limit, base, window);
    assert reqs[..limit + 1] == reqs && reqs[..limit] == burst;
    AlignedIsLater(since, window);
    NeighboursShareASecond(since, window);
    BurstCount("", base, limit, window, ttl);
    FirstOfItsWindow(burst, r, window);
  }

  /**
   Exactly the first `limit` requests of every aligned window are admitted if and only if windows last a second,
   whatever expiry outlasts the window and however late the history begins.
   */
  lemma ExactIffWholeSecond(limit: int, window: int, ttl: int, since: int)
    requires 0 < window < ttl && 1 <= limit
    ensures ExactlyTheFirst(limit, window, ttl, since) <==> SECOND <= window
  {
    if SECOND <= window {
      forall reqs, i | Timely(reqs) && NotBefore(reqs, since) && 0 <= i < |reqs|
        ensures Admitted(reqs, limit, window, ttl, i) <==> Ordinal(reqs, window, i) <= limit
      {
        CountIsOrdinal(reqs, window, ttl, i);
      }
    } else {
      ShortWindowRefusesFirst(limit, window, ttl, since);
      var reqs := OneWindowLater(limit, Aligned(since, window), window);
      assert Timely(reqs) && NotBefore(reqs, since) && 0 <= limit < |reqs|;
    }
  }

  // --- how many get through ---

  /** `admitted` are the verdicts on `reqs`. */
  ghost predicate Verdicts(reqs: seq<Request>, limit: int, window: int, ttl: int, admitted: seq<bool>) {
    |admitted| == |reqs| && forall i :: 0 <= i < |reqs| ==> admitted[i] == Admitted(reqs, limit, window, ttl, i)
  }

  /** No request beyond the limit of its window is admitted. */
  ghost predicate NoneBeyond(reqs: seq<Request>, limit: int, window: int, admitted: seq<bool>) {
    && |admitted| == |reqs|
    && forall i {:trigger admitted[i]} :: 0 <= i < |reqs| && admitted[i] ==>
         InWindow(reqs[..i + 1], reqs[i].key, WindowStart(reqs[i].at, window), window) <= limit
  }

  /** And none within it is refused. */
  ghost predicate AllWithin(reqs: seq<Request>, limit: int, window: int, admitted: seq<bool>) {
    && |admitted| == |reqs|
    && forall i {:trigger admitted[i]} :: 0 <= i < |reqs| && !admitted[i] ==>
         InWindow(reqs[..i + 1], reqs[i].key, WindowStart(reqs[i].at, window), window) > limit
  }

  lemma VerdictsAreNotBeyond(reqs: seq<Request>, limit: nat, window: int, ttl: int, admitted: seq<bool>)
    requires 0 < window <= ttl && Timely(reqs) && Verdicts(reqs, limit, window, ttl, admitted)
    ensures NoneBeyond(reqs, limit, window, admitted)
  {
    forall i | 0 <= i < |reqs| && admitted[i]
      ensures InWindow(reqs[..i + 1], reqs[i].key, WindowStart(reqs[i].at, window), window) <= limit
    {
      CountAtLeastOrdinal(reqs, window, ttl, i);
    }
  }

  lemma VerdictsAreAllWithin(reqs: seq<Request>, limit: nat, window: int, ttl: int, admitted: seq<bool>)
    requires SECOND <= window <= ttl && Timely(reqs) && Verdicts(reqs, limit, window, ttl, admitted)
    ensures AllWithin(reqs, limit, window, admitted)
  {
    forall i | 0 <= i < |reqs| && !admitted[i]
      ensures InWindow(reqs[..i + 1], reqs[i].key, WindowStart(reqs[i].at, window), window) > limit
    {
      CountIsOrdinal(reqs, window, ttl, i);
    }
  }

  /** Admitted requests of `key` at times that satisfy `p`, among the first `n`. */
  function Through(reqs: seq<Request>, admitted: seq<bool>, key: Key, p: int -> bool, n: nat): nat
    requires n <= |reqs| == |admitted|
  {
    if n == 0 then 0
    else Through(reqs, admitted, key, p, n - 1)
         + if reqs[n - 1].key == key && p(reqs[n - 1].at) && admitted[n - 1] then 1 else 0
  }

  function During(start: int, window: int): int -> bool {
    t => WindowStart(t, window) == start
  }

  function Within(from: int, length: int): int -> bool {
    t => from <= t < from + length
  }

  lemma PrefixOneMore(reqs: seq<Request>, n: nat, key: Key, start: int, window: int)
    requires 0 < n <= |reqs|
    ensures InWindow(reqs[..n], key, start, window)
         == InWindow(reqs[..n - 1], key, start, window) + if SameWindow(reqs[n - 1], key, start, window) then 1 else 0
  {
    assert reqs[..n] == reqs[..n - 1] + [reqs[n - 1]];
    InWindowOneMore(reqs[..n - 1], reqs[n - 1], key, start, window);
  }

  /** Of the requests in one aligned window no more than the limit get through, and with whole seconds no fewer. */
  lemma {:induction false} ThroughOneWindow(
      reqs: seq<Request>, limit: nat, window: int, admitted: seq<bool>, key: Key, start: int, n: nat)
    requires NoneBeyond(reqs, limit, window, admitted) && n <= |reqs|
    ensures Through(reqs, admitted, key, During(start, window), n)
         <= Min(InWindow(reqs[..n], key, start, window), limit)
    ensures AllWithin(reqs, limit, window, admitted) ==>
      Through(reqs, admitted, key, During(start, window), n) == Min(InWindow(reqs[..n], key, start, window), limit)
  {
    if n > 0 {
      ThroughOneWindow(reqs, limit, window, admitted, key, start, n - 1);
      PrefixOneMore(reqs, n, key, start, window);
    }
  }

  lemma OneOfTwoWindows(t: int, from: int, window: int)
    requires 0 < window && from <= t < from + window
    ensures var s := WindowStart(from, window); WindowStart(t, window) == s || WindowStart(t, window) == s + window
  {
    var s, s' := WindowStart(from, window), WindowStart(t, window);
    if s' < s {
      StartsApart(t, from, window);
    } else if s < s' {
      StartsApart(from, t, window);
      NextStart(from, window);
      if s + window < s' {
        StartsApart(s + window, t, window);
      }
    }
  }

  lemma {:induction false} ThroughSplits(
      reqs: seq<Request>, admitted: seq<bool>, window: int, key: Key, from: int, n: nat)
    requires 0 < window && n <= |reqs| == |admitted|
    ensures var s := WindowStart(from, window);
      Through(reqs, admitted, key, Within(from, window), n)
      <= Through(reqs, admitted, key, During(s, window), n)
         + Through(reqs, admitted, key, During(s + window, window), n)
  {
    if n > 0 {
      ThroughSplits(reqs, admitted, window, key, from, n - 1);
      if Within(from, window)(reqs[n - 1].at) {
        OneOfTwoWindows(reqs[n - 1].at, from, window);
      }
    }
  }

  /** For windows of any length: a stretch that long, aligned or not, lets at most twice the limit through. */
  lemma AtMostTwiceTheLimit(
      reqs: seq<Request>, limit: nat, window: int, ttl: int, admitted: seq<bool>, key: Key, from: int)
    requires 0 < window <= ttl && Timely(reqs) && Verdicts(reqs, limit, window, ttl, admitted)
    ensures Through(reqs, admitted, key, Within(from, window), |reqs|) <= 2 * limit
  {
    var s := WindowStart(from, window);
    VerdictsAreNotBeyond(reqs, limit, window, ttl, admitted);
    ThroughSplits(reqs, admitted, window, key, from, |reqs|);
    ThroughOneWindow(reqs, limit, window, admitted, key, s, |reqs|);
    ThroughOneWindow(reqs, limit, window, admitted, key, s + window, |reqs|);
  }

  lemma {:induction false} BurstInWindow(init: seq<Request>, key: Key, at: int, n: nat, start: int, window: int)
    ensures InWindow(init + Burst(key, at, n), key, start, window)
         == InWindow(init, key, start, window) + if WindowStart(at, window) == start then n else 0
  {
    if n == 0 {
      assert init + Burst(key, at, 0) == init;
    } else {
      BurstInWindow(init, key, at, n - 1, start, window);
      assert init + Burst(key, at, n) == init + Burst(key, at, n - 1) + [Request(key, at)];
      InWindowOneMore(init + Burst(key, at, n - 1), Request(key, at), key, start, window);
    }
  }

  lemma {:induction false} ThroughBoth(
      reqs: seq<Request>, admitted: seq<bool>, window: int, key: Key, from: int, s: int, s': int, n: nat)
    requires s != s' && n <= |reqs| == |admitted|
    requires forall i :: 0 <= i < n ==> Within(from, window)(reqs[i].at)
    requires forall i :: 0 <= i < n ==> WindowStart(reqs[i].at, window) == s || WindowStart(reqs[i].at, window) == s'
    ensures Through(reqs, admitted, key, Within(from, window), n)
         == Through(reqs, admitted, key, During(s, window), n) + Through(reqs, admitted, key, During(s', window), n)
  {
    if n > 0 {
      ThroughBoth(reqs, admitted, window, key, from, s, s', n - 1);
    }
  }

  /** The limit's worth of requests just before time `edge`, and as many again at it. */
  function BothSides(key: Key, limit: nat, edge: int): (r: seq<Request>)
    ensures |r| == 2 * limit
    ensures forall i :: 0 <= i < |r| ==> r[i].at == if i < limit then edge - 1 else edge
  {
    Burst(key, edge - 1, limit) + Burst(key, edge, limit)
  }

  lemma EdgeStarts(q: int, window: int)
    requires 0 < window
    ensures WindowStart(q * window, window) == q * window
    ensures WindowStart(q * window - 1, window) == q * window - window
  {
    StartOfMultiple(q, window);
    StartOfMultiple(q - 1, window);
    assert (q - 1) * window == q * window - window;
    OneOfTwoWindows(q * window - 1, (q - 1) * window, window);
  }

  lemma BothSidesTally(key: Key, limit: nat, edge: int, window: int, start: int)
    requires WindowStart(edge, window) == edge && WindowStart(edge - 1, window) == edge - window
    requires 0 < window && (start == edge - window || start == edge)
    ensures InWindow(BothSides(key, limit, edge), key, start, window) == limit
  {
    var first := Burst(key, edge - 1, limit);
    BurstInWindow([], key, edge - 1, limit, start, window);
    assert [] + first == first;
    BurstInWindow(first, key, edge, limit, start, window);
  }

  lemma TwiceAtEdge(limit: nat, window: int, ttl: int, edge: int, key: Key, admitted: seq<bool>)
    requires SECOND <= window <= ttl && Verdicts(BothSides(key, limit, edge), limit, window, ttl, admitted)
    requires WindowStart(edge, window) == edge && WindowStart(edge - 1, window) == edge - window
    ensures Through(BothSides(key, limit, edge), admitted, key, Within(edge - 1, window), 2 * limit) == 2 * limit
  {
    var reqs, n := BothSides(key, limit, edge), 2 * limit;
    BothSidesTally(key, limit, edge, window, edge - window);
    BothSidesTally(key, limit, edge, window, edge);
    VerdictsAreNotBeyond(reqs, limit, window, ttl, admitted);
    VerdictsAreAllWithin(reqs, limit, window, ttl, admitted);
    assert reqs[..n] == reqs;
    ThroughOneWindow(reqs, limit, window, admitted, key, edge - window, n);
    ThroughOneWindow(reqs, limit, window, admitted, key, edge, n);
    ThroughBoth(reqs, admitted, window, key, edge - 1, edge - window, edge, n);
  }

  /** And twice the limit does get through, around the end of every window. */
  lemma TwiceTheLimitIsReached(limit: nat, window: int, ttl: int, q: int, key: Key, admitted: seq<bool>)
    requires SECOND <= window <= ttl && Verdicts(BothSides(key, limit, q * window), limit, window, ttl, admitted)
    ensures Through(BothSides(key, limit, q * window), admitted, key, Within(q * window - 1, window), 2 * limit)
         == 2 * limit
  {
    EdgeStarts(q, window);
    TwiceAtEdge(limit, window, ttl, q * window, key, admitted);
  }
}
