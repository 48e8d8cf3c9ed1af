/** Starting components in order and unwinding them within one grace period (shared/lifecycle/lifecycle.go:93-243). */
module Supervisor {
  import opened Prelude

  datatype StopResult = Clean | Overran | Failed

  datatype Outcome = Outcome(took: nat, result: StopResult)

  /** `stop` is how the component answers a Stop with so much of the budget left. */
  datatype Component = Component(starts: bool, stop: int -> Outcome)

  /** Components by their place in the registration order. */
  datatype Event =
    | Started(c: nat)
    | StartFailed(c: nat)
    | Stopped(c: nat, budget: int, outcome: Outcome)
    | Skipped(c: nat)
  {
    predicate Unwinds() {
      Stopped? || Skipped?
    }

    predicate StoppedClean() {
      Stopped? && outcome.result == Clean
    }

    function Took(): nat {
      if Stopped? then outcome.took else 0
    }
  }

  datatype Error = CannotStart(c: nat) | ShutdownTimeout(c: nat) | CannotStop(c: nat) | Cause

  const DEFAULT_GRACE: nat := 15_000_000_000

  /** What unwinding `cs` does when `elapsed` of the grace period is gone. */
  function Unwound(cs: seq<Component>, elapsed: nat, grace: nat): seq<Event> {
    if cs == [] then []
    else
      var n := |cs| - 1;
      if grace <= elapsed then [Skipped(n)] + Unwound(cs[..n], elapsed, grace)
      else
        var outcome := cs[n].stop(grace - elapsed);
        [Stopped(n, grace - elapsed, outcome)] + Unwound(cs[..n], elapsed + outcome.took, grace)
  }

  function Complaint(e: Event): seq<Error> {
    match e
    case Stopped(c, _, Outcome(_, Overran)) => [ShutdownTimeout(c)]
    case Stopped(c, _, Outcome(_, Failed)) => [CannotStop(c)]
    case Skipped(c) => [ShutdownTimeout(c)]
    case _ => []
  }

  function Complaints(events: seq<Event>): seq<Error> {
    if events == [] then [] else Complaints(events[..|events| - 1]) + Complaint(events[|events| - 1])
  }

  function TotalTook(events: seq<Event>): nat {
    if events == [] then 0 else TotalTook(events[..|events| - 1]) + events[|events| - 1].Took()
  }

  /** How many components start: all of them, or those before the first that fails to. */
  function Starting(cs: seq<Component>): (n: nat)
    ensures n <= |cs|
  {
    if cs == [] then 0 else if !cs[0].starts then 0 else 1 + Starting(cs[1..])
  }

  function Starts(n: nat): (r: seq<Event>)
    ensures |r| == n
  {
    seq(n, (i: nat) => Started(i))
  }

  function Booted(cs: seq<Component>): seq<Event> {
    var n := Starting(cs);
    Starts(n) + (if n < |cs| then [StartFailed(n)] else [])
  }

  /** Everything a Run does, and what it returns. */
  function RunTrace(cs: seq<Component>, grace: nat): seq<Event> {
    Booted(cs) + Unwound(cs[..Starting(cs)], 0, grace)
  }

  function RunErrors(cs: seq<Component>, grace: nat, cause: Option<Error>): seq<Error> {
    var n := Starting(cs);
    (if n < |cs| then [CannotStart(n)] else if cause.Some? then [cause.value] else [])
    + Complaints(Unwound(cs[..n], 0, grace))
  }

  lemma Associate(a: seq<Event>, b: seq<Event>, c: seq<Event>)
    ensures a + b + c == a + (b + c)
  {
  }

  class Supervisor {
    const grace: nat
    var components: seq<Component>
    var trace: seq<Event>
    var now: nat

    constructor (grace: int)
      ensures this.grace > 0 && (grace > 0 ==> this.grace == grace) && (grace <= 0 ==> this.grace == DEFAULT_GRACE)
      ensures components == [] && trace == []
    {
      this.grace := if grace <= 0 then DEFAULT_GRACE else grace;
      components, trace, now := [], [], 0;
    }

    method Add(more: seq<Component>)
      modifies this`components
      ensures components == old(components) + more
    {
      components := components + more;
    }

    /** `cause` is what ended the wait: an error, or None for a signal. */
    method Run(cause: Option<Error>) returns (errs: seq<Error>)
      modifies this`trace, this`now
      ensures trace == old(trace) + RunTrace(components, grace)
      ensures errs == RunErrors(components, grace, cause)
    {
      var n := StartAll();
      var stopErrs := Shutdown(components[..n]);
      Associate(old(trace), Booted(components), Unwound(components[..n], 0, grace));
      if n < |components| {
        return [CannotStart(n)] + stopErrs;
      }
      errs := (if cause.Some? then [cause.value] else []) + stopErrs;
    }

    /** The starting loop, up to the first failure. */
    method StartAll() returns (n: nat)
      modifies this`trace
      ensures n == Starting(components)
      ensures trace == old(trace) + Booted(components)
    {
      n := 0;
      assert components[0..] == components;
      while n < |components|
        invariant n <= |components| && n + Starting(components[n..]) == Starting(components)
        invariant trace == old(trace) + Starts(n)
      {
        if !components[n].starts {
          trace := trace + [StartFailed(n)];
          return;
        }
        trace := trace + [Started(n)];
        assert Starts(n) + [Started(n)] == Starts(n + 1);
        n := n + 1;
      }
    }

    method Shutdown(started: seq<Component>) returns (errs: seq<Error>)
      modifies this`trace, this`now
      ensures trace == old(trace) + Unwound(started, 0, grace)
      ensures errs == Complaints(Unwound(started, 0, grace))
      ensures now == old(now) + TotalTook(Unwound(started, 0, grace))
    {
      var deadline := now + grace;
      ghost var done: seq<Event> := [];
      errs := [];
      var i := |started|;
      HalfwayAtFirst(started, grace);
      while i > 0
        invariant 0 <= i <= |started|
        invariant trace == old(trace) + done && errs == Complaints(done) && now == old(now) + TotalTook(done)
        invariant Halfway(done, started, i, grace)
      {
        HalfwayOneMore(done, started, i, grace);
        i := i - 1;
        var event, err := StopOne(started[i], i, deadline - now);
        errs := errs + err;
        OneMore(done, event);
        done := done + [event];
      }
      HalfwayAtLast(done, started, grace);
    }

    method StopOne(c: Component, i: nat, remaining: int) returns (event: Event, errs: seq<Error>)
      modifies this`trace, this`now
      ensures event == if remaining <= 0 then Skipped(i) else Stopped(i, remaining, c.stop(remaining))
      ensures errs == Complaint(event)
      ensures trace == old(trace) + [event] && now == old(now) + event.Took()
    {
      errs := [];
      if remaining <= 0 {
        event := Skipped(i);
        errs := [ShutdownTimeout(i)];
      } else {
        var outcome := c.stop(remaining);
        event := Stopped(i, remaining, outcome);
        now := now + outcome.took;
        match outcome.result
        case Clean =>
        case Overran => errs := [ShutdownTimeout(i)];
        case Failed => errs := [CannotStop(i)];
      }
      trace := trace + [event];
    }
  }

  function NextEvent(cs: seq<Component>, i: nat, elapsed: nat, grace: nat): Event
    requires 0 < i <= |cs|
  {
    if grace <= elapsed then Skipped(i - 1)
    else Stopped(i - 1, grace - elapsed, cs[i - 1].stop(grace - elapsed))
  }

  /** `done` is what unwinding does before it comes to the first `i` components. */
  ghost predicate Halfway(done: seq<Event>, cs: seq<Component>, i: nat, grace: nat) {
    i <= |cs| && Unwound(cs, 0, grace) == done + Unwound(cs[..i], TotalTook(done), grace)
  }

  lemma HalfwayAtFirst(cs: seq<Component>, grace: nat)
    ensures Halfway([], cs, |cs|, grace)
  {
    assert cs[..|cs|] == cs;
  }

  lemma HalfwayAtLast(done: seq<Event>, cs: seq<Component>, grace: nat)
    requires Halfway(done, cs, 0, grace)
    ensures done == Unwound(cs, 0, grace)
  {
  }

  lemma HalfwayOneMore(done: seq<Event>, cs: seq<Component>, i: nat, grace: nat)
    requires 0 < i && Halfway(done, cs, i, grace)
    ensures Halfway(done + [NextEvent(cs, i, TotalTook(done), grace)], cs, i - 1, grace)
  {
    var e := NextEvent(cs, i, TotalTook(done), grace);
    OneMore(done, e);
    UnwindNext(cs, i, TotalTook(done), grace);
    Regroup(Unwound(cs, 0, grace), done, Unwound(cs[..i], TotalTook(done), grace), e,
            Unwound(cs[..i - 1], TotalTook(done + [e]), grace));
  }

  lemma UnwindNext(cs: seq<Component>, i: nat, elapsed: nat, grace: nat)
    requires 0 < i <= |cs|
    ensures var e := NextEvent(cs, i, elapsed, grace);
      Unwound(cs[..i], elapsed, grace) == [e] + Unwound(cs[..i - 1], elapsed + e.Took(), grace)
  {
    assert cs[..i][..i - 1] == cs[..i - 1];
  }

  lemma Regroup(all: seq<Event>, done: seq<Event>, todo: seq<Event>, e: Event, rest: seq<Event>)
    requires all == done + todo && todo == [e] + rest
    ensures all == done + [e] + rest
  {
  }

  lemma OneMore(done: seq<Event>, e: Event)
    ensures Complaints(done + [e]) == Complaints(done) + Complaint(e)
    ensures TotalTook(done + [e]) == TotalTook(done) + e.Took()
  {
    assert (done + [e])[..|done|] == done;
  }

  // --- what unwinding guarantees ---

  lemma {:induction false} TookOfSplit(a: seq<Event>, b: seq<Event>)
    ensures TotalTook(a + b) == TotalTook(a) + TotalTook(b)
  {
    if b == [] {
      assert a + b == a;
    } else {
      assert (a + b)[..|a + b| - 1] == a + b[..|b| - 1];
      TookOfSplit(a, b[..|b| - 1]);
    }
  }

  lemma TookOfOne(e: Event, rest: seq<Event>)
    ensures TotalTook([e] + rest) == e.Took() + TotalTook(rest)
  {
    TookOfSplit([e], rest);
    assert [e][..0] == [];
  }

  /**
   The k-th thing unwinding does is about the k-th component from the end: a Stop with all that is left of the grace
   period, or, exactly when nothing is left, a report that it never got the chance.
   */
  lemma {:induction false} UnwoundAt(cs: seq<Component>, elapsed: nat, grace: nat, k: nat)
    requires k < |cs|
    ensures var events := Unwound(cs, elapsed, grace);
      && |events| == |cs| && events[k].Unwinds() && events[k].c == |cs| - 1 - k
      && var gone := elapsed + TotalTook(events[..k]);
         && (events[k].Skipped? <==> grace <= gone)
         && (events[k].Stopped? ==>
               events[k].budget == grace - gone && events[k].outcome == cs[events[k].c].stop(grace - gone))
  {
    var n := |cs| - 1;
    var events := Unwound(cs, elapsed, grace);
    var gone := elapsed + events[0].Took();
    var rest := Unwound(cs[..n], gone, grace);
    assert events == [events[0]] + rest;
    if n > 0 {
      UnwoundAt(cs[..n], gone, grace, if k > 0 then k - 1 else 0);
    }
    if k > 0 {
      assert events[..k] == [events[0]] + rest[..k - 1];
      TookOfOne(events[0], rest[..k - 1]);
    }
  }

  lemma {:induction false} UnwoundLength(cs: seq<Component>, elapsed: nat, grace: nat)
    ensures |Unwound(cs, elapsed, grace)| == |cs|
  {
    if cs != [] {
      UnwoundAt(cs, elapsed, grace, 0);
    }
  }

  /** Every component started is stopped or reported once, none that did not start is, and dependents go first. */
  lemma StoppedOnceInReverse(cs: seq<Component>, grace: nat, c: nat)
    requires c < |cs|
    ensures var n := Starting(cs);
      var events := Unwound(cs[..n], 0, grace);
      && n <= |cs|
      && (c < n ==> n - 1 - c < |events| && events[n - 1 - c].c == c)
      && forall j, k | 0 <= j < k < |events| :: events[k].c < events[j].c < n
  {
    StartingBounds(cs);
    var n := Starting(cs);
    var events := Unwound(cs[..n], 0, grace);
    UnwoundLength(cs[..n], 0, grace);
    forall k | 0 <= k < n ensures events[k].c == n - 1 - k {
      UnwoundAt(cs[..n], 0, grace, k);
    }
  }

  lemma {:induction false} StartingBounds(cs: seq<Component>)
    ensures Starting(cs) <= |cs|
    ensures forall i :: 0 <= i < Starting(cs) ==> cs[i].starts
    ensures Starting(cs) < |cs| ==> !cs[Starting(cs)].starts
  {
    if cs != [] {
      StartingBounds(cs[1..]);
      forall i | 0 < i < Starting(cs) ensures cs[i].starts {
        assert cs[i] == cs[1..][i - 1];
      }
    }
  }

  lemma {:induction false} NoComplaintsIff(events: seq<Event>)
    requires forall k :: 0 <= k < |events| ==> events[k].Unwinds()
    ensures Complaints(events) == [] <==> forall k :: 0 <= k < |events| ==> events[k].StoppedClean()
  {
    if events != [] {
      var init, last := events[..|events| - 1], events[|events| - 1];
      NoComplaintsIff(init);
      assert Complaint(last) == [] <==> last.StoppedClean();
      assert events == init + [last];
      forall k | 0 <= k < |init| ensures init[k] == events[k] {
      }
    }
  }

  /** Shutdown returns nil exactly when every component was stopped, and without error. */
  lemma ShutdownNilIff(cs: seq<Component>, grace: nat)
    ensures Complaints(Unwound(cs, 0, grace)) == []
       <==> forall k :: 0 <= k < |Unwound(cs, 0, grace)| ==> Unwound(cs, 0, grace)[k].StoppedClean()
  {
    UnwoundLength(cs, 0, grace);
    forall k | 0 <= k < |cs| ensures Unwound(cs, 0, grace)[k].Unwinds() {
      UnwoundAt(cs, 0, grace, k);
    }
    NoComplaintsIff(Unwound(cs, 0, grace));
  }

  /** A Stop that overran and one never made are shutdown timeouts of the component, one that failed is its error. */
  ghost predicate Tells(e: Event, error: Error) {
    match error
    case ShutdownTimeout(c) => e.c == c && (e.Skipped? || (e.Stopped? && e.outcome.result == Overran))
    case CannotStop(c) => e.c == c && e.Stopped? && e.outcome.result == Failed
    case _ => false
  }

  ghost predicate Told(events: seq<Event>, error: Error) {
    exists k :: 0 <= k < |events| && Tells(events[k], error)
  }

  lemma ToldOneMore(events: seq<Event>, e: Event, error: Error)
    ensures Told(events + [e], error) <==> Told(events, error) || Tells(e, error)
  {
    var all := events + [e];
    assert all[|events|] == e && forall k :: 0 <= k < |events| ==> all[k] == events[k];
  }

  /** What is complained about is exactly what the unwinding tells. */
  lemma {:induction false} ComplaintsAre(events: seq<Event>, error: Error)
    requires forall k :: 0 <= k < |events| ==> events[k].Unwinds()
    ensures error in Complaints(events) <==> Told(events, error)
  {
    if events != [] {
      var init, last := events[..|events| - 1], events[|events| - 1];
      ComplaintsAre(init, error);
      assert events == init + [last];
      ToldOneMore(init, last, error);
    }
  }

  /** Each about a component registered at `low` or later, once at most, and dependents first. */
  ghost predicate InOrder(errs: seq<Error>, low: nat) {
    && (forall k :: 0 <= k < |errs| ==> !errs[k].Cause? && low <= errs[k].c)
    && forall j, k :: 0 <= j < k < |errs| ==> errs[k].c < errs[j].c
  }

  lemma {:induction false} ComplaintsInOrder(events: seq<Event>, low: nat)
    requires forall k :: 0 <= k < |events| ==> events[k].Unwinds() && low <= events[k].c
    requires forall j, k :: 0 <= j < k < |events| ==> events[k].c < events[j].c
    ensures InOrder(Complaints(events), low)
  {
    if events != [] {
      var n := |events| - 1;
      ComplaintsInOrder(events[..n], events[n].c + 1);
    }
  }

  /** Every run starts components up to the first failure, and then unwinds those it started, last one first. */
  lemma RunDoes(cs: seq<Component>, grace: nat, n: nat)
    requires n <= |cs| && (forall i :: 0 <= i < n ==> cs[i].starts) && (n < |cs| ==> !cs[n].starts)
    ensures var trace, up := RunTrace(cs, grace), if n < |cs| then n + 1 else n;
      && |trace| == up + n
      && (forall i :: 0 <= i < n ==> trace[i] == Started(i))
      && (n < |cs| ==> trace[n] == StartFailed(n))
      && trace[up..] == Unwound(cs[..n], 0, grace)
    ensures forall k :: 0 <= k < n ==>
      Unwound(cs[..n], 0, grace)[k].Unwinds() && Unwound(cs[..n], 0, grace)[k].c == n - 1 - k
  {
    StartingIs(cs, n);
    UnwoundLength(cs[..n], 0, grace);
    forall k | 0 <= k < n
      ensures Unwound(cs[..n], 0, grace)[k].Unwinds() && Unwound(cs[..n], 0, grace)[k].c == n - 1 - k
    {
      UnwoundAt(cs[..n], 0, grace, k);
    }
  }

  /**
   What Run returns: first the failed start, or else what ended the wait, if it was an error; then what went wrong in
   unwinding the components that had started, all of it, dependents first.
   */
  lemma RunReports(cs: seq<Component>, grace: nat, cause: Option<Error>, n: nat) returns (later: seq<Error>)
    requires n <= |cs| && (forall i :: 0 <= i < n ==> cs[i].starts) && (n < |cs| ==> !cs[n].starts)
    ensures RunErrors(cs, grace, cause)
         == (if n < |cs| then [CannotStart(n)] else if cause.Some? then [cause.value] else []) + later
    ensures forall error :: error in later <==> Told(Unwound(cs[..n], 0, grace), error)
    ensures InOrder(later, 0)
  {
    StartingIs(cs, n);
    RunDoes(cs, grace, n);
    UnwoundLength(cs[..n], 0, grace);
    var events := Unwound(cs[..n], 0, grace);
    later := Complaints(events);
    forall error ensures error in later <==> Told(events, error) {
      ComplaintsAre(events, error);
    }
    ComplaintsInOrder(events, 0);
  }

  lemma {:induction false} StartingIs(cs: seq<Component>, n: nat)
    requires n <= |cs| && (forall i :: 0 <= i < n ==> cs[i].starts) && (n < |cs| ==> !cs[n].starts)
    ensures Starting(cs) == n
  {
    if n > 0 {
      StartingIs(cs[1..], n - 1);
    }
  }

  /** A Stop that was made and took no longer than the budget it was given. */
  predicate OnTime(e: Event) {
    e.Stopped? ==> e.outcome.took <= e.budget
  }

  /**
   Unwinding fits in what is left of the grace period exactly when each Stop that was made kept to its own budget.
   */
  lemma {:induction false} WithinGraceIff(cs: seq<Component>, elapsed: nat, grace: nat)
    requires elapsed <= grace
    ensures var events := Unwound(cs, elapsed, grace);
      (elapsed + TotalTook(events) <= grace)
      <==> (forall k :: 0 <= k < |events| ==> OnTime(events[k]))
  {
    if cs != [] {
      var n := |cs| - 1;
      var e := NextEvent(cs, |cs|, elapsed, grace);
      var rest := Unwound(cs[..n], elapsed + e.Took(), grace);
      assert cs[..|cs|] == cs;
      UnwindNext(cs, |cs|, elapsed, grace);
      TookOfOne(e, rest);
      if elapsed + e.Took() <= grace {
        WithinGraceIff(cs[..n], elapsed + e.Took(), grace);
        AllOfOne(e, rest);
      } else {
        assert !OnTime(([e] + rest)[0]);
      }
    }
  }

  lemma AllOfOne(e: Event, rest: seq<Event>)
    ensures (forall k :: 0 <= k < |[e] + rest| ==> OnTime(([e] + rest)[k]))
       <==> OnTime(e) && (forall k :: 0 <= k < |rest| ==> OnTime(rest[k]))
  {
    var all := [e] + rest;
    assert all[0] == e && forall k :: 0 <= k < |rest| ==> all[k + 1] == rest[k];
    assert forall k :: 0 < k < |all| ==> all[k] == rest[k - 1];
  }

  /** Components that honour every deadline stop within the grace period together. */
  lemma HonouredDeadlinesFit(cs: seq<Component>, grace: nat)
    requires forall i, budget :: 0 <= i < |cs| && 0 < budget ==> cs[i].stop(budget).took <= budget
    ensures TotalTook(Unwound(cs, 0, grace)) <= grace
  {
    UnwoundLength(cs, 0, grace);
    var events := Unwound(cs, 0, grace);
    forall k | 0 <= k < |events| ensures OnTime(events[k]) {
      UnwoundAt(cs, 0, grace, k);
    }
    WithinGraceIff(cs, 0, grace);
  }

  /** Once one component has missed its chance, so do all it depends on: the ones registered before it. */
  lemma SkippedFromThereOn(cs: seq<Component>, grace: nat, j: nat, k: nat)
    requires j <= k < |cs| == |Unwound(cs, 0, grace)| && Unwound(cs, 0, grace)[j].Skipped?
    ensures Unwound(cs, 0, grace)[k].Skipped?
  {
    UnwoundAt(cs, 0, grace, j);
    UnwoundAt(cs, 0, grace, k);
    var events := Unwound(cs, 0, grace);
    TookOfSplit(events[..j], events[j..k]);
    assert events[..k] == events[..j] + events[j..k];
  }
}
