/** Ordering a process-tree kill from one snapshot of the process table (agent/internal/coding/process_windows.go). */
module ProcessTree {
  import opened Prelude

  type Pid = nat

  /** One process of the snapshot. */
  datatype Entry = Entry(parent: Pid, pid: Pid)

  const CAP := 512

  // --- the snapshot as a graph ---

  predicate Edge(entries: seq<Entry>, p: Pid, x: Pid) {
    exists i :: 0 <= i < |entries| && entries[i] == Entry(p, x)
  }

  /** `x` is `k` generations below `root`. */
  ghost predicate At(entries: seq<Entry>, root: Pid, x: Pid, k: nat)
    decreases k
  {
    if k == 0 then x == root
    else exists p :: Edge(entries, p, x) && At(entries, root, p, k - 1)
  }

  ghost predicate Below(entries: seq<Entry>, root: Pid, x: Pid) {
    exists k: nat :: k >= 1 && At(entries, root, x, k)
  }

  ghost predicate Reached(entries: seq<Entry>, root: Pid, x: Pid) {
    x == root || Below(entries, root, x)
  }

  /** No process reached from the root is listed twice, and the root is not below itself. */
  ghost predicate TreeBelow(entries: seq<Entry>, root: Pid) {
    && !Below(entries, root, root)
    && forall i, j | 0 <= i < j < |entries|
          && Reached(entries, root, entries[i].parent) && Reached(entries, root, entries[j].parent) ::
          entries[i].pid != entries[j].pid
  }

  lemma EdgeExtends(entries: seq<Entry>, root: Pid, p: Pid, x: Pid)
    requires Reached(entries, root, p) && Edge(entries, p, x)
    ensures Below(entries, root, x)
  {
    if p == root {
      assert At(entries, root, p, 0);
      assert At(entries, root, x, 1);
    } else {
      var k: nat :| k >= 1 && At(entries, root, p, k);
      assert At(entries, root, x, k + 1);
    }
  }

  // --- children in snapshot order ---

  /** Where in the snapshot `p`'s children are. */
  function ChildIndices(entries: seq<Entry>, p: Pid): (r: seq<nat>)
    ensures forall k :: 0 <= k < |r| ==> r[k] < |entries| && entries[r[k]].parent == p
    ensures forall j, k :: 0 <= j < k < |r| ==> r[j] < r[k]
  {
    if entries == [] then []
    else
      var n := |entries| - 1;
      var rest := ChildIndices(entries[..n], p);
      if entries[n].parent == p then rest + [n] else rest
  }

  function Children(entries: seq<Entry>, p: Pid): (r: seq<Pid>)
    ensures |r| == |ChildIndices(entries, p)|
  {
    var at := ChildIndices(entries, p);
    seq(|at|, k requires 0 <= k < |at| => entries[at[k]].pid)
  }

  lemma ChildrenStep(entries: seq<Entry>, i: nat, p: Pid)
    requires i < |entries|
    ensures Children(entries[..i + 1], p)
         == if entries[i].parent == p then Children(entries[..i], p) + [entries[i].pid] else Children(entries[..i], p)
  {
    assert entries[..i + 1][..i] == entries[..i];
  }

  lemma {:induction false} ChildIndicesComplete(entries: seq<Entry>, i: nat)
    requires i < |entries|
    ensures i in ChildIndices(entries, entries[i].parent)
  {
    var n := |entries| - 1;
    if i < n {
      ChildIndicesComplete(entries[..n], i);
    }
  }

  lemma ChildrenAreEdges(entries: seq<Entry>, p: Pid, x: Pid)
    ensures x in Children(entries, p) <==> Edge(entries, p, x)
  {
    var at := ChildIndices(entries, p);
    if Edge(entries, p, x) {
      var i :| 0 <= i < |entries| && entries[i] == Entry(p, x);
      ChildIndicesComplete(entries, i);
      var k :| 0 <= k < |at| && at[k] == i;
      assert Children(entries, p)[k] == x;
    }
    if x in Children(entries, p) {
      var k :| 0 <= k < |at| && Children(entries, p)[k] == x;
      assert entries[at[k]] == Entry(p, x);
    }
  }

  function Lookup(children: map<Pid, seq<Pid>>, p: Pid): seq<Pid> {
    if p in children then children[p] else []
  }

  ghost predicate Indexes(children: map<Pid, seq<Pid>>, entries: seq<Entry>) {
    forall p :: Lookup(children, p) == Children(entries, p)
  }

  lemma IndexesStep(children: map<Pid, seq<Pid>>, entries: seq<Entry>, i: nat)
    requires i < |entries| && Indexes(children, entries[..i])
    ensures var e := entries[i];
      Indexes(children[e.parent := Lookup(children, e.parent) + [e.pid]], entries[..i + 1])
  {
    var e := entries[i];
    var children' := children[e.parent := Lookup(children, e.parent) + [e.pid]];
    forall p ensures Lookup(children', p) == Children(entries[..i + 1], p) {
      ChildrenStep(entries, i, p);
      assert Lookup(children, p) == Children(entries[..i], p);
      assert p != e.parent ==> Lookup(children', p) == Lookup(children, p);
    }
  }

  method BuildChildren(entries: seq<Entry>) returns (children: map<Pid, seq<Pid>>)
    ensures Indexes(children, entries)
  {
    children := map[];
    for i := 0 to |entries|
      invariant Indexes(children, entries[..i])
    {
      IndexesStep(children, entries, i);
      children := children[entries[i].parent := Lookup(children, entries[i].parent) + [entries[i].pid]];
    }
    assert entries[..|entries|] == entries;
  }

  // --- the walk ---

  /**
   How the walk's list came about. `done` are the nodes dequeued; entry `k` of `out` is snapshot entry `from[k]`, a
   child of the node at place `owner[k]` of the root followed by `out`.
   */
  ghost predicate Walked(entries: seq<Entry>, root: Pid, out: seq<Pid>, queue: seq<Pid>, done: seq<Pid>,
                         from: seq<nat>, owner: seq<nat>)
  {
    && [root] + out == done + queue
    && |from| == |owner| == |out|
    && (forall k :: 0 <= k < |out| ==> Placed(entries, root, out, |done|, from, owner, k))
    && (forall i :: 0 <= i < |([root] + out)| ==> Reached(entries, root, ([root] + out)[i]))
    && (forall i :: 0 <= i < |done| ==> forall x :: Edge(entries, done[i], x) ==> x in out)
    && (TreeBelow(entries, root) ==> Unrepeated(from))
  }

  ghost predicate Placed(entries: seq<Entry>, root: Pid, out: seq<Pid>, dequeued: nat,
                         from: seq<nat>, owner: seq<nat>, k: nat)
    requires k < |out| == |from| == |owner|
  {
    && from[k] < |entries| && entries[from[k]].pid == out[k]
    && owner[k] <= k && owner[k] < dequeued && entries[from[k]].parent == ([root] + out)[owner[k]]
  }

  ghost predicate Unrepeated(s: seq<nat>) {
    forall j, k :: 0 <= j < k < |s| ==> s[j] != s[k]
  }

  /** In a tree distinct snapshot entries are distinct processes, and none of them is the root. */
  lemma ListsEachOnce(entries: seq<Entry>, root: Pid, out: seq<Pid>, queue: seq<Pid>, done: seq<Pid>,
                      from: seq<nat>, owner: seq<nat>)
    requires Walked(entries, root, out, queue, done, from, owner) && TreeBelow(entries, root)
    ensures Unrepeated([root] + out)
  {
    var all := [root] + out;
    forall k | 0 <= k < |out|
      ensures from[k] < |entries| && entries[from[k]].pid == out[k]
      ensures Reached(entries, root, entries[from[k]].parent) && out[k] != root
    {
      assert Placed(entries, root, out, |done|, from, owner, k);
      assert Reached(entries, root, all[owner[k]]);
      assert entries[from[k]] == Entry(all[owner[k]], out[k]);
      EdgeExtends(entries, root, all[owner[k]], out[k]);
    }
    forall j, k | 0 <= j < k < |out| ensures out[j] != out[k] {
      assert from[j] != from[k];
    }
  }

  lemma WalkStepPlaces(entries: seq<Entry>, root: Pid, out: seq<Pid>, queue: seq<Pid>, done: seq<Pid>,
                       from: seq<nat>, owner: seq<nat>, k: nat)
    requires Walked(entries, root, out, queue, done, from, owner) && queue != []
    requires k < |out| + |Children(entries, queue[0])|
    ensures var kids, at := Children(entries, queue[0]), ChildIndices(entries, queue[0]);
      Placed(entries, root, out + kids, |done| + 1, from + at, owner + seq(|kids|, _ => |done|), k)
  {
    var all := [root] + out;
    var kids, at := Children(entries, queue[0]), ChildIndices(entries, queue[0]);
    var all' := [root] + (out + kids);
    assert all' == all + kids;
    assert all[|done|] == queue[0];
    if k < |out| {
      assert Placed(entries, root, out, |done|, from, owner, k);
      assert all'[owner[k]] == all[owner[k]];
    } else {
      assert all'[|done|] == queue[0];
    }
  }

  lemma WalkStepReached(entries: seq<Entry>, root: Pid, out: seq<Pid>, queue: seq<Pid>, done: seq<Pid>,
                        from: seq<nat>, owner: seq<nat>)
    requires Walked(entries, root, out, queue, done, from, owner) && queue != []
    ensures var all' := [root] + (out + Children(entries, queue[0]));
      forall i :: 0 <= i < |all'| ==> Reached(entries, root, all'[i])
    ensures var done' := done + [queue[0]];
      forall i :: 0 <= i < |done'| ==> forall x :: Edge(entries, done'[i], x) ==> x in out + Children(entries, queue[0])
  {
    var kids := Children(entries, queue[0]);
    var all, all' := [root] + out, [root] + (out + kids);
    assert all[|done|] == queue[0];
    assert Reached(entries, root, queue[0]);
    forall i | 0 <= i < |all'| ensures Reached(entries, root, all'[i]) {
      if i < |all| {
        assert all'[i] == all[i];
      } else {
        assert all'[i] == kids[i - |all|];
        ChildrenAreEdges(entries, queue[0], all'[i]);
        EdgeExtends(entries, root, queue[0], all'[i]);
      }
    }
    forall x | Edge(entries, queue[0], x) ensures x in out + kids {
      ChildrenAreEdges(entries, queue[0], x);
    }
  }

  lemma WalkStepUnrepeated(entries: seq<Entry>, root: Pid, out: seq<Pid>, queue: seq<Pid>, done: seq<Pid>,
                           from: seq<nat>, owner: seq<nat>)
    requires Walked(entries, root, out, queue, done, from, owner) && queue != [] && TreeBelow(entries, root)
    ensures Unrepeated(from + ChildIndices(entries, queue[0]))
  {
    ListsEachOnce(entries, root, out, queue, done, from, owner);
    var all, at := [root] + out, ChildIndices(entries, queue[0]);
    assert all[|done|] == queue[0];
    forall j, k | 0 <= j < |from| && 0 <= k < |at| ensures from[j] != at[k] {
      assert Placed(entries, root, out, |done|, from, owner, j);
      assert all[owner[j]] != all[|done|];
    }
  }

  lemma Regroup(root: seq<Pid>, out: seq<Pid>, done: seq<Pid>, queue: seq<Pid>, kids: seq<Pid>)
    requires root + out == done + queue && queue != []
    ensures root + (out + kids) == (done + [queue[0]]) + (queue[1..] + kids)
  {
    assert queue == [queue[0]] + queue[1..];
    assert root + (out + kids) == (root + out) + kids;
    assert (done + [queue[0]]) + (queue[1..] + kids) == (done + ([queue[0]] + queue[1..])) + kids;
  }

  lemma WalkStep(entries: seq<Entry>, root: Pid, out: seq<Pid>, queue: seq<Pid>, done: seq<Pid>,
                 from: seq<nat>, owner: seq<nat>)
    requires Walked(entries, root, out, queue, done, from, owner) && queue != []
    ensures var kids := Children(entries, queue[0]);
      Walked(entries, root, out + kids, queue[1..] + kids, done + [queue[0]],
             from + ChildIndices(entries, queue[0]), owner + seq(|kids|, _ => |done|))
  {
    var kids, at := Children(entries, queue[0]), ChildIndices(entries, queue[0]);
    var out', from', owner' := out + kids, from + at, owner + seq(|kids|, _ => |done|);
    var dequeued := |done| + 1;
    forall k | 0 <= k < |out'| ensures Placed(entries, root, out', dequeued, from', owner', k) {
      WalkStepPlaces(entries, root, out, queue, done, from, owner, k);
    }
    assert [root] + out' == (done + [queue[0]]) + (queue[1..] + kids) by {
      Regroup([root], out, done, queue, kids);
    }
    WalkStepReached(entries, root, out, queue, done, from, owner);
    if TreeBelow(entries, root) {
      WalkStepUnrepeated(entries, root, out, queue, done, from, owner);
    }
  }

  /** The walk so far, its history left unnamed. */
  ghost predicate Walking(entries: seq<Entry>, root: Pid, out: seq<Pid>, queue: seq<Pid>) {
    exists done, from, owner :: Walked(entries, root, out, queue, done, from, owner)
  }

  lemma WalkStarts(entries: seq<Entry>, root: Pid)
    ensures Walking(entries, root, [], [root])
  {
    assert Walked(entries, root, [], [root], [], [], []);
  }

  lemma WalkGoesOn(entries: seq<Entry>, root: Pid, out: seq<Pid>, queue: seq<Pid>)
    requires Walking(entries, root, out, queue) && queue != []
    ensures var kids := Children(entries, queue[0]); Walking(entries, root, out + kids, queue[1..] + kids)
  {
    var done, from, owner :| Walked(entries, root, out, queue, done, from, owner);
    WalkStep(entries, root, out, queue, done, from, owner);
  }

  /** A walk whose queue ran dry has listed everything below the root. */
  lemma {:induction false} DryQueueIsComplete(entries: seq<Entry>, root: Pid, out: seq<Pid>, done: seq<Pid>,
                                              from: seq<nat>, owner: seq<nat>, x: Pid, k: nat)
    requires Walked(entries, root, out, [], done, from, owner) && At(entries, root, x, k)
    ensures x in [root] + out && (k >= 1 ==> x in out)
    decreases k
  {
    if k > 0 {
      var p :| Edge(entries, p, x) && At(entries, root, p, k - 1);
      DryQueueIsComplete(entries, root, out, done, from, owner, p, k - 1);
      assert done == [root] + out;
      var i :| 0 <= i < |done| && done[i] == p;
    }
  }

  // --- what the listing promises ---

  /** Each entry's parent is the root or listed before it. */
  ghost predicate ParentsFirst(entries: seq<Entry>, root: Pid, out: seq<Pid>) {
    forall k :: 0 <= k < |out| ==> AfterParent(entries, root, out, k)
  }

  ghost predicate AfterParent(entries: seq<Entry>, root: Pid, out: seq<Pid>, k: nat)
    requires k < |out|
  {
    exists j :: 0 <= j <= k && Edge(entries, ([root] + out)[j], out[k])
  }

  /** What DescendantPids guarantees of its result. */
  ghost predicate Listing(entries: seq<Entry>, root: Pid, out: seq<Pid>) {
    && (forall x :: x in out ==> Below(entries, root, x))
    && (|out| < CAP ==> forall x :: Below(entries, root, x) ==> x in out)
    && ParentsFirst(entries, root, out)
    && (TreeBelow(entries, root) ==> Unrepeated([root] + out))
  }

  lemma WalkedIsBelow(entries: seq<Entry>, root: Pid, out: seq<Pid>, queue: seq<Pid>, done: seq<Pid>,
                      from: seq<nat>, owner: seq<nat>, k: nat)
    requires Walked(entries, root, out, queue, done, from, owner) && k < |out|
    ensures Below(entries, root, out[k]) && AfterParent(entries, root, out, k)
  {
    var all := [root] + out;
    assert Placed(entries, root, out, |done|, from, owner, k);
    assert entries[from[k]] == Entry(all[owner[k]], out[k]);
    assert Edge(entries, all[owner[k]], out[k]);
    assert Reached(entries, root, all[owner[k]]);
    EdgeExtends(entries, root, all[owner[k]], out[k]);
  }

  lemma WalkIsListing(entries: seq<Entry>, root: Pid, out: seq<Pid>, queue: seq<Pid>)
    requires Walking(entries, root, out, queue) && (queue == [] || |out| >= CAP)
    ensures Listing(entries, root, out)
  {
    var done, from, owner :| Walked(entries, root, out, queue, done, from, owner);
    forall k | 0 <= k < |out|
      ensures Below(entries, root, out[k]) && AfterParent(entries, root, out, k)
    {
      WalkedIsBelow(entries, root, out, queue, done, from, owner, k);
    }
    if |out| < CAP {
      forall x | Below(entries, root, x) ensures x in out {
        var k: nat :| k >= 1 && At(entries, root, x, k);
        DryQueueIsComplete(entries, root, out, done, from, owner, x, k);
      }
    }
    if TreeBelow(entries, root) {
      ListsEachOnce(entries, root, out, queue, done, from, owner);
    }
  }

  /** The inner loop: the children join the listing and the queue. */
  method AppendChildren(out: seq<Pid>, queue: seq<Pid>, kids: seq<Pid>) returns (out': seq<Pid>, queue': seq<Pid>)
    ensures out' == out + kids && queue' == queue + kids
  {
    out', queue' := out, queue;
    for i := 0 to |kids|
      invariant out' == out + kids[..i] && queue' == queue + kids[..i]
    {
      out' := out' + [kids[i]];
      queue' := queue' + [kids[i]];
    }
  }

  /**
   Whatever the snapshot, cycles included, the listing ends, and holds only descendants. Short of the cap it holds all
   of them. When the part below the root is a tree, each process is listed once, after its parent.
   */
  method DescendantPids(snapshot: Option<seq<Entry>>, root: Pid) returns (out: seq<Pid>)
    ensures snapshot.None? ==> out == []
    ensures snapshot.Some? ==> Listing(snapshot.value, root, out)
  {
    if snapshot.None? {
      return [];
    }
    var entries := snapshot.value;
    var children := BuildChildren(entries);
    out := [];
    var queue := [root];
    WalkStarts(entries, root);
    while |queue| > 0 && |out| < CAP
      invariant Walking(entries, root, out, queue)
      decreases if |out| < CAP then CAP - |out| else 0, |queue|
    {
      WalkGoesOn(entries, root, out, queue);
      var kids := Lookup(children, queue[0]);
      out, queue := AppendChildren(out, queue[1..], kids);
    }
    WalkIsListing(entries, root, out, queue);
  }

  ghost function Elements(s: seq<nat>): set<nat> {
    set x | x in s
  }

  lemma {:induction false} UnrepeatedSize(s: seq<nat>)
    requires Unrepeated(s)
    ensures |Elements(s)| == |s|
  {
    if s != [] {
      var n := |s| - 1;
      var init := s[..n];
      UnrepeatedSize(init);
      assert s == init + [s[n]];
      assert s[n] !in init by {
        forall j | 0 <= j < n ensures init[j] != s[n] {
          assert init[j] == s[j];
        }
      }
      assert Elements(s) == Elements(init) + {s[n]};
    }
  }

  lemma FillsTheSet(s: seq<nat>, all: set<nat>)
    requires Unrepeated(s) && (forall x :: x in s ==> x in all) && |all| <= |s|
    ensures forall x :: x in all ==> x in s
  {
    UnrepeatedSize(s);
    var rest := all - Elements(s);
    assert all == Elements(s) + rest;
    assert |all| == |Elements(s)| + |rest|;
  }

  /** A tree of at most 512 descendants is always listed in full, even when the walk stops at the cap. */
  lemma CompleteUpToCap(entries: seq<Entry>, root: Pid, out: seq<Pid>, below: set<Pid>)
    requires Listing(entries, root, out) && TreeBelow(entries, root)
    requires forall x :: x in below <==> Below(entries, root, x)
    requires |below| <= CAP
    ensures forall x :: x in below ==> x in out
  {
    if |out| >= CAP {
      assert ([root] + out)[1..] == out;
      TailUnrepeated([root] + out);
      FillsTheSet(out, below);
    }
  }

  lemma TailUnrepeated(s: seq<nat>)
    requires Unrepeated(s) && s != []
    ensures Unrepeated(s[1..])
  {
  }

  lemma {:induction false} ReverseAppend(s: seq<Pid>, t: seq<Pid>)
    ensures Reverse(s + t) == Reverse(t) + Reverse(s)
  {
    if s == [] {
      assert s + t == t;
    } else {
      assert (s + t)[1..] == s[1..] + t;
      ReverseAppend(s[1..], t);
    }
  }

  lemma {:induction false} ReverseTwice(s: seq<Pid>)
    ensures Reverse(Reverse(s)) == s
  {
    if s != [] {
      ReverseTwice(s[1..]);
      ReverseAppend(Reverse(s[1..]), [s[0]]);
      assert Reverse([s[0]]) == [s[0]];
    }
  }

  /** The processes killed before the last one, from the last to the first. */
  function KilledBefore(killed: seq<Pid>): seq<Pid>
    requires killed != []
  {
    Reverse(killed[..|killed| - 1])
  }

  /** The forced kill: the listing from its end, then the process itself. */
  method KillProcessGroup(snapshot: Option<seq<Entry>>, pid: Pid) returns (killed: seq<Pid>)
    ensures killed != [] && killed[|killed| - 1] == pid
    ensures snapshot.None? ==> killed == [pid]
    ensures snapshot.Some? ==> Listing(snapshot.value, pid, KilledBefore(killed))
  {
    var pids := DescendantPids(snapshot, pid);
    killed := [];
    for i := |pids| downto 0
      invariant killed == Reverse(pids[i..])
    {
      assert pids[i..][1..] == pids[i + 1..];
      killed := killed + [pids[i]];
    }
    assert pids[0..] == pids;
    ReverseTwice(pids);
    ghost var before := killed;
    killed := killed + [pid];
    assert killed[..|killed| - 1] == before;
  }

  lemma ListedAfterParent(entries: seq<Entry>, root: Pid, listed: seq<Pid>, i: nat, j: nat)
    requires Listing(entries, root, listed) && TreeBelow(entries, root)
    requires i <= |listed| && j <= |listed| && Edge(entries, ([root] + listed)[i], ([root] + listed)[j])
    ensures i < j
  {
    var all := [root] + listed;
    forall k | 0 <= k <= |listed| ensures Reached(entries, root, all[k]) {
      assert k > 0 ==> all[k] in listed;
    }
    EdgeExtends(entries, root, all[i], all[j]);
    assert all[j] != root;
    assert AfterParent(entries, root, listed, j - 1);
    var k :| 0 <= k <= j - 1 && Edge(entries, all[k], listed[j - 1]);
    OneParent(entries, root, all[k], all[i], all[j]);
    assert i == k;
  }

  /** In a tree every process is killed before its parent, the root last. */
  lemma KillsChildrenFirst(entries: seq<Entry>, root: Pid, killed: seq<Pid>, a: nat, b: nat)
    requires killed != [] && killed[|killed| - 1] == root
    requires Listing(entries, root, KilledBefore(killed)) && TreeBelow(entries, root)
    requires a < |killed| && b < |killed| && Edge(entries, killed[a], killed[b])
    ensures b < a
  {
    var listed := KilledBefore(killed);
    ReverseTwice(killed[..|killed| - 1]);
    assert killed == Reverse(listed) + [root];
    KilledAt(root, listed, killed, a);
    KilledAt(root, listed, killed, b);
    ListedAfterParent(entries, root, listed, |listed| - a, |listed| - b);
  }

  lemma KilledAt(root: Pid, listed: seq<Pid>, killed: seq<Pid>, a: nat)
    requires killed == Reverse(listed) + [root] && a < |killed|
    ensures killed[a] == ([root] + listed)[|listed| - a]
  {
    if a < |listed| {
      ReverseAt(listed, a);
    }
    MirrorAt(root, listed, Reverse(listed), a);
  }

  lemma MirrorAt(root: Pid, listed: seq<Pid>, mirror: seq<Pid>, a: nat)
    requires |mirror| == |listed| && a <= |listed|
    requires a < |listed| ==> mirror[a] == listed[|listed| - 1 - a]
    ensures (mirror + [root])[a] == ([root] + listed)[|listed| - a]
  {
  }

  lemma OneParent(entries: seq<Entry>, root: Pid, p: Pid, q: Pid, x: Pid)
    requires TreeBelow(entries, root) && Reached(entries, root, p) && Reached(entries, root, q)
    requires Edge(entries, p, x) && Edge(entries, q, x)
    ensures p == q
  {
    var i :| 0 <= i < |entries| && entries[i] == Entry(p, x);
    var j :| 0 <= j < |entries| && entries[j] == Entry(q, x);
    if i < j {
      assert entries[i].pid == entries[j].pid;
    } else if j < i {
      assert entries[j].pid == entries[i].pid;
    }
  }
}
