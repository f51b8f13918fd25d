/** Terminating a process and everything started from it
    (core/process/terminate_windows.go). */
module ProcessTree {
  import opened Runs

  type Pid = nat

  /** One record of the system's process snapshot. */
  datatype Entry = Entry(pid: Pid, parent: Pid)

  /** What the snapshot calls give: an unreadable snapshot, or its records and whether the
      enumeration ended properly. */
  datatype Snapshot = Unavailable | Snapshot(entries: seq<Entry>, complete: bool)

  predicate Readable(snapshot: Snapshot) {
    snapshot.Snapshot? && snapshot.entries != [] && snapshot.complete
  }

  // ---- the graph, independent of the algorithm --------------------------------------------

  predicate Edge(entries: seq<Entry>, a: Pid, b: Pid) {
    Entry(b, a) in entries
  }

  /** `p` follows parent-to-child records all along. */
  ghost predicate Path(entries: seq<Entry>, p: seq<Pid>) {
    && p != []
    && forall i :: 0 < i < |p| ==> Edge(entries, p[i - 1], p[i])
  }

  ghost predicate PathTo(entries: seq<Entry>, root: Pid, x: Pid, p: seq<Pid>) {
    Path(entries, p) && p[0] == root && p[|p| - 1] == x
  }

  ghost predicate Reachable(entries: seq<Entry>, root: Pid, x: Pid) {
    exists p :: PathTo(entries, root, x, p)
  }

  predicate Distinct(xs: seq<Pid>) {
    forall i, j :: 0 <= i < j < |xs| ==> xs[i] != xs[j]
  }

  /** Every element but the first has a parent earlier in the list. */
  ghost predicate ParentEarlier(entries: seq<Entry>, order: seq<Pid>) {
    forall i :: 0 < i < |order| ==> HasParentBefore(entries, order, i)
  }

  ghost predicate HasParentBefore(entries: seq<Entry>, order: seq<Pid>, i: nat)
    requires i < |order|
  {
    exists j :: 0 <= j < i && Edge(entries, order[j], order[i])
  }

  ghost predicate AllReachable(entries: seq<Entry>, order: seq<Pid>) {
    forall x :: x in order ==> Reachable(entries, order[0], x)
  }

  /** What a result of processTree is: root first, the rest are exactly the other reachable
      processes, each once, each after a parent of it. */
  ghost predicate TreeOf(entries: seq<Entry>, root: Pid, tree: seq<Pid>) {
    && Distinct([root] + tree)
    && (forall x :: x in [root] + tree <==> Reachable(entries, root, x))
    && ParentEarlier(entries, [root] + tree)
  }

  lemma ReachableFromSelf(entries: seq<Entry>, root: Pid)
    ensures Reachable(entries, root, root)
  {
    assert PathTo(entries, root, root, [root]);
  }

  lemma ReachableStep(entries: seq<Entry>, root: Pid, a: Pid, b: Pid)
    requires Reachable(entries, root, a) && Edge(entries, a, b)
    ensures Reachable(entries, root, b)
  {
    var p :| PathTo(entries, root, a, p);
    var q := p + [b];
    forall i | 0 < i < |q| ensures Edge(entries, q[i - 1], q[i]) {
      assert i < |p| ==> q[i - 1] == p[i - 1] && q[i] == p[i];
    }
    assert PathTo(entries, root, b, q);
  }

  /** A list holding the root and closed under children holds everything reachable. */
  lemma {:induction false} ClosedHoldsPath(entries: seq<Entry>, order: seq<Pid>, p: seq<Pid>)
    requires Path(entries, p) && p[0] in order
    requires forall a, b :: a in order && Edge(entries, a, b) ==> b in order
    ensures p[|p| - 1] in order
  {
    if |p| > 1 {
      var front := p[..|p| - 1];
      assert forall i :: 0 <= i < |front| ==> front[i] == p[i];
      ClosedHoldsPath(entries, order, front);
      assert Edge(entries, p[|p| - 2], p[|p| - 1]);
    }
  }

  lemma ClosedHoldsReachable(entries: seq<Entry>, order: seq<Pid>, root: Pid)
    requires root in order
    requires forall a, b :: a in order && Edge(entries, a, b) ==> b in order
    ensures forall x :: Reachable(entries, root, x) ==> x in order
  {
    forall x | Reachable(entries, root, x) ensures x in order {
      var p :| PathTo(entries, root, x, p);
      ClosedHoldsPath(entries, order, p);
    }
  }

  lemma {:induction false} DistinctFits(xs: seq<Pid>, universe: set<Pid>)
    requires Distinct(xs) && forall x :: x in xs ==> x in universe
    ensures |xs| <= |universe|
  {
    if xs != [] {
      var last := xs[|xs| - 1];
      var front := xs[..|xs| - 1];
      assert forall x :: x in front ==> x in universe - {last};
      DistinctFits(front, universe - {last});
      assert last in xs;
    }
  }

  // ---- the child lists --------------------------------------------------------------------

  function Kids(children: map<Pid, seq<Pid>>, p: Pid): seq<Pid> {
    if p in children then children[p] else []
  }

  ghost predicate ListsEdges(children: map<Pid, seq<Pid>>, entries: seq<Entry>) {
    forall a, b :: b in Kids(children, a) <==> Edge(entries, a, b)
  }

  method CollectChildren(entries: seq<Entry>) returns (children: map<Pid, seq<Pid>>)
    ensures ListsEdges(children, entries)
  {
    children := map[];
    for i := 0 to |entries|
      invariant ListsEdges(children, entries[..i])
    {
      var e := entries[i];
      ghost var before := children;
      children := children[e.parent := Kids(children, e.parent) + [e.pid]];
      assert entries[..i + 1] == entries[..i] + [e];
      forall a, b ensures b in Kids(children, a) <==> Edge(entries[..i + 1], a, b) {
        assert b in Kids(before, a) <==> Edge(entries[..i], a, b);
      }
    }
    assert entries[..|entries|] == entries;
  }

  // ---- the breadth-first walk -------------------------------------------------------------

  /** `order[..done]` have been expanded. */
  ghost predicate Walked(entries: seq<Entry>, order: seq<Pid>, done: nat) {
    && done <= |order|
    && order != []
    && Distinct(order)
    && AllReachable(entries, order)
    && ParentEarlier(entries, order)
    && Expanded(entries, order, done)
  }

  ghost predicate Expanded(entries: seq<Entry>, order: seq<Pid>, done: nat)
    requires done <= |order|
  {
    forall i, b :: 0 <= i < done && Edge(entries, order[i], b) ==> b in order
  }

  lemma Discover(entries: seq<Entry>, order: seq<Pid>, done: nat, at: nat, child: Pid)
    requires Walked(entries, order, done) && at < |order| && Edge(entries, order[at], child) && child !in order
    ensures Walked(entries, order + [child], done)
  {
    var more := order + [child];
    assert order[at] in order;
    ReachableStep(entries, order[0], order[at], child);
    forall x | x in more ensures Reachable(entries, more[0], x) {
      assert x in order || x == child;
    }
    forall i | 0 < i < |more| ensures HasParentBefore(entries, more, i) {
      if i < |order| {
        assert HasParentBefore(entries, order, i);
        var j :| 0 <= j < i && Edge(entries, order[j], order[i]);
        assert Edge(entries, more[j], more[i]);
      } else {
        assert Edge(entries, more[at], more[i]);
      }
    }
    assert Distinct(more);
    forall i, b | 0 <= i < done && Edge(entries, more[i], b) ensures b in more {
      assert b in order;
    }
  }

  /** Expands one process: unseen children go to the end of the order. */
  method Expand(ghost entries: seq<Entry>, kids: seq<Pid>, ghost root: Pid, ghost done: nat,
                tree0: seq<Pid>, queue0: seq<Pid>, seen0: set<Pid>)
    returns (tree: seq<Pid>, queue: seq<Pid>, seen: set<Pid>)
    requires Walked(entries, [root] + tree0, done) && done < 1 + |tree0|
    requires forall b :: b in kids <==> Edge(entries, ([root] + tree0)[done], b)
    requires queue0 == ([root] + tree0)[done + 1..]
    requires forall x :: x in seen0 <==> x in [root] + tree0
    ensures Walked(entries, [root] + tree, done + 1)
    ensures queue == ([root] + tree)[done + 1..]
    ensures forall x :: x in seen <==> x in [root] + tree
  {
    tree, queue, seen := tree0, queue0, seen0;
    ghost var pid := ([root] + tree0)[done];
    for k := 0 to |kids|
      invariant Walked(entries, [root] + tree, done) && done < 1 + |tree| && ([root] + tree)[done] == pid
      invariant queue == ([root] + tree)[done + 1..]
      invariant forall x :: x in seen <==> x in [root] + tree
      invariant forall b :: b in kids[..k] ==> b in seen
    {
      var child := kids[k];
      if child !in seen {
        assert child in kids;
        Discover(entries, [root] + tree, done, done, child);
        assert [root] + tree + [child] == [root] + (tree + [child]);
        seen := seen + {child};
        tree := tree + [child];
        queue := queue + [child];
      }
    }
    forall i, b | 0 <= i < done + 1 && Edge(entries, ([root] + tree)[i], b) ensures b in [root] + tree {
      if i == done {
        assert b in kids[..|kids|];
      }
    }
  }

  /** processTree after the snapshot is read. */
  method Walk(entries: seq<Entry>, root: Pid) returns (tree: seq<Pid>)
    ensures TreeOf(entries, root, tree)
  {
    var children := CollectChildren(entries);
    tree := [];
    var queue, seen := [root], {root};
    ghost var done := 0;
    ghost var universe := {root} + set e | e in entries :: e.pid;
    ReachableFromSelf(entries, root);
    while queue != []
      invariant Walked(entries, [root] + tree, done)
      invariant queue == ([root] + tree)[done..]
      invariant forall x :: x in seen <==> x in [root] + tree
      decreases |universe| - done
    {
      InUniverse(entries, root, tree, universe);
      var pid := queue[0];
      tree, queue, seen := Expand(entries, Kids(children, pid), root, done, tree, queue[1..], seen);
      done := done + 1;
    }
    Finished(entries, root, tree);
  }

  lemma InUniverse(entries: seq<Entry>, root: Pid, tree: seq<Pid>, universe: set<Pid>)
    requires Walked(entries, [root] + tree, 0) && universe == {root} + set e | e in entries :: e.pid
    ensures 1 + |tree| <= |universe|
  {
    var order := [root] + tree;
    forall x | x in order ensures x in universe {
      var i :| 0 <= i < |order| && order[i] == x;
      if i > 0 {
        assert HasParentBefore(entries, order, i);
        var j :| 0 <= j < i && Edge(entries, order[j], order[i]);
        assert Entry(x, order[j]) in entries;
      }
    }
    DistinctFits(order, universe);
  }

  lemma Finished(entries: seq<Entry>, root: Pid, tree: seq<Pid>)
    requires Walked(entries, [root] + tree, 1 + |tree|)
    ensures TreeOf(entries, root, tree)
  {
    var order := [root] + tree;
    forall a, b | a in order && Edge(entries, a, b) ensures b in order {
      var i :| 0 <= i < |order| && order[i] == a;
      assert b in order;
    }
    assert order[0] == root;
    ClosedHoldsReachable(entries, order, root);
  }

  method ProcessTree(root: Pid, snapshot: Snapshot) returns (tree: Option<seq<Pid>>)
    ensures tree.Some? <==> snapshot.Snapshot? && snapshot.entries != [] && snapshot.complete
    ensures tree.Some? ==> TreeOf(snapshot.entries, root, tree.value)
  {
    if !Readable(snapshot) {
      return None;
    }
    var found := Walk(snapshot.entries, root);
    tree := Some(found);
  }

  // ---- termination ------------------------------------------------------------------------

  function Reverse(xs: seq<Pid>): (r: seq<Pid>)
    ensures |r| == |xs| && forall i :: 0 <= i < |xs| ==> r[i] == xs[|xs| - 1 - i]
  {
    seq(|xs|, i requires 0 <= i < |xs| => xs[|xs| - 1 - i])
  }

  /** The pass stopped at the first process that resists, having terminated all before it. */
  predicate StoppedAtFirst(victims: seq<Pid>, resists: set<Pid>, killed: seq<Pid>, ok: bool) {
    && killed <= victims
    && (forall x :: x in killed ==> x !in resists)
    && (ok <==> killed == victims)
    && (!ok ==> victims[|killed|] in resists)
  }

  ghost predicate PassOver(entries: seq<Entry>, root: Pid, resists: set<Pid>, killed: seq<Pid>, ok: bool, tree: seq<Pid>) {
    TreeOf(entries, root, tree) && StoppedAtFirst(Reverse([root] + tree), resists, killed, ok)
  }

  /** `resists` are the processes whose termination reports an error. */
  method Terminate(pid: int, snapshot: Snapshot, resists: set<Pid>) returns (killed: seq<Pid>, ok: bool)
    ensures pid <= 0 ==> ok && killed == []
    ensures pid > 0 && !Readable(snapshot) ==> !ok && killed == []
    ensures pid > 0 && Readable(snapshot) ==>
              exists tree :: PassOver(snapshot.entries, pid, resists, killed, ok, tree)
  {
    killed := [];
    if pid <= 0 {
      return [], true;
    }
    var tree := ProcessTree(pid, snapshot);
    if tree.None? {
      return [], false;
    }
    var order := tree.value;
    ghost var victims := Reverse([pid as Pid] + order);
    var i := |order| - 1;
    while i >= 0
      invariant -1 <= i < |order|
      invariant killed == victims[..|order| - 1 - i]
      invariant forall x :: x in killed ==> x !in resists
    {
      if order[i] in resists {
        assert PassOver(snapshot.entries, pid, resists, killed, false, order);
        return killed, false;
      }
      killed := killed + [order[i]];
      i := i - 1;
    }
    if pid as Pid in resists {
      assert PassOver(snapshot.entries, pid, resists, killed, false, order);
      return killed, false;
    }
    killed := killed + [pid as Pid];
    ok := true;
    assert killed == victims;
    assert PassOver(snapshot.entries, pid, resists, killed, true, order);
  }

  /** Main result: a pass that succeeds has terminated exactly the processes reachable from the
      root, each once, the root last and every other one before a parent of it; and it succeeds
      exactly when no reachable process resists. */
  lemma PassMeaning(entries: seq<Entry>, root: Pid, resists: set<Pid>, killed: seq<Pid>, ok: bool, tree: seq<Pid>)
    requires PassOver(entries, root, resists, killed, ok, tree)
    ensures Distinct(killed)
    ensures forall x :: x in killed ==> Reachable(entries, root, x)
    ensures ok <==> forall x :: Reachable(entries, root, x) ==> x !in resists
    ensures ok ==> killed != [] && killed[|killed| - 1] == root
    ensures ok ==> forall x :: Reachable(entries, root, x) ==> x in killed
    ensures ok ==> forall i :: 0 <= i < |killed| - 1 ==> ParentAfter(entries, killed, i)
  {
    var order := [root] + tree;
    var victims := Reverse(order);
    VictimsAreOrder(order);
    assert forall i :: 0 <= i < |killed| ==> killed[i] == victims[i];
    forall x | x in killed ensures Reachable(entries, root, x) {
      assert x in victims;
    }
    if ok {
      forall i | 0 <= i < |killed| - 1 ensures ParentAfter(entries, killed, i) {
        var at := |order| - 1 - i;
        assert HasParentBefore(entries, order, at);
        var j :| 0 <= j < at && Edge(entries, order[j], order[at]);
        assert killed[|order| - 1 - j] == order[j];
      }
    } else {
      assert victims[|killed|] in victims;
    }
  }

  ghost predicate ParentAfter(entries: seq<Entry>, killed: seq<Pid>, i: nat)
    requires i < |killed|
  {
    exists j :: i < j < |killed| && Edge(entries, killed[j], killed[i])
  }

  lemma VictimsAreOrder(order: seq<Pid>)
    ensures forall x :: x in Reverse(order) <==> x in order
    ensures Distinct(order) ==> Distinct(Reverse(order))
  {
    forall x | x in order ensures x in Reverse(order) {
      var i :| 0 <= i < |order| && order[i] == x;
      assert Reverse(order)[|order| - 1 - i] == x;
    }
  }

  /** In a snapshot that lists every process once, each terminated process other than the root
      goes before its own parent, cycles and all. */
  lemma ChildBeforeParent(entries: seq<Entry>, root: Pid, resists: set<Pid>, killed: seq<Pid>, tree: seq<Pid>, a: nat, b: nat)
    requires PassOver(entries, root, resists, killed, true, tree)
    requires forall i, j :: 0 <= i < j < |entries| ==> entries[i].pid != entries[j].pid
    requires a < |killed| && b < |killed| && Edge(entries, killed[a], killed[b]) && killed[b] != root
    ensures b < a
  {
    PassMeaning(entries, root, resists, killed, true, tree);
    assert ParentAfter(entries, killed, b);
    var j :| b < j < |killed| && Edge(entries, killed[j], killed[b]);
    assert Entry(killed[b], killed[j]) in entries && Entry(killed[b], killed[a]) in entries;
    assert killed[j] == killed[a];
  }
}
