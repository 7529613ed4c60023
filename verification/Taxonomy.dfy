/**
 What a taxonomy must be before it is handed out: nodes that partition the classes, and edges that are
 acyclic and transitively reduced. The validator finds cycles by removing nodes without pending
 children, and redundant edges by searching upwards.
 */
module Taxonomy {
  import opened Bytes
  import opened Sorting

  datatype Hierarchy = Hierarchy(nodes: seq<seq<nat>>, edges: seq<(nat, nat)>, top: nat, bottom: nat)

  type Edges = seq<(nat, nat)>

  // ---------- Partitions ----------

  /** Lexicographic order of member lists. */
  predicate ListBefore(a: seq<nat>, b: seq<nat>) {
    if b == [] then false else if a == [] then true
    else a[0] < b[0] || (a[0] == b[0] && ListBefore(a[1..], b[1..]))
  }

  predicate PairBefore(a: (nat, nat), b: (nat, nat)) {
    a.0 < b.0 || (a.0 == b.0 && a.1 < b.1)
  }

  lemma {:induction false} ListsTransitive(a: seq<nat>, b: seq<nat>, c: seq<nat>)
    requires ListBefore(a, b) && ListBefore(b, c)
    ensures ListBefore(a, c)
  {
    if a != [] && a[0] == b[0] == c[0] {
      ListsTransitive(a[1..], b[1..], c[1..]);
    }
  }

  predicate Neighbours<T>(before: (T, T) -> bool, items: seq<T>) {
    forall i :: 1 <= i < |items| ==> before(items[i - 1], items[i])
  }

  ghost predicate Apart(a: seq<nat>, b: seq<nat>) {
    forall i, j :: 0 <= i < |a| && 0 <= j < |b| ==> a[i] != b[j]
  }

  /** Nonempty rising groups that share no member, in order of their least members. */
  ghost predicate Partitions(groups: seq<seq<nat>>) {
    && (forall i :: 0 <= i < |groups| ==> groups[i] != [] && Rising(groups[i]))
    && (forall i, j :: 0 <= i < j < |groups| ==> Apart(groups[i], groups[j]))
    && (forall i, j :: 0 <= i < j < |groups| ==> 0 < |groups[i]| && 0 < |groups[j]| && groups[i][0] < groups[j][0])
  }

  ghost predicate Gathered(groups: seq<seq<nat>>, members: set<nat>) {
    forall x :: x in members <==> exists i :: 0 <= i < |groups| && x in groups[i]
  }

  /** Adds the members of one group, unless one is there already. */
  method AddMembers(group: seq<nat>, members: set<nat>) returns (ok: bool, grown: set<nat>)
    requires Rising(group)
    ensures ok <==> forall i :: 0 <= i < |group| ==> group[i] !in members
    ensures ok ==> grown == members + set x | x in group
  {
    grown := members;
    for n := 0 to |group|
      invariant grown == members + set x | x in group[..n]
      invariant forall i :: 0 <= i < n ==> group[i] !in members
    {
      if group[n] in grown {
        assert group[n] !in group[..n];
        return false, grown;
      }
      assert group[..n + 1] == group[..n] + [group[n]];
      grown := grown + {group[n]};
    }
    assert group[..|group|] == group;
    return true, grown;
  }

  /** Distinct members make the order of the lists that of their first members. */
  lemma FirstMembersDecide(a: seq<nat>, b: seq<nat>)
    requires a != [] && b != [] && Apart(a, b)
    ensures ListBefore(a, b) <==> a[0] < b[0]
  {
    assert a[0] != b[0];
  }

  lemma {:induction false} FirstMembersRise(groups: seq<seq<nat>>, i: nat, j: nat)
    requires forall k :: 0 <= k < |groups| ==> groups[k] != []
    requires forall k, l :: 0 <= k < l < |groups| ==> Apart(groups[k], groups[l])
    requires Neighbours(ListBefore, groups) && i < j < |groups|
    ensures groups[i][0] < groups[j][0]
    decreases j
  {
    FirstMembersDecide(groups[j - 1], groups[j]);
    assert ListBefore(groups[j - 1], groups[j]);
    if i < j - 1 {
      FirstMembersRise(groups, i, j - 1);
    }
  }

  lemma PartitionsIff(groups: seq<seq<nat>>)
    requires forall k :: 0 <= k < |groups| ==> groups[k] != [] && Rising(groups[k])
    requires forall k, l :: 0 <= k < l < |groups| ==> Apart(groups[k], groups[l])
    ensures Partitions(groups) <==> Neighbours(ListBefore, groups)
  {
    if Neighbours(ListBefore, groups) {
      forall i, j | 0 <= i < j < |groups| ensures groups[i][0] < groups[j][0] {
        FirstMembersRise(groups, i, j);
      }
    }
    if Partitions(groups) {
      forall i | 1 <= i < |groups| ensures ListBefore(groups[i - 1], groups[i]) {
        FirstMembersDecide(groups[i - 1], groups[i]);
      }
    }
  }

  lemma GatherMore(groups: seq<seq<nat>>, n: nat, members: set<nat>, grown: set<nat>)
    requires n < |groups| && Gathered(groups[..n], members) && grown == members + set x | x in groups[n]
    ensures Gathered(groups[..n + 1], grown)
  {
    var more := groups[..n + 1];
    forall x ensures x in grown <==> exists i :: 0 <= i < |more| && x in more[i] {
      if x in members {
        var i :| 0 <= i < |groups[..n]| && x in groups[..n][i];
        assert x in more[i];
      }
      if x in groups[n] {
        assert x in more[n];
      }
      if i :| 0 <= i < |more| && x in more[i] {
        assert i < n ==> x in groups[..n][i];
      }
    }
  }

  lemma Unmet(groups: seq<seq<nat>>, n: nat, members: set<nat>)
    requires n < |groups| && Gathered(groups[..n], members)
    ensures (forall i :: 0 <= i < |groups[n]| ==> groups[n][i] !in members)
      <==> forall k :: 0 <= k < n ==> Apart(groups[k], groups[n])
  {
    if forall i :: 0 <= i < |groups[n]| ==> groups[n][i] !in members {
      forall k | 0 <= k < n ensures Apart(groups[k], groups[n]) {
        forall a, b | 0 <= a < |groups[k]| && 0 <= b < |groups[n]| ensures groups[k][a] != groups[n][b] {
          assert groups[k][a] in groups[..n][k];
          assert groups[k][a] in members;
        }
      }
    }
    if forall k :: 0 <= k < n ==> Apart(groups[k], groups[n]) {
      forall i | 0 <= i < |groups[n]| ensures groups[n][i] !in members {
        assert forall k :: 0 <= k < n ==> groups[..n][k] == groups[k] && groups[n][i] !in groups[k];
      }
    }
  }

  method ValidatePartition(groups: seq<seq<nat>>) returns (ok: bool)
    ensures ok <==> Partitions(groups)
  {
    hide ListBefore;
    var members: set<nat> := {};
    for n := 0 to |groups|
      invariant Gathered(groups[..n], members)
      invariant forall k :: 0 <= k < n ==> groups[k] != [] && Rising(groups[k])
      invariant forall k, l :: 0 <= k < l < n ==> Apart(groups[k], groups[l])
    {
      if groups[n] == [] || !Neighbours(Smaller, groups[n]) {
        RisingNeighbours(groups[n]);
        return false;
      }
      RisingNeighbours(groups[n]);
      var unmet, grown := AddMembers(groups[n], members);
      Unmet(groups, n, members);
      if !unmet {
        return false;
      }
      GatherMore(groups, n, members, grown);
      members := grown;
    }
    PartitionsIff(groups);
    return Neighbours(ListBefore, groups);
  }

  ghost predicate Transitive<T(!new)>(before: (T, T) -> bool) {
    forall x, y, z :: before(x, y) && before(y, z) ==> before(x, z)
  }

  lemma {:induction false} NeighboursBetween<T(!new)>(before: (T, T) -> bool, xs: seq<T>, i: nat, j: nat)
    requires Transitive(before) && Neighbours(before, xs) && i < j < |xs|
    ensures before(xs[i], xs[j])
    decreases j
  {
    assert before(xs[j - 1], xs[j]);
    if i < j - 1 {
      NeighboursBetween(before, xs, i, j - 1);
    }
  }

  /** Comparing neighbours is enough. */
  lemma NeighboursSorted<T(!new)>(before: (T, T) -> bool, xs: seq<T>)
    requires Transitive(before)
    ensures Sorted(before, xs) <==> Neighbours(before, xs)
  {
    if Neighbours(before, xs) {
      forall i, j | 0 <= i < j < |xs| ensures before(xs[i], xs[j]) {
        NeighboursBetween(before, xs, i, j);
      }
    }
  }

  lemma RisingNeighbours(xs: seq<nat>)
    ensures Rising(xs) <==> Neighbours(Smaller, xs)
  {
    NeighboursSorted(Smaller, xs);
    assert Rising(xs) <==> Sorted(Smaller, xs);
  }

  // ---------- Edges ----------

  ghost predicate Linked(edges: Edges, child: nat, parent: nat) {
    (child, parent) in edges
  }

  ghost predicate InRange(edges: Edges, count: nat) {
    forall k :: 0 <= k < |edges| ==> edges[k].0 < count && edges[k].1 < count && edges[k].0 != edges[k].1
  }

  /** A rank that rises along every edge. */
  ghost predicate Ranks(edges: Edges, rank: map<nat, nat>) {
    forall k :: 0 <= k < |edges| ==> edges[k].0 in rank && edges[k].1 in rank && rank[edges[k].0] < rank[edges[k].1]
  }

  ghost predicate Acyclic(edges: Edges) {
    exists rank: map<nat, nat> :: Ranks(edges, rank)
  }

  ghost predicate Walk(edges: Edges, path: seq<nat>) {
    path != [] && forall k :: 0 <= k < |path| - 1 ==> Linked(edges, path[k], path[k + 1])
  }

  ghost predicate Reaches(edges: Edges, a: nat, b: nat) {
    exists path :: Walk(edges, path) && path[0] == a && path[|path| - 1] == b
  }

  /** Another direct parent of the child reaches the parent. */
  ghost predicate Redundant(edges: Edges, child: nat, parent: nat) {
    Linked(edges, child, parent) &&
      exists other: nat :: other != parent && Linked(edges, child, other) && Reaches(edges, other, parent)
  }

  ghost predicate Reduced(edges: Edges) {
    forall child: nat, parent: nat :: !Redundant(edges, child, parent)
  }

  // ---------- Finding cycles ----------

  /** The direct parents of a node, in the order of the edges. */
  function Parents(edges: Edges, child: nat): seq<nat> {
    if edges == [] then [] else
    var last := edges[|edges| - 1];
    Parents(edges[..|edges| - 1], child) + if last.0 == child then [last.1] else []
  }

  /** How many edges into a node come from children that are not done. */
  function Pending(edges: Edges, done: set<nat>, parent: nat): nat {
    if edges == [] then 0 else
    var last := edges[|edges| - 1];
    Pending(edges[..|edges| - 1], done, parent) + if last.1 == parent && last.0 !in done then 1 else 0
  }

  lemma {:induction false} ParentsAre(edges: Edges, child: nat, parent: nat)
    ensures parent in Parents(edges, child) <==> Linked(edges, child, parent)
  {
    if edges != [] {
      ParentsAre(edges[..|edges| - 1], child, parent);
      assert edges == edges[..|edges| - 1] + [edges[|edges| - 1]];
    }
  }

  lemma {:induction false} NonePending(edges: Edges, done: set<nat>, parent: nat)
    ensures Pending(edges, done, parent) == 0 <==> forall child: nat :: Linked(edges, child, parent) ==> child in done
  {
    if edges != [] {
      var shorter, last := edges[..|edges| - 1], edges[|edges| - 1];
      NonePending(shorter, done, parent);
      assert edges == shorter + [last];
      assert Linked(edges, last.0, last.1);
      assert forall child: nat :: Linked(edges, child, parent) <==>
        Linked(shorter, child, parent) || (child, parent) == last;
    }
  }

  /** Finishing a node releases each of its parents once for every edge. */
  lemma {:induction false} Release(edges: Edges, done: set<nat>, child: nat, parent: nat)
    requires child !in done
    ensures Pending(edges, done, parent) == Pending(edges, done + {child}, parent) +
      multiset(Parents(edges, child))[parent]
  {
    if edges != [] {
      Release(edges[..|edges| - 1], done, child, parent);
    }
  }

  /** If every node that is not done waits for one that is not done, a rank shows that all are done. */
  lemma {:induction false} NoneWaits(edges: Edges, rank: map<nat, nat>, done: set<nat>, count: nat, node: nat)
    requires Ranks(edges, rank) && InRange(edges, count) && node < count
    requires forall x: nat :: x < count && x !in done ==> Pending(edges, done, x) > 0
    ensures node in done
    decreases if node in rank then rank[node] + 1 else 0
  {
    if node !in done {
      NonePending(edges, done, node);
      var child: nat :| Linked(edges, child, node) && child !in done;
      var k :| 0 <= k < |edges| && edges[k] == (child, node);
      assert edges[k].0 in rank && edges[k].1 in rank;
      NoneWaits(edges, rank, done, count, child);
    }
  }

  lemma AllRemoved(edges: Edges, done: set<nat>, count: nat)
    requires Acyclic(edges) && InRange(edges, count)
    requires forall x: nat :: x < count && x !in done ==> Pending(edges, done, x) > 0
    ensures Range(count) <= done
  {
    var rank: map<nat, nat> :| Ranks(edges, rank);
    forall v: nat | v < count ensures v in done {
      NoneWaits(edges, rank, done, count, v);
    }
  }

  ghost function Range(count: nat): (r: set<nat>)
    ensures |r| == count && forall x: nat :: x in r <==> x < count
  {
    if count == 0 then {} else Range(count - 1) + {count - 1}
  }

  lemma {:induction false} Contained(a: set<nat>, b: set<nat>)
    requires a <= b
    ensures |a| <= |b| && (|a| == |b| ==> a == b)
    decreases |a|
  {
    if x :| x in a {
      Contained(a - {x}, b - {x});
      assert a == a - {x} + {x} && b == b - {x} + {x};
    }
  }

  ghost function Children(edges: Edges, parent: nat): set<nat> {
    if edges == [] then {} else
    var last := edges[|edges| - 1];
    Children(edges[..|edges| - 1], parent) + if last.1 == parent then {last.0} else {}
  }

  lemma {:induction false} ChildrenAre(edges: Edges, child: nat, parent: nat)
    ensures child in Children(edges, parent) <==> Linked(edges, child, parent)
  {
    if edges != [] {
      ChildrenAre(edges[..|edges| - 1], child, parent);
      assert edges == edges[..|edges| - 1] + [edges[|edges| - 1]];
    }
  }

  lemma {:induction false} DegreeCounts(edges: Edges, parent: nat)
    requires forall i, j :: 0 <= i < j < |edges| ==> edges[i] != edges[j]
    ensures Pending(edges, {}, parent) == |Children(edges, parent)|
  {
    if edges != [] {
      var shorter, last := edges[..|edges| - 1], edges[|edges| - 1];
      DegreeCounts(shorter, parent);
      ChildrenAre(shorter, last.0, parent);
      assert last !in shorter;
    }
  }

  /** Distinct edges give a node no more children than there are nodes, so degrees fit 32 bits. */
  lemma DegreeBounded(edges: Edges, count: nat, parent: nat)
    requires InRange(edges, count) && forall i, j :: 0 <= i < j < |edges| ==> edges[i] != edges[j]
    ensures Pending(edges, {}, parent) <= count
  {
    DegreeCounts(edges, parent);
    forall child | child in Children(edges, parent) ensures child in Range(count) {
      ChildrenAre(edges, child, parent);
    }
    Contained(Children(edges, parent), Range(count));
  }

  lemma DegreeStep(edges: Edges, n: nat, v: nat)
    requires n < |edges|
    ensures Parents(edges[..n + 1], v) == Parents(edges[..n], v) + if edges[n].0 == v then [edges[n].1] else []
    ensures Pending(edges[..n + 1], {}, v) == Pending(edges[..n], {}, v) + if edges[n].1 == v then 1 else 0
  {
    assert edges[..n + 1][..n] == edges[..n];
  }

  lemma NoEdges()
    ensures forall v :: Parents([], v) == [] && Pending([], {}, v) == 0
  {
  }

  /** The successor lists and degrees, unless an edge leaves the nodes or loops. */
  method BuildDegrees(edges: Edges, count: nat) returns (ok: bool, successors: seq<seq<nat>>, incoming: seq<nat>)
    requires count < U32_LIMIT && forall i, j :: 0 <= i < j < |edges| ==> edges[i] != edges[j]
    ensures ok <==> InRange(edges, count)
    ensures ok ==> |successors| == |incoming| == count
    ensures ok ==> forall v :: 0 <= v < count ==>
      successors[v] == Parents(edges, v) && incoming[v] == Pending(edges, {}, v) < U32_LIMIT
  {
    hide Parents, Pending;
    NoEdges();
    successors, incoming := seq(count, _ => []), seq(count, _ => 0);
    for n := 0 to |edges|
      invariant |successors| == |incoming| == count && InRange(edges[..n], count)
      invariant forall v :: 0 <= v < count ==>
        successors[v] == Parents(edges[..n], v) && incoming[v] == Pending(edges[..n], {}, v)
    {
      var edge := edges[n];
      if edge.0 >= count || edge.1 >= count || edge.0 == edge.1 {
        return false, successors, incoming;
      }
      forall v { DegreeStep(edges, n, v); }
      successors := successors[edge.0 := successors[edge.0] + [edge.1]];
      incoming := incoming[edge.1 := incoming[edge.1] + 1];
    }
    assert edges[..|edges|] == edges;
    forall v | 0 <= v < count ensures Pending(edges, {}, v) < U32_LIMIT {
      DegreeBounded(edges, count, v);
    }
    return true, successors, incoming;
  }

  /** Between removals: degrees count the pending children, and the frontier is the nodes that wait for none. */
  ghost predicate Ready(
    edges: Edges, done: set<nat>, count: nat, incoming: seq<nat>, frontier: seq<nat>, rest: seq<nat>)
  {
    && |incoming| == count
    && (forall v :: 0 <= v < count ==> incoming[v] == Pending(edges, done, v) + multiset(rest)[v])
    && (forall i, j :: 0 <= i < j < |frontier| ==> frontier[i] != frontier[j])
    && (forall i :: 0 <= i < |frontier| ==> frontier[i] < count && frontier[i] !in done && incoming[frontier[i]] == 0)
    && (forall v: nat :: v < count && v !in done && incoming[v] == 0 ==> v in frontier)
    && (forall v: nat :: v < count && v in done ==> incoming[v] == 0)
  }

  method Frontier(edges: Edges, count: nat, incoming: seq<nat>) returns (frontier: seq<nat>)
    requires |incoming| == count && forall v :: 0 <= v < count ==> incoming[v] == Pending(edges, {}, v)
    ensures Ready(edges, {}, count, incoming, frontier, [])
  {
    frontier := [];
    for n := 0 to count
      invariant forall i, j :: 0 <= i < j < |frontier| ==> frontier[i] != frontier[j]
      invariant forall i :: 0 <= i < |frontier| ==> frontier[i] < n && incoming[frontier[i]] == 0
      invariant forall v: nat :: v < n && incoming[v] == 0 ==> v in frontier
    {
      if incoming[n] == 0 {
        frontier := frontier + [n];
      }
    }
  }

  lemma Removed(edges: Edges, done: set<nat>, count: nat, incoming: seq<nat>, frontier: seq<nat>)
    requires Ready(edges, done, count, incoming, frontier, []) && frontier != []
    ensures Ready(edges, done + {frontier[0]}, count, incoming, frontier[1..], Parents(edges, frontier[0]))
  {
    var node := frontier[0];
    forall v | 0 <= v < count
      ensures incoming[v] == Pending(edges, done + {node}, v) + multiset(Parents(edges, node))[v]
    {
      Release(edges, done, node, v);
    }
    assert forall v :: v in frontier && v != node ==> v in frontier[1..];
  }

  lemma Released(
    edges: Edges, done: set<nat>, count: nat, incoming: seq<nat>, frontier: seq<nat>, parent: nat, rest: seq<nat>)
    requires Ready(edges, done, count, incoming, frontier, [parent] + rest) && parent < count
    ensures incoming[parent] >= 1
    ensures
      var next := incoming[parent := incoming[parent] - 1];
      Ready(edges, done, count, next, if next[parent] == 0 then frontier + [parent] else frontier, rest)
  {
    hide Pending;
    assert multiset([parent] + rest) == multiset{parent} + multiset(rest);
    assert incoming[parent] >= 1;
    assert parent !in frontier;
  }

  /** Releases every parent of a removed node. No degree falls below zero. */
  method ReleaseParents(
    edges: Edges, ghost done: set<nat>, count: nat, parents: seq<nat>, incoming0: seq<nat>, frontier0: seq<nat>)
    returns (incoming: seq<nat>, frontier: seq<nat>)
    requires Ready(edges, done, count, incoming0, frontier0, parents)
    requires forall k :: 0 <= k < |parents| ==> parents[k] < count
    ensures Ready(edges, done, count, incoming, frontier, [])
  {
    hide Ready;
    incoming, frontier := incoming0, frontier0;
    assert parents[0..] == parents;
    for n := 0 to |parents|
      invariant Ready(edges, done, count, incoming, frontier, parents[n..])
    {
      var parent := parents[n];
      assert parents[n..] == [parent] + parents[n + 1..];
      Released(edges, done, count, incoming, frontier, parent, parents[n + 1..]);
      DegreesPerNode(edges, done, count, incoming, frontier, parents[n..]);
      incoming := incoming[parent := incoming[parent] - 1];
      if incoming[parent] == 0 {
        frontier := frontier + [parent];
      }
    }
  }

  lemma DegreesPerNode(edges: Edges, done: set<nat>, count: nat, incoming: seq<nat>, frontier: seq<nat>, rest: seq<nat>)
    requires Ready(edges, done, count, incoming, frontier, rest)
    ensures |incoming| == count
  {
  }

  /** Nodes are removed once no child of theirs is left; all go exactly when the edges are acyclic. */
  method RemovesAll(edges: Edges, count: nat, successors: seq<seq<nat>>, incoming0: seq<nat>) returns (ok: bool)
    requires InRange(edges, count) && |successors| == |incoming0| == count
    requires forall v :: 0 <= v < count ==> successors[v] == Parents(edges, v) && incoming0[v] == Pending(edges, {}, v)
    ensures ok <==> Acyclic(edges)
  {
    hide Pending, Parents, Ready, Ordered, Range, InRange, Acyclic;
    var incoming, processed := incoming0, 0;
    var frontier := Frontier(edges, count, incoming);
    ghost var done: set<nat>, rank: map<nat, nat> := {}, map[];
    OrderStarts(edges);
    while frontier != []
      invariant Ready(edges, done, count, incoming, frontier, [])
      invariant processed == |done| <= count && done <= Range(count)
      invariant Ordered(edges, done, rank, processed)
      decreases count - processed
    {
      var node := frontier[0];
      NextNode(edges, done, count, incoming, frontier);
      Removed(edges, done, count, incoming, frontier);
      OrderGrows(edges, done, rank, processed, node);
      ParentsInRange(edges, count, node);
      rank := rank[node := processed];
      done := done + {node};
      processed := processed + 1;
      Contained(done, Range(count));
      incoming, frontier := ReleaseParents(edges, done, count, successors[node], incoming, frontier[1..]);
    }
    Decided(edges, done, rank, count, incoming);
    return processed == count;
  }

  /** The next node to remove waits for no child. */
  lemma NextNode(edges: Edges, done: set<nat>, count: nat, incoming: seq<nat>, frontier: seq<nat>)
    requires Ready(edges, done, count, incoming, frontier, []) && frontier != []
    ensures frontier[0] < count && frontier[0] !in done
    ensures forall child: nat :: Linked(edges, child, frontier[0]) ==> child in done
  {
    NonePending(edges, done, frontier[0]);
  }

  lemma ParentsInRange(edges: Edges, count: nat, node: nat)
    requires InRange(edges, count)
    ensures forall k :: 0 <= k < |Parents(edges, node)| ==> Parents(edges, node)[k] < count
  {
    hide Parents;
    forall k | 0 <= k < |Parents(edges, node)| ensures Parents(edges, node)[k] < count {
      ParentsAre(edges, node, Parents(edges, node)[k]);
    }
  }

  /** With nothing left to remove, everything was removed exactly when the edges are acyclic. */
  lemma Decided(edges: Edges, done: set<nat>, rank: map<nat, nat>, count: nat, incoming: seq<nat>)
    requires InRange(edges, count) && Ready(edges, done, count, incoming, [], []) && done <= Range(count)
    requires Ordered(edges, done, rank, |done|)
    ensures |done| == count <==> Acyclic(edges)
  {
    hide Pending, Range;
    Contained(done, Range(count));
    if Acyclic(edges) {
      AllRemoved(edges, done, count);
      assert done == Range(count);
    }
    assert |done| == count ==> Ranks(edges, rank);
  }

  lemma OrderStarts(edges: Edges)
    ensures Ordered(edges, {}, map[], 0)
  {
  }

  /** Removed nodes are ranked by the time of their removal, after all their children. */
  ghost predicate Ordered(edges: Edges, done: set<nat>, rank: map<nat, nat>, time: nat) {
    && rank.Keys == done
    && (forall x :: x in rank ==> rank[x] < time)
    && forall k :: 0 <= k < |edges| && edges[k].1 in done ==> edges[k].0 in rank && rank[edges[k].0] < rank[edges[k].1]
  }

  lemma OrderGrows(edges: Edges, done: set<nat>, rank: map<nat, nat>, time: nat, node: nat)
    requires Ordered(edges, done, rank, time) && node !in done
    requires forall child: nat :: Linked(edges, child, node) ==> child in done
    ensures Ordered(edges, done + {node}, rank[node := time], time + 1)
  {
    forall k | 0 <= k < |edges| && edges[k].1 in done + {node}
      ensures edges[k].0 in rank[node := time] && rank[node := time][edges[k].0] < rank[node := time][edges[k].1]
    {
      assert Linked(edges, edges[k].0, edges[k].1);
    }
  }

  // ---------- Finding redundant edges ----------

  lemma WalkStep(edges: Edges, a: nat, b: nat, c: nat)
    requires Reaches(edges, a, b) && Linked(edges, b, c)
    ensures Reaches(edges, a, c)
  {
    var path :| Walk(edges, path) && path[0] == a && path[|path| - 1] == b;
    var longer := path + [c];
    forall k | 0 <= k < |longer| - 1 ensures Linked(edges, longer[k], longer[k + 1]) {
      if k < |path| - 1 { assert Linked(edges, path[k], path[k + 1]); }
    }
    assert Walk(edges, longer);
  }

  /** A set closed under edges holds whatever its members reach. */
  lemma {:induction false} ClosedHolds(edges: Edges, closed: set<nat>, path: seq<nat>, k: nat)
    requires forall x: nat, y: nat :: x in closed && Linked(edges, x, y) ==> y in closed
    requires Walk(edges, path) && path[0] in closed && k < |path|
    ensures path[k] in closed
  {
    if k > 0 {
      ClosedHolds(edges, closed, path, k - 1);
      assert Linked(edges, path[k - 1], path[k - 1 + 1]);
    }
  }

  ghost predicate FromOne(edges: Edges, starts: seq<nat>, node: nat) {
    exists k :: 0 <= k < |starts| && Reaches(edges, starts[k], node)
  }

  lemma FromOneStep(edges: Edges, starts: seq<nat>, a: nat, b: nat)
    requires FromOne(edges, starts, a) && Linked(edges, a, b)
    ensures FromOne(edges, starts, b)
  {
    var k :| 0 <= k < |starts| && Reaches(edges, starts[k], a);
    WalkStep(edges, starts[k], a, b);
  }

  /** What the search has seen or will see contains the starts and is closed but for what it will see. */
  ghost predicate Covers(edges: Edges, starts: seq<nat>, seen: set<nat>, search: seq<nat>) {
    && (forall k :: 0 <= k < |starts| ==> starts[k] in seen || starts[k] in search)
    && (forall x: nat, y: nat :: x in seen && Linked(edges, x, y) ==> y in seen || y in search)
    && (forall k :: 0 <= k < |search| ==> FromOne(edges, starts, search[k]))
  }

  /** Searches upwards from the starts for the target. */
  method SearchUpwards(
    edges: Edges, count: nat, successors: seq<seq<nat>>, starts: seq<nat>, target: nat)
    returns (found: bool)
    requires InRange(edges, count) && |successors| == count && forall v :: 0 <= v < count ==>
      successors[v] == Parents(edges, v)
    requires forall k :: 0 <= k < |starts| ==> starts[k] < count
    ensures found <==> FromOne(edges, starts, target)
  {
    hide Parents, Reaches, FromOne, InRange, Range;
    var search: seq<nat>, seen: set<nat> := starts, {};
    StartsReach(edges, starts);
    while search != []
      invariant Covers(edges, starts, seen, search) && target !in seen && seen <= Range(count)
      invariant forall k :: 0 <= k < |search| ==> search[k] < count
      decreases count - |seen|, |search|
    {
      var last := |search| - 1;
      var current := search[last];
      if current == target {
        return true;
      }
      ghost var before := search;
      assert search == search[..last] + [current];
      search := search[..last];
      if current !in seen {
        assert FromOne(edges, starts, before[last]);
        Expand(edges, count, starts, seen, search, current);
        assert current in Range(count);
        seen := seen + {current};
        Contained(seen, Range(count));
        search := search + successors[current];
      }
    }
    if FromOne(edges, starts, target) { Unfound(edges, starts, seen, target); }
    return false;
  }

  lemma StartsReach(edges: Edges, starts: seq<nat>)
    ensures Covers(edges, starts, {}, starts)
  {
    forall k | 0 <= k < |starts| ensures FromOne(edges, starts, starts[k]) {
      assert Walk(edges, [starts[k]]);
      assert Reaches(edges, starts[k], starts[k]);
    }
  }

  lemma Expand(edges: Edges, count: nat, starts: seq<nat>, seen: set<nat>, search: seq<nat>, node: nat)
    requires Covers(edges, starts, seen, search + [node]) && FromOne(edges, starts, node) && InRange(edges, count)
    ensures Covers(edges, starts, seen + {node}, search + Parents(edges, node))
    ensures forall k :: 0 <= k < |Parents(edges, node)| ==> Parents(edges, node)[k] < count
  {
    hide Parents, FromOne;
    var parents := Parents(edges, node);
    forall y: nat ensures y in parents <==> Linked(edges, node, y) {
      ParentsAre(edges, node, y);
    }
    forall k | 0 <= k < |parents| ensures FromOne(edges, starts, parents[k]) && parents[k] < count {
      assert Linked(edges, node, parents[k]);
      FromOneStep(edges, starts, node, parents[k]);
    }
    forall k | 0 <= k < |search| ensures FromOne(edges, starts, search[k]) {
      assert (search + [node])[k] == search[k];
    }
  }

  lemma Unfound(edges: Edges, starts: seq<nat>, seen: set<nat>, target: nat)
    requires Covers(edges, starts, seen, []) && FromOne(edges, starts, target)
    ensures target in seen
  {
    var k :| 0 <= k < |starts| && Reaches(edges, starts[k], target);
    var path :| Walk(edges, path) && path[0] == starts[k] && path[|path| - 1] == target;
    ClosedHolds(edges, seen, path, |path| - 1);
  }

  function Without(items: seq<nat>, x: nat): (rest: seq<nat>)
    ensures forall y :: y in rest <==> y in items && y != x
  {
    if items == [] then []
    else
      assert items == [items[0]] + items[1..];
      (if items[0] == x then [] else [items[0]]) + Without(items[1..], x)
  }

  lemma RedundantIff(edges: Edges, child: nat, parent: nat)
    requires Linked(edges, child, parent)
    ensures FromOne(edges, Without(Parents(edges, child), parent), parent) <==> Redundant(edges, child, parent)
  {
    hide Without, Parents, Reaches;
    var others := Without(Parents(edges, child), parent);
    forall y: nat ensures y in others <==> Linked(edges, child, y) && y != parent {
      ParentsAre(edges, child, y);
    }
    if FromOne(edges, others, parent) {
      var k :| 0 <= k < |others| && Reaches(edges, others[k], parent);
      assert others[k] in others;
    }
    if Redundant(edges, child, parent) {
      var other: nat :| other != parent && Linked(edges, child, other) && Reaches(edges, other, parent);
      assert other in others;
    }
  }

  /** Looks for an edge that another parent of the same child makes redundant. */
  method EdgesReduced(edges: Edges, count: nat, successors: seq<seq<nat>>) returns (ok: bool)
    requires InRange(edges, count) && |successors| == count && forall v :: 0 <= v < count ==>
      successors[v] == Parents(edges, v)
    ensures ok <==> Reduced(edges)
  {
    hide Parents, Redundant, FromOne, Without;
    for child := 0 to count
      invariant forall c: nat, parent: nat :: c < child ==> !Redundant(edges, c, parent)
    {
      var reduced := ParentsReduced(edges, count, successors, child);
      if !reduced {
        return false;
      }
    }
    forall child: nat, parent: nat ensures !Redundant(edges, child, parent) {
      if Redundant(edges, child, parent) { RedundantInRange(edges, count, child, parent); }
    }
    return true;
  }

  lemma RedundantInRange(edges: Edges, count: nat, child: nat, parent: nat)
    requires InRange(edges, count) && Redundant(edges, child, parent)
    ensures child < count
  {
  }

  method ParentsReduced(edges: Edges, count: nat, successors: seq<seq<nat>>, child: nat) returns (ok: bool)
    requires InRange(edges, count) && |successors| == count && forall v :: 0 <= v < count ==>
      successors[v] == Parents(edges, v)
    requires child < count
    ensures ok <==> forall parent: nat :: !Redundant(edges, child, parent)
  {
    hide Parents, FromOne, Without, Reaches;
    var direct := successors[child];
    forall y: nat ensures y in direct <==> Linked(edges, child, y) {
      ParentsAre(edges, child, y);
    }
    if |direct| < 2 {
      return true;
    }
    for n := 0 to |direct|
      invariant forall k :: 0 <= k < n ==> !Redundant(edges, child, direct[k])
    {
      var others := Without(direct, direct[n]);
      assert forall k :: 0 <= k < |others| ==>
        others[k] in others && others[k] in direct && Linked(edges, child, others[k]);
      assert direct[n] in direct;
      RedundantIff(edges, child, direct[n]);
      var found := SearchUpwards(edges, count, successors, others, direct[n]);
      if found {
        return false;
      }
    }
    return true;
  }

  /**
   Redundancy is what it says: on acyclic edges, an edge is redundant exactly when dropping it loses no
   reachability.
   */
  lemma RedundantMeans(edges: Edges, child: nat, parent: nat)
    requires Acyclic(edges) && Linked(edges, child, parent)
    ensures Redundant(edges, child, parent) <==> Reaches(Dropped(edges, child, parent), child, parent)
  {
    if Redundant(edges, child, parent) {
      var other: nat :| other != parent && Linked(edges, child, other) && Reaches(edges, other, parent);
      var path :| Walk(edges, path) && path[0] == other && path[|path| - 1] == parent;
      Detour(edges, child, parent, path);
    }
    if Reaches(Dropped(edges, child, parent), child, parent) {
      var path :| Walk(Dropped(edges, child, parent), path) && path[0] == child && path[|path| - 1] == parent;
      NoLoop(edges, [child, parent]);
      assert Linked(Dropped(edges, child, parent), path[0], path[0 + 1]);
      DroppedIs(edges, child, parent, path[0], path[1]);
      var rest := path[1..];
      forall k | 0 <= k < |rest| - 1 ensures Linked(edges, rest[k], rest[k + 1]) {
        assert Linked(Dropped(edges, child, parent), path[k + 1], path[k + 1 + 1]);
        DroppedIs(edges, child, parent, path[k + 1], path[k + 2]);
      }
      assert Walk(edges, rest);
      assert Reaches(edges, path[1], parent);
    }
  }

  function Dropped(edges: Edges, child: nat, parent: nat): Edges {
    if edges == [] then [] else
    var last := edges[|edges| - 1];
    Dropped(edges[..|edges| - 1], child, parent) + if last == (child, parent) then [] else [last]
  }

  lemma {:induction false} DroppedIs(edges: Edges, child: nat, parent: nat, a: nat, b: nat)
    ensures Linked(Dropped(edges, child, parent), a, b) <==> Linked(edges, a, b) && (a, b) != (child, parent)
  {
    if edges != [] {
      DroppedIs(edges[..|edges| - 1], child, parent, a, b);
      assert edges == edges[..|edges| - 1] + [edges[|edges| - 1]];
    }
  }

  /** A rank rises along every walk. */
  lemma {:induction false} WalkRises(edges: Edges, rank: map<nat, nat>, path: seq<nat>, i: nat, j: nat)
    requires Ranks(edges, rank) && Walk(edges, path) && i < j < |path|
    ensures path[i] in rank && path[j] in rank && rank[path[i]] < rank[path[j]]
    decreases j
  {
    assert Linked(edges, path[j - 1], path[j - 1 + 1]);
    var k :| 0 <= k < |edges| && edges[k] == (path[j - 1], path[j]);
    if i < j - 1 {
      WalkRises(edges, rank, path, i, j - 1);
    }
  }

  lemma NoLoop(edges: Edges, path: seq<nat>)
    requires Acyclic(edges) && Walk(edges, path) && |path| >= 2
    ensures path[0] != path[|path| - 1]
  {
    var rank: map<nat, nat> :| Ranks(edges, rank);
    WalkRises(edges, rank, path, 0, |path| - 1);
  }

  /** A walk from another parent never comes back to the child, so it does not use the edge. */
  lemma Detour(edges: Edges, child: nat, parent: nat, path: seq<nat>)
    requires Acyclic(edges) && Walk(edges, path) && Linked(edges, child, path[0])
    requires path[0] != parent && path[|path| - 1] == parent
    ensures Reaches(Dropped(edges, child, parent), child, parent)
  {
    var whole := [child] + path;
    assert forall k :: 1 <= k < |whole| ==> whole[k] == path[k - 1];
    forall k | 0 <= k < |whole| - 1 ensures Linked(edges, whole[k], whole[k + 1]) {
      if k > 0 { assert Linked(edges, path[k - 1], path[k - 1 + 1]); }
    }
    assert Walk(edges, whole);
    forall k | 0 <= k < |whole| - 1 ensures Linked(Dropped(edges, child, parent), whole[k], whole[k + 1]) {
      DroppedIs(edges, child, parent, whole[k], whole[k + 1]);
      assert Linked(edges, whole[k], whole[k + 1]);
      if k > 0 {
        var back := whole[..k + 1];
        forall m | 0 <= m < |back| - 1 ensures Linked(edges, back[m], back[m + 1]) {
          assert Linked(edges, whole[m], whole[m + 1]);
        }
        NoLoop(edges, back);
      }
    }
    assert Walk(Dropped(edges, child, parent), whole);
  }

  // ---------- The whole validator ----------

  ghost predicate ValidHierarchy(h: Hierarchy) {
    && h.nodes != [] && Partitions(h.nodes) && |h.nodes| < U32_LIMIT && h.top < |h.nodes| && h.bottom < |h.nodes|
    && Sorted(PairBefore, h.edges) && InRange(h.edges, |h.nodes|) && Acyclic(h.edges) && Reduced(h.edges)
  }

  /** Accepts exactly the valid hierarchies. */
  method ValidateHierarchy(h: Hierarchy) returns (ok: bool)
    ensures ok <==> ValidHierarchy(h)
  {
    hide Partitions, Acyclic, Reduced, Parents, Pending;
    if h.nodes == [] {
      return false;
    }
    var partitioned := ValidatePartition(h.nodes);
    var count := |h.nodes|;
    if !partitioned || count >= U32_LIMIT || h.top >= count || h.bottom >= count {
      return false;
    }
    NeighboursSorted(PairBefore, h.edges);
    if !Neighbours(PairBefore, h.edges) {
      return false;
    }
    var linked, successors, incoming := BuildDegrees(h.edges, count);
    if !linked {
      return false;
    }
    var acyclic := RemovesAll(h.edges, count, successors, incoming);
    if !acyclic {
      return false;
    }
    ok := EdgesReduced(h.edges, count, successors);
  }
}
