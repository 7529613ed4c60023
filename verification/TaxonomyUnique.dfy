/** A valid hierarchy is a canonical form: the subsumptions it states determine its nodes and edges. */
module TaxonomyUnique {
  import opened Sorting
  import opened Taxonomy

  ghost predicate In(h: Hierarchy, x: nat, i: nat) {
    i < |h.nodes| && x in h.nodes[i]
  }

  /** The subsumption a hierarchy states between members. */
  ghost predicate Subsumed(h: Hierarchy, x: nat, y: nat) {
    exists i, j :: In(h, x, i) && In(h, y, j) && Reaches(h.edges, i, j)
  }

  lemma OneNode(h: Hierarchy, x: nat, i: nat, j: nat)
    requires Partitions(h.nodes) && In(h, x, i) && In(h, x, j)
    ensures i == j
  {
    var a :| 0 <= a < |h.nodes[i]| && h.nodes[i][a] == x;
    var b :| 0 <= b < |h.nodes[j]| && h.nodes[j][b] == x;
    assert i < j ==> Apart(h.nodes[i], h.nodes[j]);
    assert j < i ==> Apart(h.nodes[j], h.nodes[i]);
  }

  lemma SubsumedAt(h: Hierarchy, x: nat, y: nat, i: nat, j: nat)
    requires Partitions(h.nodes) && In(h, x, i) && In(h, y, j)
    ensures Subsumed(h, x, y) <==> Reaches(h.edges, i, j)
  {
    hide Partitions, Reaches, In;
    if Subsumed(h, x, y) {
      var a, b :| In(h, x, a) && In(h, y, b) && Reaches(h.edges, a, b);
      OneNode(h, x, i, a);
      OneNode(h, y, j, b);
    }
  }

  lemma ReachesItself(edges: Edges, a: nat)
    ensures Reaches(edges, a, a)
  {
    assert Walk(edges, [a]);
  }

  lemma ReachesThrough(edges: Edges, a: nat, b: nat, c: nat)
    requires Reaches(edges, a, b) && Reaches(edges, b, c)
    ensures Reaches(edges, a, c)
  {
    var p :| Walk(edges, p) && p[0] == a && p[|p| - 1] == b;
    var q :| Walk(edges, q) && q[0] == b && q[|q| - 1] == c;
    var whole := p + q[1..];
    forall k | 0 <= k < |whole| - 1 ensures Linked(edges, whole[k], whole[k + 1]) {
      if k < |p| - 1 {
        assert Linked(edges, p[k], p[k + 1]);
      } else {
        var m := k - (|p| - 1);
        assert whole[k] == q[m] && whole[k + 1] == q[m + 1];
        assert Linked(edges, q[m], q[m + 1]);
      }
    }
    assert Walk(edges, whole);
  }

  lemma Antisymmetric(edges: Edges, a: nat, b: nat)
    requires Acyclic(edges) && Reaches(edges, a, b) && Reaches(edges, b, a)
    ensures a == b
  {
    var p :| Walk(edges, p) && p[0] == a && p[|p| - 1] == b;
    var q :| Walk(edges, q) && q[0] == b && q[|q| - 1] == a;
    var rank: map<nat, nat> :| Ranks(edges, rank);
    if |p| > 1 { WalkRises(edges, rank, p, 0, |p| - 1); }
    if |q| > 1 { WalkRises(edges, rank, q, 0, |q| - 1); }
  }

  /** Two members share a node exactly when each is subsumed by the other. */
  lemma SharedNode(h: Hierarchy, x: nat, y: nat, i: nat)
    requires ValidHierarchy(h) && In(h, x, i)
    ensures In(h, y, i) <==> Subsumed(h, x, y) && Subsumed(h, y, x)
  {
    hide Partitions, Reaches, In, Acyclic, Reduced, InRange;
    if In(h, y, i) {
      SubsumedAt(h, x, y, i, i);
      SubsumedAt(h, y, x, i, i);
      ReachesItself(h.edges, i);
    }
    if Subsumed(h, x, y) && Subsumed(h, y, x) {
      var a, j :| In(h, x, a) && In(h, y, j) && Reaches(h.edges, a, j);
      OneNode(h, x, i, a);
      SubsumedAt(h, y, x, j, i);
      Antisymmetric(h.edges, i, j);
    }
  }

  ghost predicate SameSubsumptions(h: Hierarchy, k: Hierarchy) {
    forall x: nat, y: nat :: Subsumed(h, x, y) <==> Subsumed(k, x, y)
  }

  lemma SameGroup(h: Hierarchy, k: Hierarchy, i: nat)
    requires ValidHierarchy(h) && ValidHierarchy(k) && SameSubsumptions(h, k) && i < |h.nodes|
    ensures h.nodes[i] in k.nodes
  {
    hide Reaches, Acyclic, Reduced, InRange;
    var group := h.nodes[i];
    assert group != [] && Rising(group);
    var x := group[0];
    assert In(h, x, i);
    SharedNode(h, x, x, i);
    assert Subsumed(k, x, x);
    var j: nat :| In(k, x, j);
    forall y ensures y in group <==> y in k.nodes[j] {
      SharedNode(h, x, y, i);
      SharedNode(k, x, y, j);
      assert In(h, y, i) <==> In(k, y, j);
    }
    assert Rising(k.nodes[j]);
    RisingUnique(group, k.nodes[j]);
  }

  predicate FirstBefore(a: seq<nat>, b: seq<nat>) {
    a != [] && b != [] && a[0] < b[0]
  }

  lemma SameNodes(h: Hierarchy, k: Hierarchy)
    requires ValidHierarchy(h) && ValidHierarchy(k) && SameSubsumptions(h, k)
    ensures h.nodes == k.nodes
  {
    forall g ensures g in h.nodes <==> g in k.nodes {
      if g in h.nodes {
        var i :| 0 <= i < |h.nodes| && h.nodes[i] == g;
        SameGroup(h, k, i);
      }
      if g in k.nodes {
        var i :| 0 <= i < |k.nodes| && k.nodes[i] == g;
        SameGroup(k, h, i);
      }
    }
    OrderedUnique(FirstBefore, h.nodes, k.nodes);
  }

  lemma SameReach(h: Hierarchy, k: Hierarchy, i: nat, j: nat)
    requires ValidHierarchy(h) && ValidHierarchy(k) && SameSubsumptions(h, k) && h.nodes == k.nodes
    requires i < |h.nodes| && j < |h.nodes|
    ensures Reaches(h.edges, i, j) <==> Reaches(k.edges, i, j)
  {
    hide Reaches, Acyclic, Reduced, InRange;
    assert h.nodes[i] != [] && h.nodes[j] != [];
    var x, y := h.nodes[i][0], h.nodes[j][0];
    assert In(h, x, i) && In(h, y, j) && In(k, x, i) && In(k, y, j);
    SubsumedAt(h, x, y, i, j);
    SubsumedAt(k, x, y, i, j);
  }

  /** A detour in place of an edge would make the edge redundant. */
  lemma NoDetour(edges: Edges, child: nat, between: nat, parent: nat)
    requires Acyclic(edges) && Linked(edges, child, parent) && child != between && between != parent
    requires Reaches(edges, child, between) && Reaches(edges, between, parent)
    ensures Redundant(edges, child, parent)
  {
    var path :| Walk(edges, path) && path[0] == child && path[|path| - 1] == between;
    var other, rest := path[1], path[1..];
    assert Linked(edges, path[0], path[0 + 1]);
    forall k | 0 <= k < |rest| - 1 ensures Linked(edges, rest[k], rest[k + 1]) {
      assert Linked(edges, path[k + 1], path[k + 1 + 1]);
    }
    assert Walk(edges, rest);
    assert Reaches(edges, other, between);
    ReachesThrough(edges, other, between, parent);
    if other == parent { Antisymmetric(edges, between, parent); }
  }

  lemma SameEdge(h: Hierarchy, k: Hierarchy, e: (nat, nat))
    requires ValidHierarchy(h) && ValidHierarchy(k) && SameSubsumptions(h, k) && h.nodes == k.nodes && e in h.edges
    ensures e in k.edges
  {
    hide Partitions, Acyclic, SameSubsumptions;
    var child, parent := e.0, e.1;
    assert Linked(h.edges, child, parent) && child < |h.nodes| && parent < |h.nodes| && child != parent;
    assert Walk(h.edges, [child, parent]);
    assert Reaches(h.edges, child, parent);
    SameReach(h, k, child, parent);
    var path :| Walk(k.edges, path) && path[0] == child && path[|path| - 1] == parent;
    if |path| > 2 {
      Between(k, path);
      SameReach(h, k, child, path[1]);
      SameReach(h, k, path[1], parent);
      NoDetour(h.edges, child, path[1], parent);
    } else {
      assert Linked(k.edges, path[0], path[0 + 1]);
    }
  }

  lemma Between(h: Hierarchy, path: seq<nat>)
    requires ValidHierarchy(h) && Walk(h.edges, path) && |path| > 2
    ensures path[1] < |h.nodes| && path[1] != path[0] && path[1] != path[|path| - 1]
    ensures Reaches(h.edges, path[0], path[1]) && Reaches(h.edges, path[1], path[|path| - 1])
  {
    assert Linked(h.edges, path[0], path[0 + 1]);
    var rest := path[1..];
    forall k | 0 <= k < |rest| - 1 ensures Linked(h.edges, rest[k], rest[k + 1]) {
      assert Linked(h.edges, path[k + 1], path[k + 1 + 1]);
    }
    assert Walk(h.edges, rest) && Walk(h.edges, [path[0], path[1]]);
    assert Reaches(h.edges, path[0], path[1]) && Reaches(h.edges, path[1], path[|path| - 1]);
    NoLoop(h.edges, rest);
    NoLoop(h.edges, [path[0], path[1]]);
  }

  /** Valid hierarchies that state the same subsumptions have the same nodes and the same edges. */
  lemma HierarchyDetermined(h: Hierarchy, k: Hierarchy)
    requires ValidHierarchy(h) && ValidHierarchy(k) && SameSubsumptions(h, k)
    ensures h.nodes == k.nodes && h.edges == k.edges
  {
    hide Partitions, Acyclic, Reduced, InRange, SameSubsumptions;
    SameNodes(h, k);
    SameSymmetric(h, k);
    forall e ensures e in h.edges <==> e in k.edges {
      if e in h.edges { SameEdge(h, k, e); }
      if e in k.edges { SameEdge(k, h, e); }
    }
    OrderedUnique(PairBefore, h.edges, k.edges);
  }

  lemma SameSymmetric(h: Hierarchy, k: Hierarchy)
    requires SameSubsumptions(h, k)
    ensures SameSubsumptions(k, h)
  {
  }
}
