/**
 The other half of canonical form: every finite preorder of classes has a valid hierarchy that states it. Its
 nodes are the classes of equivalent members, its edges the covering pairs.
 */
module TaxonomyExists {
  import opened Bytes
  import opened Sorting
  import opened Taxonomy
  import opened TaxonomyUnique

  // ---------- Covering pairs of a finite partial order ----------

  /** A partial order of the numbers below `n`. */
  ghost predicate PartialOrder(n: nat, le: (nat, nat) -> bool) {
    && (forall i: nat :: i < n ==> le(i, i))
    && (forall i: nat, j: nat :: i < n && j < n && le(i, j) && le(j, i) ==> i == j)
    && (forall i: nat, j: nat, k: nat :: i < n && j < n && k < n && le(i, j) && le(j, k) ==> le(i, k))
  }

  /** Something lies strictly between. */
  ghost predicate Parted(n: nat, le: (nat, nat) -> bool, i: nat, k: nat, j: nat) {
    k < n && k != i && k != j && le(i, k) && le(k, j)
  }

  ghost predicate Covers(n: nat, le: (nat, nat) -> bool, i: nat, j: nat) {
    i < n && j < n && i != j && le(i, j) && forall k: nat :: !Parted(n, le, i, k, j)
  }

  lemma PairsTotal()
    ensures StrictTotal(PairBefore)
  {
  }

  ghost function Hasse(n: nat, le: (nat, nat) -> bool): (edges: Edges)
    ensures Sorted(PairBefore, edges) && InRange(edges, n)
    ensures forall i: nat, j: nat :: Linked(edges, i, j) <==> Covers(n, le, i, j)
  {
    PairsTotal();
    var pairs := set i: nat, j: nat | i < n && j < n && Covers(n, le, i, j) :: (i, j);
    var edges := SetInOrder(PairBefore, pairs);
    assert forall k :: 0 <= k < |edges| ==> edges[k] in edges;
    edges
  }

  /** Where the edges lead is above. */
  lemma {:induction false} WalkAbove(n: nat, le: (nat, nat) -> bool, path: seq<nat>, k: nat)
    requires PartialOrder(n, le) && Walk(Hasse(n, le), path) && path[0] < n && k < |path|
    ensures path[k] < n && le(path[0], path[k])
  {
    hide Hasse, Covers;
    if k > 0 {
      WalkAbove(n, le, path, k - 1);
      assert Linked(Hasse(n, le), path[k - 1], path[k - 1 + 1]);
      assert Covers(n, le, path[k - 1], path[k]);
      CoverAbove(n, le, path[k - 1], path[k]);
    }
  }

  lemma CoverAbove(n: nat, le: (nat, nat) -> bool, i: nat, j: nat)
    requires Covers(n, le, i, j)
    ensures i < n && j < n && i != j && le(i, j)
  {
  }

  ghost function Between(n: nat, le: (nat, nat) -> bool, i: nat, j: nat): set<nat> {
    set k: nat | k < n && le(i, k) && le(k, j)
  }

  lemma SmallerSet(a: set<nat>, b: set<nat>, x: nat)
    requires a <= b && x in b && x !in a
    ensures |a| < |b|
  {
    Contained(a, b - {x});
  }

  /** Whatever is above is reached, by ever smaller intervals. */
  lemma {:induction false} AboveReached(n: nat, le: (nat, nat) -> bool, i: nat, j: nat)
    requires PartialOrder(n, le) && i < n && j < n && le(i, j)
    ensures Reaches(Hasse(n, le), i, j)
    decreases |Between(n, le, i, j)|
  {
    var edges := Hasse(n, le);
    if i == j {
      ReachesItself(edges, i);
    } else if Covers(n, le, i, j) {
      assert Walk(edges, [i, j]) by { assert Linked(edges, i, j); }
    } else {
      var k: nat :| Parted(n, le, i, k, j);
      SmallerSet(Between(n, le, i, k), Between(n, le, i, j), j);
      SmallerSet(Between(n, le, k, j), Between(n, le, i, j), i);
      AboveReached(n, le, i, k);
      AboveReached(n, le, k, j);
      ReachesThrough(edges, i, k, j);
    }
  }

  /** The covering pairs reach exactly what is above. */
  lemma HasseReaches(n: nat, le: (nat, nat) -> bool, i: nat, j: nat)
    requires PartialOrder(n, le) && i < n && j < n
    ensures Reaches(Hasse(n, le), i, j) <==> le(i, j)
  {
    hide Hasse;
    if Reaches(Hasse(n, le), i, j) {
      var path :| Walk(Hasse(n, le), path) && path[0] == i && path[|path| - 1] == j;
      WalkAbove(n, le, path, |path| - 1);
    }
    if le(i, j) { AboveReached(n, le, i, j); }
  }

  ghost function Down(n: nat, le: (nat, nat) -> bool, i: nat): set<nat> {
    set k: nat | k < n && le(k, i)
  }

  lemma HasseAcyclic(n: nat, le: (nat, nat) -> bool)
    requires PartialOrder(n, le)
    ensures Acyclic(Hasse(n, le))
  {
    var edges := Hasse(n, le);
    var rank: map<nat, nat> := map i: nat | i < n :: |Down(n, le, i)|;
    forall k | 0 <= k < |edges|
      ensures edges[k].0 in rank && edges[k].1 in rank && rank[edges[k].0] < rank[edges[k].1]
    {
      var i, j := edges[k].0, edges[k].1;
      assert Linked(edges, i, j);
      CoverAbove(n, le, i, j);
      SmallerSet(Down(n, le, i), Down(n, le, j), j);
    }
    assert Ranks(edges, rank);
  }

  lemma HasseReduced(n: nat, le: (nat, nat) -> bool)
    requires PartialOrder(n, le)
    ensures Reduced(Hasse(n, le))
  {
    hide Hasse, Reaches;
    var edges := Hasse(n, le);
    forall child: nat, parent: nat ensures !Redundant(edges, child, parent) {
      if Redundant(edges, child, parent) {
        var other: nat :| other != parent && Linked(edges, child, other) && Reaches(edges, other, parent);
        CoverAbove(n, le, child, other);
        CoverAbove(n, le, child, parent);
        assert !Parted(n, le, child, other, parent);
        HasseReaches(n, le, other, parent);
      }
    }
  }

  // ---------- Classes of equivalent members ----------

  ghost predicate Preorder(members: set<nat>, below: (nat, nat) -> bool) {
    && (forall x :: x in members ==> below(x, x))
    && (forall x, y, z :: x in members && y in members && z in members && below(x, y) && below(y, z) ==> below(x, z))
  }

  ghost function Equivalent(members: set<nat>, below: (nat, nat) -> bool, x: nat): set<nat> {
    set y | y in members && below(x, y) && below(y, x)
  }

  /** The least member of each class. */
  ghost function Leaders(members: set<nat>, below: (nat, nat) -> bool): set<nat> {
    set x | x in members && forall y :: y in Equivalent(members, below, x) ==> x <= y
  }

  lemma SmallerTotal()
    ensures StrictTotal(Smaller)
  {
  }

  ghost function InOrder(s: set<nat>): (q: seq<nat>)
    ensures Rising(q) && forall x :: x in q <==> x in s
  {
    SmallerTotal();
    var q := SetInOrder(Smaller, s);
    assert forall i, j :: 0 <= i < j < |q| ==> Smaller(q[i], q[j]);
    q
  }

  lemma {:induction false} LeastExists(s: set<nat>) returns (x: nat)
    requires s != {}
    ensures x in s && forall y :: y in s ==> x <= y
    decreases |s|
  {
    var z :| z in s;
    assert forall w :: w in s ==> w == z || w in s - {z};
    if s - {z} == {} {
      return z;
    }
    var y := LeastExists(s - {z});
    x := if z < y then z else y;
  }

  /** Every member has the leader of its class. */
  lemma LeaderOf(members: set<nat>, below: (nat, nat) -> bool, x: nat) returns (leader: nat)
    requires Preorder(members, below) && x in members
    ensures leader in Leaders(members, below) && below(x, leader) && below(leader, x)
  {
    assert x in Equivalent(members, below, x);
    leader := LeastExists(Equivalent(members, below, x));
    forall y | y in Equivalent(members, below, leader) ensures leader <= y {
      assert y in Equivalent(members, below, x);
    }
  }

  /** Equivalent leaders are the same. */
  lemma LeadersDiffer(members: set<nat>, below: (nat, nat) -> bool, a: nat, b: nat)
    requires a in Leaders(members, below) && b in Leaders(members, below) && below(a, b) && below(b, a)
    ensures a == b
  {
    assert b in Equivalent(members, below, a) && a in Equivalent(members, below, b);
  }

  ghost function Groups(members: set<nat>, below: (nat, nat) -> bool): (groups: seq<seq<nat>>)
    ensures |groups| == |InOrder(Leaders(members, below))|
  {
    var leaders := InOrder(Leaders(members, below));
    seq(|leaders|, i requires 0 <= i < |leaders| => InOrder(Equivalent(members, below, leaders[i])))
  }

  /** Group `i` is the class of leader `i`, which comes first. */
  lemma GroupIs(members: set<nat>, below: (nat, nat) -> bool, i: nat)
    requires Preorder(members, below) && i < |Groups(members, below)|
    ensures
      var leader, group := InOrder(Leaders(members, below))[i], Groups(members, below)[i];
      && leader in Leaders(members, below) && group != [] && Rising(group) && group[0] == leader
      && forall y :: y in group <==> y in members && below(leader, y) && below(y, leader)
  {
    var leader, group := InOrder(Leaders(members, below))[i], Groups(members, below)[i];
    assert leader in InOrder(Leaders(members, below));
    assert leader in Equivalent(members, below, leader);
    assert leader in group;
    assert group[0] in group;
    var k :| 0 <= k < |group| && group[k] == leader;
    assert group[0] <= group[k];
  }

  lemma GroupsPartition(members: set<nat>, below: (nat, nat) -> bool)
    requires Preorder(members, below)
    ensures Partitions(Groups(members, below))
  {
    hide Groups, InOrder, Leaders;
    var groups, leaders := Groups(members, below), InOrder(Leaders(members, below));
    forall i | 0 <= i < |groups| ensures groups[i] != [] && Rising(groups[i]) && groups[i][0] == leaders[i] {
      GroupIs(members, below, i);
    }
    forall i, j | 0 <= i < j < |groups| ensures Apart(groups[i], groups[j]) {
      GroupIs(members, below, i);
      GroupIs(members, below, j);
      forall a, b | 0 <= a < |groups[i]| && 0 <= b < |groups[j]| ensures groups[i][a] != groups[j][b] {
        var x, y := groups[i][a], groups[j][b];
        assert x in groups[i] && y in groups[j];
        if x == y {
          LeaderMember(members, below, leaders[i]);
          LeaderMember(members, below, leaders[j]);
          LeadersDiffer(members, below, leaders[i], leaders[j]);
        }
      }
    }
    forall i, j | 0 <= i < j < |groups|
      ensures 0 < |groups[i]| && 0 < |groups[j]| && groups[i][0] < groups[j][0]
    {
      assert groups[i][0] == leaders[i] && groups[j][0] == leaders[j];
    }
  }

  lemma LeaderMember(members: set<nat>, below: (nat, nat) -> bool, x: nat)
    requires x in Leaders(members, below)
    ensures x in members
  {
  }

  // ---------- The hierarchy ----------

  ghost function Order(leaders: seq<nat>, below: (nat, nat) -> bool): (nat, nat) -> bool {
    (i: nat, j: nat) => i < |leaders| && j < |leaders| && below(leaders[i], leaders[j])
  }

  lemma OrderIsPartial(members: set<nat>, below: (nat, nat) -> bool)
    requires Preorder(members, below)
    ensures
      var leaders := InOrder(Leaders(members, below));
      PartialOrder(|leaders|, Order(leaders, below))
  {
    hide InOrder, Leaders;
    var leaders := InOrder(Leaders(members, below));
    var le := Order(leaders, below);
    forall i: nat | i < |leaders| ensures leaders[i] in Leaders(members, below) && leaders[i] in members {
      assert leaders[i] in leaders;
      LeaderMember(members, below, leaders[i]);
    }
    forall i: nat, j: nat | i < |leaders| && j < |leaders| && le(i, j) && le(j, i) ensures i == j {
      LeadersDiffer(members, below, leaders[i], leaders[j]);
    }
  }

  /** The hierarchy states exactly this preorder of exactly these members. */
  ghost predicate States(h: Hierarchy, members: set<nat>, below: (nat, nat) -> bool) {
    forall x: nat, y: nat :: Subsumed(h, x, y) <==> x in members && y in members && below(x, y)
  }

  lemma MemberPlace(members: set<nat>, below: (nat, nat) -> bool, x: nat) returns (i: nat)
    requires Preorder(members, below) && x in members
    ensures i < |Groups(members, below)| && x in Groups(members, below)[i]
  {
    hide Groups, InOrder, Leaders;
    var leader := LeaderOf(members, below, x);
    var leaders := InOrder(Leaders(members, below));
    i :| 0 <= i < |leaders| && leaders[i] == leader;
    GroupIs(members, below, i);
  }

  /** Members of two groups are related as their leaders are. */
  lemma GroupsRelate(members: set<nat>, below: (nat, nat) -> bool, x: nat, y: nat, i: nat, j: nat)
    requires Preorder(members, below) && i < |Groups(members, below)| && j < |Groups(members, below)|
    requires x in Groups(members, below)[i] && y in Groups(members, below)[j]
    ensures x in members && y in members
    ensures
      var leaders := InOrder(Leaders(members, below));
      below(x, y) <==> below(leaders[i], leaders[j])
  {
    hide Groups, InOrder, Leaders;
    var leaders := InOrder(Leaders(members, below));
    GroupIs(members, below, i);
    GroupIs(members, below, j);
    LeaderMember(members, below, leaders[i]);
    LeaderMember(members, below, leaders[j]);
  }

  ghost function HierarchyOf(members: set<nat>, below: (nat, nat) -> bool, top: nat, bottom: nat): Hierarchy {
    var leaders := InOrder(Leaders(members, below));
    Hierarchy(Groups(members, below), Hasse(|leaders|, Order(leaders, below)), top, bottom)
  }

  lemma HierarchyStates(members: set<nat>, below: (nat, nat) -> bool, top: nat, bottom: nat)
    requires Preorder(members, below)
    ensures States(HierarchyOf(members, below, top, bottom), members, below)
  {
    hide Groups, InOrder, Leaders, Hasse, Partitions, Reaches;
    var leaders := InOrder(Leaders(members, below));
    var h, le := HierarchyOf(members, below, top, bottom), Order(leaders, below);
    GroupsPartition(members, below);
    OrderIsPartial(members, below);
    forall x: nat, y: nat ensures Subsumed(h, x, y) <==> x in members && y in members && below(x, y) {
      if Subsumed(h, x, y) {
        var i, j :| In(h, x, i) && In(h, y, j) && Reaches(h.edges, i, j);
        GroupsRelate(members, below, x, y, i, j);
        HasseReaches(|leaders|, le, i, j);
      }
      if x in members && y in members && below(x, y) {
        var i := MemberPlace(members, below, x);
        var j := MemberPlace(members, below, y);
        GroupsRelate(members, below, x, y, i, j);
        HasseReaches(|leaders|, le, i, j);
        assert In(h, x, i) && In(h, y, j);
      }
    }
  }

  /**
   Every preorder of finitely many classes, with a top and a bottom among them and fewer groups of equivalent
   classes than 32 bits count, has a valid hierarchy that states it; by its canonical form it has no other.
   */
  lemma HierarchyExists(members: set<nat>, below: (nat, nat) -> bool, top: nat, bottom: nat) returns (h: Hierarchy)
    requires Preorder(members, below) && top in members && bottom in members
    requires |InOrder(Leaders(members, below))| < U32_LIMIT
    ensures ValidHierarchy(h) && States(h, members, below) && In(h, top, h.top) && In(h, bottom, h.bottom)
    ensures forall k :: ValidHierarchy(k) && States(k, members, below) ==> k.nodes == h.nodes && k.edges == h.edges
  {
    hide Groups, InOrder, Leaders, Hasse, Partitions, Reaches, States, Reduced, Acyclic, InRange, ValidHierarchy;
    var leaders := InOrder(Leaders(members, below));
    var i := MemberPlace(members, below, top);
    var j := MemberPlace(members, below, bottom);
    h := HierarchyOf(members, below, i, j);
    GroupsPartition(members, below);
    OrderIsPartial(members, below);
    HasseAcyclic(|leaders|, Order(leaders, below));
    HasseReduced(|leaders|, Order(leaders, below));
    HierarchyStates(members, below, i, j);
    assert ValidHierarchy(h) by { AllValid(h); }
    forall k | ValidHierarchy(k) && States(k, members, below) ensures k.nodes == h.nodes && k.edges == h.edges {
      StatesSame(h, k, members, below);
      HierarchyDetermined(k, h);
    }
  }

  lemma AllValid(h: Hierarchy)
    requires h.nodes != [] && Partitions(h.nodes) && |h.nodes| < U32_LIMIT && h.top < |h.nodes| && h.bottom < |h.nodes|
    requires Sorted(PairBefore, h.edges) && InRange(h.edges, |h.nodes|) && Acyclic(h.edges) && Reduced(h.edges)
    ensures ValidHierarchy(h)
  {
  }

  lemma StatesSame(h: Hierarchy, k: Hierarchy, members: set<nat>, below: (nat, nat) -> bool)
    requires States(h, members, below) && States(k, members, below)
    ensures SameSubsumptions(k, h)
  {
  }
}
