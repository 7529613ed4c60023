/**
 Splitting the datatype constraints of a tableau into connected components. Nodes are constrained by
 data ranges and fixed values and linked by inequalities; each component is solved on its own.
 */
module Components {
  import opened Sorting

  /** A canonical tableau node. */
  type Handle = nat

  datatype RangeRow = RangeRow(node: Handle, rangeId: nat, positive: bool, participant: nat)
  datatype FixedRow<V> = FixedRow(node: Handle, value: V)
  datatype InequalityRow = InequalityRow(left: Handle, right: Handle, participant: nat)

  /** Constraints on solver variables; a variable is the creation rank of a node. */
  datatype RangeConstraint = RangeConstraint(variable: nat, rangeId: nat, positive: bool)
  datatype FixedConstraint<V> = FixedConstraint(variable: nat, value: V)
  datatype InequalityConstraint = InequalityConstraint(left: nat, right: nat)

  datatype Component<V> = Component(
    variables: seq<nat>,
    ranges: seq<RangeConstraint>,
    fixedValues: seq<FixedConstraint<V>>,
    inequalities: seq<InequalityConstraint>,
    participants: seq<nat>)

  /** What projecting the active facts yields. */
  datatype Projection<V> = Projection(
    rank: map<Handle, nat>,
    handles: set<Handle>,
    adjacency: map<Handle, set<Handle>>,
    ranges: seq<RangeRow>,
    fixed: seq<FixedRow<V>>,
    inequalities: seq<InequalityRow>)

  // ---------- Projection ----------

  datatype Fact = RangeFact(node: Handle, rangeId: nat, positive: bool, row: nat) |
    InequalityFact(left: Handle, right: Handle, row: nat) | OtherFact

  function Neighbours(adjacency: map<Handle, set<Handle>>, h: Handle): set<Handle> {
    if h in adjacency then adjacency[h] else {}
  }

  function Link(adjacency: map<Handle, set<Handle>>, from: Handle, to: Handle): map<Handle, set<Handle>> {
    adjacency[from := Neighbours(adjacency, from) + {to}]
  }

  /** The adjacency is symmetric, over exactly the constrained nodes, and has an edge for every inequality. */
  ghost predicate Faithful<V>(p: Projection<V>) {
    && p.handles <= p.rank.Keys
    && p.adjacency.Keys == p.handles
    && (forall i :: 0 <= i < |p.ranges| ==> p.ranges[i].node in p.handles)
    && (forall i :: 0 <= i < |p.fixed| ==> p.fixed[i].node in p.handles)
    && (forall i :: 0 <= i < |p.inequalities| ==>
       p.inequalities[i].left in p.handles && p.inequalities[i].right in p.handles)
    && (forall x, y :: x in p.adjacency && y in p.adjacency[x] ==> y in p.adjacency && x in p.adjacency[y])
    && (forall i :: 0 <= i < |p.inequalities| ==>
       p.inequalities[i].right in Neighbours(p.adjacency, p.inequalities[i].left))
  }

  ghost predicate Linked(inequalities: seq<InequalityRow>, x: Handle, y: Handle) {
    exists i :: 0 <= i < |inequalities| && Joins(inequalities[i], x, y)
  }

  ghost predicate Joins(row: InequalityRow, x: Handle, y: Handle) {
    (row.left == x && row.right == y) || (row.left == y && row.right == x)
  }

  /** No edge without an inequality. */
  ghost predicate Justified<V>(p: Projection<V>) {
    forall x, y :: x in p.adjacency && y in p.adjacency[x] ==> Linked(p.inequalities, x, y)
  }

  /** One more fact row: a range constrains its node, an inequality links its two nodes both ways. */
  function Add<V>(p: Projection<V>, f: Fact): Projection<V> {
    match f
    case RangeFact(node, rangeId, positive, row) =>
      p.(ranges := p.ranges + [RangeRow(node, rangeId, positive, row)],
         handles := p.handles + {node},
         adjacency := p.adjacency[node := Neighbours(p.adjacency, node)])
    case InequalityFact(left, right, row) =>
      p.(inequalities := p.inequalities + [InequalityRow(left, right, row)],
         handles := p.handles + {left, right},
         adjacency := Link(Link(p.adjacency, left, right), right, left))
    case OtherFact => p
  }

  ghost predicate Ranked(rank: map<Handle, nat>, f: Fact) {
    (f.RangeFact? ==> f.node in rank) && (f.InequalityFact? ==> f.left in rank && f.right in rank)
  }

  lemma AddFaithful<V>(p: Projection<V>, f: Fact)
    requires Faithful(p) && Ranked(p.rank, f)
    ensures Faithful(Add(p, f))
    ensures forall h :: h in Add(p, f).handles <==> h in p.handles || Touches(f, h)
  {
    var q := Add(p, f);
    if f.InequalityFact? {
      LinkBoth(p, f.left, f.right);
      forall i | 0 <= i < |q.inequalities|
        ensures q.inequalities[i].right in Neighbours(q.adjacency, q.inequalities[i].left)
      {
        assert i < |p.inequalities| ==> p.inequalities[i].right in Neighbours(p.adjacency, p.inequalities[i].left);
      }
    }
  }

  /** Linking two nodes both ways keeps the adjacency symmetric and only adds neighbours. */
  lemma LinkBoth<V>(p: Projection<V>, left: Handle, right: Handle)
    requires forall x, y :: x in p.adjacency && y in p.adjacency[x] ==> y in p.adjacency && x in p.adjacency[y]
    ensures var linked := Link(Link(p.adjacency, left, right), right, left);
            && linked.Keys == p.adjacency.Keys + {left, right}
            && right in Neighbours(linked, left)
            && (forall x :: Neighbours(p.adjacency, x) <= Neighbours(linked, x))
            && forall x, y :: x in linked && y in linked[x] ==> y in linked && x in linked[y]
  {
  }

  lemma AddJustified<V>(p: Projection<V>, f: Fact)
    requires Justified(p)
    ensures Justified(Add(p, f))
  {
    var q := Add(p, f);
    forall x, y | x in q.adjacency && y in q.adjacency[x] ensures Linked(q.inequalities, x, y) {
      if x in p.adjacency && y in p.adjacency[x] {
        var i :| 0 <= i < |p.inequalities| && Joins(p.inequalities[i], x, y);
        assert Joins(q.inequalities[i], x, y);
      } else {
        assert Joins(q.inequalities[|p.inequalities|], x, y);
      }
    }
  }

  /** What a literal identity carries: payloads with a known data identity, or opaque ones. */
  datatype Payload<V> = Semantic(identity: V) | Opaque

  datatype LiteralRow<V> = LiteralRow(node: Handle, payloads: seq<Payload<V>>)

  /** The literal fixes its node: the node is constrained and there is a first payload. */
  predicate Fixes<V>(literal: LiteralRow<V>, handles: set<Handle>) {
    literal.node in handles && literal.payloads != []
  }

  /** No literal that fixes a constrained node has an opaque first payload. */
  ghost predicate Supported<V>(literals: seq<LiteralRow<V>>, handles: set<Handle>) {
    forall i :: 0 <= i < |literals| && Fixes(literals[i], handles) ==> literals[i].payloads[0].Semantic?
  }

  /** The first payload of every literal that fixes its node. */
  ghost function Constrained<V>(literals: seq<LiteralRow<V>>, handles: set<Handle>): seq<FixedRow<V>>
    requires Supported(literals, handles)
  {
    if literals == [] then []
    else
      var last, before := literals[|literals| - 1], Constrained(literals[..|literals| - 1], handles);
      if Fixes(last, handles) then before + [FixedRow(last.node, last.payloads[0].identity)] else before
  }

  /**
   Projects the fact rows, then the literals whose node is already constrained; an opaque literal there is
   refused.
   */
  method Project<V>(
    rank: map<Handle, nat>, facts: seq<Fact>, literals: seq<LiteralRow<V>>)
    returns (ok: bool, p: Projection<V>)
    requires forall i :: 0 <= i < |facts| ==> Ranked(rank, facts[i])
    ensures Faithful(p) && Justified(p) && p.rank == rank
    ensures p.ranges == RangesOf(facts) && p.inequalities == InequalitiesOf(facts)
    ensures forall h :: h in p.handles <==> Mentioned(facts, h)
    ensures ok <==> Supported(literals, p.handles)
    ensures ok ==> p.fixed == Constrained(literals, p.handles)
  {
    hide Faithful, Justified;
    p := ProjectFacts(rank, facts);
    var fixed: seq<FixedRow<V>> := [];
    assert literals[..0] == [];
    for i := 0 to |literals|
      invariant Supported(literals[..i], p.handles) && fixed == Constrained(literals[..i], p.handles)
      invariant forall j :: 0 <= j < |fixed| ==> fixed[j].node in p.handles
    {
      assert literals[..i + 1][..i] == literals[..i];
      if Fixes(literals[i], p.handles) {
        if literals[i].payloads[0].Opaque? {
          return false, p;
        }
        fixed := fixed + [FixedRow(literals[i].node, literals[i].payloads[0].identity)];
      }
    }
    assert literals[..|literals|] == literals;
    FixedFaithful(p, fixed);
    return true, p.(fixed := fixed);
  }

  method ProjectFacts<V>(rank: map<Handle, nat>, facts: seq<Fact>) returns (p: Projection<V>)
    requires forall i :: 0 <= i < |facts| ==> Ranked(rank, facts[i])
    ensures Faithful(p) && Justified(p) && p.rank == rank && p.fixed == []
    ensures p.ranges == RangesOf(facts) && p.inequalities == InequalitiesOf(facts)
    ensures forall h :: h in p.handles <==> Mentioned(facts, h)
  {
    hide Faithful, Justified;
    p := Projection(rank, {}, map[], [], [], []);
    EmptyFaithful(p);
    assert facts[..0] == [];
    for i := 0 to |facts|
      invariant Faithful(p) && Justified(p) && p.rank == rank && p.fixed == []
      invariant p.ranges == RangesOf(facts[..i]) && p.inequalities == InequalitiesOf(facts[..i])
      invariant forall h :: h in p.handles <==> Mentioned(facts[..i], h)
    {
      assert facts[..i + 1] == facts[..i] + [facts[i]];
      MentionedNext(facts[..i], facts[i]);
      AddFaithful(p, facts[i]);
      AddJustified(p, facts[i]);
      p := Add(p, facts[i]);
    }
    assert facts[..|facts|] == facts;
  }

  lemma EmptyFaithful<V>(p: Projection<V>)
    requires p.handles == {} && p.adjacency == map[] && p.ranges == [] && p.fixed == [] && p.inequalities == []
    ensures Faithful(p) && Justified(p)
  {
  }

  lemma FixedFaithful<V>(p: Projection<V>, fixed: seq<FixedRow<V>>)
    requires Faithful(p) && Justified(p) && forall j :: 0 <= j < |fixed| ==> fixed[j].node in p.handles
    ensures Faithful(p.(fixed := fixed)) && Justified(p.(fixed := fixed))
  {
  }

  ghost predicate Mentioned(facts: seq<Fact>, h: Handle) {
    exists i :: 0 <= i < |facts| && Touches(facts[i], h)
  }

  ghost predicate Touches(f: Fact, h: Handle) {
    (f.RangeFact? && f.node == h) || (f.InequalityFact? && (f.left == h || f.right == h))
  }

  lemma MentionedNext(facts: seq<Fact>, f: Fact)
    ensures forall h :: Mentioned(facts + [f], h) <==> Mentioned(facts, h) || Touches(f, h)
  {
    forall h ensures Mentioned(facts + [f], h) <==> Mentioned(facts, h) || Touches(f, h) {
      if Mentioned(facts, h) {
        var i :| 0 <= i < |facts| && Touches(facts[i], h);
        assert Touches((facts + [f])[i], h);
      }
      if Touches(f, h) {
        assert Touches((facts + [f])[|facts|], h);
      }
    }
  }

  ghost function RangesOf(facts: seq<Fact>): seq<RangeRow> {
    if facts == [] then [] else
    var f := facts[|facts| - 1];
    RangesOf(facts[..|facts| - 1]) + if f.RangeFact? then [RangeRow(f.node, f.rangeId, f.positive, f.row)] else []
  }

  ghost function InequalitiesOf(facts: seq<Fact>): seq<InequalityRow> {
    if facts == [] then [] else
    var f := facts[|facts| - 1];
    InequalitiesOf(facts[..|facts| - 1]) + if f.InequalityFact? then [InequalityRow(f.left, f.right, f.row)] else []
  }

  // ---------- The split ----------

  /** Closed under adjacency. */
  ghost predicate Closed(adjacency: map<Handle, set<Handle>>, group: set<Handle>) {
    forall h :: h in group ==> Neighbours(adjacency, h) <= group
  }

  ghost predicate Walk(adjacency: map<Handle, set<Handle>>, path: seq<Handle>) {
    |path| >= 1 && forall i {:trigger path[i]} :: 1 <= i < |path| ==> path[i] in Neighbours(adjacency, path[i - 1])
  }

  ghost predicate Connects(adjacency: map<Handle, set<Handle>>, a: Handle, b: Handle) {
    exists path :: Walk(adjacency, path) && path[0] == a && path[|path| - 1] == b
  }

  lemma ConnectSelf(adjacency: map<Handle, set<Handle>>, a: Handle)
    ensures Connects(adjacency, a, a)
  {
    assert Walk(adjacency, [a]);
  }

  lemma ConnectStep(adjacency: map<Handle, set<Handle>>, a: Handle, b: Handle, c: Handle)
    requires Connects(adjacency, a, b) && c in Neighbours(adjacency, b)
    ensures Connects(adjacency, a, c)
  {
    var path :| Walk(adjacency, path) && path[0] == a && path[|path| - 1] == b;
    var longer := path + [c];
    forall i | 1 <= i < |longer| ensures longer[i] in Neighbours(adjacency, longer[i - 1]) {
      assert i < |path| ==> path[i] in Neighbours(adjacency, path[i - 1]);
    }
    assert Walk(adjacency, longer);
  }

  /** The seed: the unseen node of least rank. */
  method Seed(unseen: set<Handle>, rank: map<Handle, nat>) returns (seed: Handle)
    requires unseen != {} && unseen <= rank.Keys
    ensures seed in unseen && forall h :: h in unseen ==> rank[seed] <= rank[h]
  {
    var rest := unseen;
    seed :| seed in rest;
    while rest != {}
      invariant rest <= unseen && seed in unseen
      invariant forall h :: h in unseen - rest ==> rank[seed] <= rank[h]
      decreases |rest|
    {
      var h :| h in rest;
      if rank[h] < rank[seed] { seed := h; }
      rest := rest - {h};
    }
  }

  /** The elements of a set, in some order. */
  method Elements(s: set<Handle>) returns (xs: seq<Handle>)
    ensures forall x :: x in xs <==> x in s
  {
    var rest := s;
    xs := [];
    while rest != {}
      invariant rest <= s && forall x :: x in xs <==> x in s - rest
      decreases |rest|
    {
      var x :| x in rest;
      xs, rest := xs + [x], rest - {x};
    }
  }

  /** Everything connected to a seed, by a stack of pending nodes. */
  method Gather(
    adjacency: map<Handle, set<Handle>>, seed: Handle, ghost universe: set<Handle>)
    returns (members: set<Handle>)
    requires seed in universe && Closed(adjacency, universe)
    ensures seed in members && members <= universe && Closed(adjacency, members)
    ensures forall h :: h in members ==> Connects(adjacency, seed, h)
  {
    var pending := [seed];
    members := {};
    ConnectSelf(adjacency, seed);
    while pending != []
      invariant members <= universe && (forall h :: h in pending ==> h in universe)
      invariant forall h :: h in members || h in pending ==> Connects(adjacency, seed, h)
      invariant seed in members || seed in pending
      invariant forall h, n :: h in members && n in Neighbours(adjacency, h) ==> n in members || n in pending
      decreases universe - members, |pending|
    {
      var current := pending[|pending| - 1];
      var rest := pending[..|pending| - 1];
      assert forall h :: h in pending <==> h in rest || h == current;
      if current in members {
        pending := rest;
      } else {
        var extra := Elements(Neighbours(adjacency, current) - (members + {current}));
        forall h | h in extra ensures Connects(adjacency, seed, h) {
          ConnectStep(adjacency, seed, current, h);
        }
        members := members + {current};
        pending := rest + extra;
      }
    }
  }

  // ---------- Extracting one component ----------

  function RangesIn(rank: map<Handle, nat>, rows: seq<RangeRow>, members: set<Handle>): seq<RangeConstraint>
    requires forall i :: 0 <= i < |rows| ==> rows[i].node in rank
  {
    if rows == [] then [] else
    (if rows[0].node in members then [RangeConstraint(rank[rows[0].node], rows[0].rangeId, rows[0].positive)] else []) +
      RangesIn(rank, rows[1..], members)
  }

  function FixedIn<V>(rank: map<Handle, nat>, rows: seq<FixedRow<V>>, members: set<Handle>): seq<FixedConstraint<V>>
    requires forall i :: 0 <= i < |rows| ==> rows[i].node in rank
  {
    if rows == [] then [] else
    (if rows[0].node in members then [FixedConstraint(rank[rows[0].node], rows[0].value)] else []) +
      FixedIn(rank, rows[1..], members)
  }

  function InequalitiesIn(
    rank: map<Handle, nat>, rows: seq<InequalityRow>, members: set<Handle>): seq<InequalityConstraint>
    requires forall i :: 0 <= i < |rows| ==> rows[i].left in rank && rows[i].right in rank
  {
    if rows == [] then [] else
    (if rows[0].left in members &&
      rows[0].right in members then [InequalityConstraint(rank[rows[0].left], rank[rows[0].right])] else []) +
      InequalitiesIn(rank, rows[1..], members)
  }

  function ParticipantsIn(ranges: seq<RangeRow>, inequalities: seq<InequalityRow>, members: set<Handle>): seq<nat> {
    if ranges != [] then
      (if ranges[0].node in members then [ranges[0].participant] else []) +
        ParticipantsIn(ranges[1..], inequalities, members)
    else if inequalities != [] then
      (if inequalities[0].left in members && inequalities[0].right in members then [inequalities[0].participant]
        else []) + ParticipantsIn([], inequalities[1..], members)
    else []
  }

  lemma {:induction false} RangesInIff(
    rank: map<Handle, nat>, rows: seq<RangeRow>, members: set<Handle>, c: RangeConstraint)
    requires forall i :: 0 <= i < |rows| ==> rows[i].node in rank
    ensures c in RangesIn(rank, rows, members) <==>
      exists i ::
        0 <= i < |rows| && rows[i].node in members &&
        c == RangeConstraint(rank[rows[i].node], rows[i].rangeId, rows[i].positive)
  {
    if rows != [] {
      RangesInIff(rank, rows[1..], members, c);
      assert forall i :: 1 <= i < |rows| ==> rows[i] == rows[1..][i - 1];
    }
  }

  lemma {:induction false} FixedInIff<V>(
    rank: map<Handle, nat>, rows: seq<FixedRow<V>>, members: set<Handle>, c: FixedConstraint<V>)
    requires forall i :: 0 <= i < |rows| ==> rows[i].node in rank
    ensures c in FixedIn(rank, rows, members) <==>
      exists i :: 0 <= i < |rows| && rows[i].node in members && c == FixedConstraint(rank[rows[i].node], rows[i].value)
  {
    if rows != [] {
      FixedInIff(rank, rows[1..], members, c);
      assert forall i :: 1 <= i < |rows| ==> rows[i] == rows[1..][i - 1];
    }
  }

  lemma {:induction false} InequalitiesInIff(
    rank: map<Handle, nat>, rows: seq<InequalityRow>, members: set<Handle>, c: InequalityConstraint)
    requires forall i :: 0 <= i < |rows| ==> rows[i].left in rank && rows[i].right in rank
    ensures c in InequalitiesIn(rank, rows, members) <==>
      exists i ::
        0 <= i < |rows| && rows[i].left in members && rows[i].right in members &&
        c == InequalityConstraint(rank[rows[i].left], rank[rows[i].right])
  {
    if rows != [] {
      InequalitiesInIff(rank, rows[1..], members, c);
      assert forall i :: 1 <= i < |rows| ==> rows[i] == rows[1..][i - 1];
    }
  }

  /** The row constrains a member, or tells two members apart. */
  ghost predicate Participates(
    ranges: seq<RangeRow>, inequalities: seq<InequalityRow>, members: set<Handle>, row: nat)
  {
    || (exists i :: 0 <= i < |ranges| && ranges[i].node in members && ranges[i].participant == row)
    || (exists i :: 0 <= i < |inequalities| && inequalities[i].left in members && inequalities[i].right in members
          && inequalities[i].participant == row)
  }

  lemma {:induction false} ParticipantsInIff(
    ranges: seq<RangeRow>, inequalities: seq<InequalityRow>, members: set<Handle>, row: nat)
    ensures row in ParticipantsIn(ranges, inequalities, members) <==> Participates(ranges, inequalities, members, row)
    decreases |ranges|, |inequalities|
  {
    if ranges != [] {
      ParticipantsInIff(ranges[1..], inequalities, members, row);
      assert forall i :: 1 <= i < |ranges| ==> ranges[i] == ranges[1..][i - 1];
    } else if inequalities != [] {
      ParticipantsInIff([], inequalities[1..], members, row);
      assert forall i :: 1 <= i < |inequalities| ==> inequalities[i] == inequalities[1..][i - 1];
    }
  }

  lemma ParticipantsInAll(ranges: seq<RangeRow>, inequalities: seq<InequalityRow>, members: set<Handle>)
    ensures forall row :: row in ParticipantsIn(ranges, inequalities, members) <==>
      Participates(ranges, inequalities, members, row)
  {
    forall row
      ensures row in ParticipantsIn(ranges, inequalities, members) <==> Participates(ranges, inequalities, members, row)
    {
      ParticipantsInIff(ranges, inequalities, members, row);
    }
  }

  lemma FaithfulRanks<V>(p: Projection<V>)
    requires Faithful(p)
    ensures forall i :: 0 <= i < |p.ranges| ==> p.ranges[i].node in p.rank
    ensures forall i :: 0 <= i < |p.fixed| ==> p.fixed[i].node in p.rank
    ensures forall i :: 0 <= i < |p.inequalities| ==>
      p.inequalities[i].left in p.rank && p.inequalities[i].right in p.rank
  {
  }

  /** The component of a group of nodes: its variables, and the constraints that fall inside it. */
  ghost predicate IsComponent<V>(p: Projection<V>, members: set<Handle>, c: Component<V>)
    requires Faithful(p) && members <= p.handles
  {
    FaithfulRanks(p);
    && Rising(c.variables) && (forall v :: v in c.variables <==> exists h :: h in members && p.rank[h] == v)
    && c.ranges == RangesIn(p.rank, p.ranges, members)
    && c.fixedValues == FixedIn(p.rank, p.fixed, members)
    && c.inequalities == InequalitiesIn(p.rank, p.inequalities, members)
    && Rising(c.participants) && (forall x :: x in c.participants <==>
       Participates(p.ranges, p.inequalities, members, x))
  }

  method Extract<V>(p: Projection<V>, members: set<Handle>) returns (c: Component<V>)
    requires Faithful(p) && members <= p.handles
    ensures IsComponent(p, members, c)
  {
    FaithfulRanks(p);
    var ranks := Ranks(p.rank, members);
    var involved := ParticipantsIn(p.ranges, p.inequalities, members);
    UnionKeeps([], ranks);
    UnionKeeps([], involved);
    ParticipantsInAll(p.ranges, p.inequalities, members);
    var variables, participants := Union([], ranks), Union([], involved);
    c := Component(variables, RangesIn(p.rank, p.ranges, members), FixedIn(p.rank, p.fixed, members),
      InequalitiesIn(p.rank, p.inequalities, members), participants);
  }

  method Ranks(rank: map<Handle, nat>, members: set<Handle>) returns (ranks: seq<nat>)
    requires members <= rank.Keys
    ensures forall v :: v in ranks <==> exists h :: h in members && rank[h] == v
  {
    var xs := Elements(members);
    ranks := [];
    for i := 0 to |xs|
      invariant forall v :: v in ranks <==> exists j :: 0 <= j < i && rank[xs[j]] == v
    {
      assert xs[i] in members;
      ranks := ranks + [rank[xs[i]]];
    }
    forall v ensures v in ranks <==> exists h :: h in members && rank[h] == v {
      if h :| h in members && rank[h] == v {
        assert h in xs;
        var j :| 0 <= j < |xs| && xs[j] == h;
      }
    }
  }

  // ---------- All components ----------

  /** No node is in two groups. */
  ghost predicate Disjoint(groups: seq<set<Handle>>) {
    forall i, j, h :: 0 <= i < |groups| && 0 <= j < |groups| && h in groups[i] && h in groups[j] ==> i == j
  }

  /** A group is one connected component: closed, and connected from its node of least rank. */
  ghost predicate IsGroup<V>(p: Projection<V>, group: set<Handle>)
    requires p.handles <= p.rank.Keys
  {
    && group <= p.handles && Closed(p.adjacency, group)
    && exists seed :: seed in group && forall h :: h in group ==>
       Connects(p.adjacency, seed, h) && p.rank[seed] <= p.rank[h]
  }

  /** The groups partition the constrained nodes into connected components, and each has its component. */
  ghost predicate IsSplit<V>(p: Projection<V>, groups: seq<set<Handle>>, components: seq<Component<V>>)
    requires Faithful(p)
  {
    && |groups| == |components| && Disjoint(groups)
    && (forall i :: 0 <= i < |groups| ==> IsGroup(p, groups[i]) && IsComponent(p, groups[i], components[i]))
    && (forall h :: h in p.handles <==> InSome(groups, h))
  }

  ghost predicate InSome(groups: seq<set<Handle>>, h: Handle) {
    exists i :: 0 <= i < |groups| && h in groups[i]
  }

  lemma NoGroups()
    ensures forall h :: !InSome([], h)
  {
  }

  lemma InSomeNext(groups: seq<set<Handle>>, g: set<Handle>)
    ensures forall h :: InSome(groups + [g], h) <==> InSome(groups, h) || h in g
  {
    forall h ensures InSome(groups + [g], h) <==> InSome(groups, h) || h in g {
      if InSome(groups, h) {
        var i :| 0 <= i < |groups| && h in groups[i];
        assert h in (groups + [g])[i];
      }
      if h in g { assert h in (groups + [g])[|groups|]; }
    }
  }

  /** Removing a closed group from a closed set leaves a closed set, because adjacency is symmetric. */
  lemma RemainderClosed<V>(p: Projection<V>, unseen: set<Handle>, members: set<Handle>)
    requires Faithful(p) && Closed(p.adjacency, unseen) && Closed(p.adjacency, members)
    ensures Closed(p.adjacency, unseen - members)
  {
    forall h, n | h in unseen - members && n in Neighbours(p.adjacency, h) ensures n in unseen - members {
      assert h in Neighbours(p.adjacency, n);
    }
  }

  lemma HandlesClosed<V>(p: Projection<V>)
    requires Faithful(p)
    ensures Closed(p.adjacency, p.handles)
  {
  }

  /** Splits a projection into connected components, taken by least rank. */
  method BuildComponents<V>(p: Projection<V>) returns (components: seq<Component<V>>)
    requires Faithful(p)
    ensures exists groups :: IsSplit(p, groups, components)
  {
    hide Faithful, Closed, IsComponent, IsGroup, InSome;
    RanksKnown(p);
    NoGroups();
    HandlesClosed(p);
    var unseen := p.handles;
    components := [];
    ghost var groups: seq<set<Handle>> := [];
    while unseen != {}
      invariant unseen <= p.handles && Closed(p.adjacency, unseen)
      invariant |groups| == |components| && Disjoint(groups)
      invariant forall i :: 0 <= i < |groups| ==> groups[i] <= p.handles && groups[i] !! unseen
      invariant forall i :: 0 <= i < |groups| ==> IsGroup(p, groups[i]) && IsComponent(p, groups[i], components[i])
      invariant forall h :: h in p.handles <==> InSome(groups, h) || h in unseen
      decreases |unseen|
    {
      var seed := Seed(unseen, p.rank);
      var members := Gather(p.adjacency, seed, unseen);
      var component := Extract(p, members);
      GroupOfSeed(p, members, seed);
      RemainderClosed(p, unseen, members);
      InSomeNext(groups, members);
      components, groups := components + [component], groups + [members];
      assert |unseen - members| < |unseen| by { SmallerWithout(unseen, members, seed); }
      unseen := unseen - members;
    }
    assert IsSplit(p, groups, components);
  }

  lemma RanksKnown<V>(p: Projection<V>)
    requires Faithful(p)
    ensures p.handles <= p.rank.Keys
  {
  }

  lemma GroupOfSeed<V>(p: Projection<V>, members: set<Handle>, seed: Handle)
    requires p.handles <= p.rank.Keys && members <= p.handles && Closed(p.adjacency, members) && seed in members
    requires forall h :: h in members ==> Connects(p.adjacency, seed, h) && p.rank[seed] <= p.rank[h]
    ensures IsGroup(p, members)
  {
  }

  lemma SmallerWithout(a: set<Handle>, b: set<Handle>, x: Handle)
    requires x in a && x in b
    ensures |a - b| < |a|
  {
    Subset(a - b, a - {x});
  }

  lemma {:induction false} Subset(a: set<Handle>, b: set<Handle>)
    requires a <= b
    ensures |a| <= |b|
  {
    if a != {} {
      var x :| x in a;
      Subset(a - {x}, b - {x});
    }
  }

  // ---------- The split preserves satisfiability ----------

  /** An assignment of values to solver variables solves a component. `holds` says which values are in a range. */
  ghost predicate Solves<V>(c: Component<V>, holds: (nat, V) -> bool, a: map<nat, V>) {
    && (forall v :: v in c.variables ==> v in a)
    && (forall r :: r in c.ranges ==> r.variable in a && holds(r.rangeId, a[r.variable]) == r.positive)
    && (forall f :: f in c.fixedValues ==> f.variable in a && a[f.variable] == f.value)
    && (forall q :: q in c.inequalities ==> q.left in a && q.right in a && a[q.left] != a[q.right])
  }

  /** An assignment of values to nodes satisfies every projected constraint. */
  ghost predicate Satisfies<V>(p: Projection<V>, holds: (nat, V) -> bool, b: map<Handle, V>) {
    && (forall h :: h in p.handles ==> h in b)
    && (forall i :: 0 <= i < |p.ranges| ==>
       p.ranges[i].node in b && holds(p.ranges[i].rangeId, b[p.ranges[i].node]) == p.ranges[i].positive)
    && (forall i :: 0 <= i < |p.fixed| ==> p.fixed[i].node in b && b[p.fixed[i].node] == p.fixed[i].value)
    && (forall i :: 0 <= i < |p.inequalities| ==>
       p.inequalities[i].left in b && p.inequalities[i].right in b &&
       b[p.inequalities[i].left] != b[p.inequalities[i].right])
  }

  ghost predicate Injective<V>(p: Projection<V>) {
    p.handles <= p.rank.Keys && forall x, y :: x in p.handles && y in p.handles && p.rank[x] == p.rank[y] ==> x == y
  }

  /** The values of a group, renamed to its variables. */
  ghost function Renamed<V>(p: Projection<V>, group: set<Handle>, b: map<Handle, V>): (a: map<nat, V>)
    requires Injective(p) && group <= p.handles && p.handles <= b.Keys
    ensures forall h :: h in group ==> p.rank[h] in a && a[p.rank[h]] == b[h]
  {
    map v | v in set h | h in group :: p.rank[h] :: b[NodeOf(p, group, v)]
  }

  ghost function NodeOf<V>(p: Projection<V>, group: set<Handle>, v: nat): (h: Handle)
    requires Injective(p) && group <= p.handles && v in set h | h in group :: p.rank[h]
    ensures h in group && p.rank[h] == v
  {
    var h :| h in group && p.rank[h] == v; h
  }

  /** A global solution restricts to every component. */
  lemma RestrictSolution<V(!new)>(
    p: Projection<V>, group: set<Handle>, c: Component<V>, holds: (nat, V) -> bool, b: map<Handle, V>)
    requires Faithful(p) && Injective(p) && group <= p.handles && IsComponent(p, group, c) && Satisfies(p, holds, b)
    ensures p.handles <= b.Keys && Solves(c, holds, Renamed(p, group, b))
  {
    var a := Renamed(p, group, b);
    FaithfulRanks(p);
    forall r | r in c.ranges ensures r.variable in a && holds(r.rangeId, a[r.variable]) == r.positive {
      RangesInIff(p.rank, p.ranges, group, r);
    }
    forall f | f in c.fixedValues ensures f.variable in a && a[f.variable] == f.value {
      FixedInIff(p.rank, p.fixed, group, f);
    }
    forall q | q in c.inequalities ensures q.left in a && q.right in a && a[q.left] != a[q.right] {
      InequalitiesInIff(p.rank, p.inequalities, group, q);
    }
  }

  ghost function GroupOf(groups: seq<set<Handle>>, h: Handle): (i: nat)
    requires InSome(groups, h)
    ensures i < |groups| && h in groups[i]
  {
    var i :| 0 <= i < |groups| && h in groups[i]; i
  }

  lemma GroupUnique(groups: seq<set<Handle>>, h: Handle, i: nat)
    requires Disjoint(groups) && i < |groups| && h in groups[i]
    ensures InSome(groups, h) && GroupOf(groups, h) == i
  {
    assert InSome(groups, h);
  }

  /** Every constraint falls inside exactly one group: an inequality never crosses two of them. */
  lemma InequalityInside<V>(p: Projection<V>, groups: seq<set<Handle>>, components: seq<Component<V>>, k: nat)
    requires Faithful(p) && IsSplit(p, groups, components) && k < |p.inequalities|
    ensures InSome(groups, p.inequalities[k].left) && InSome(groups, p.inequalities[k].right)
    ensures GroupOf(groups, p.inequalities[k].left) == GroupOf(groups, p.inequalities[k].right)
  {
    var row := p.inequalities[k];
    var i := GroupOf(groups, row.left);
    assert row.right in Neighbours(p.adjacency, row.left);
    assert IsGroup(p, groups[i]);
    GroupUnique(groups, row.right, i);
  }

  /** Every node's variable has a value in its group's part. */
  ghost predicate Covers<V>(p: Projection<V>, groups: seq<set<Handle>>, parts: seq<map<nat, V>>) {
    && p.handles <= p.rank.Keys && |parts| == |groups|
    && forall h :: h in p.handles ==> InSome(groups, h) && p.rank[h] in parts[GroupOf(groups, h)]
  }

  /** Solutions of all components, put together. */
  ghost function Joined<V>(p: Projection<V>, groups: seq<set<Handle>>, parts: seq<map<nat, V>>): map<Handle, V>
    requires Covers(p, groups, parts)
  {
    map h | h in p.handles :: parts[GroupOf(groups, h)][p.rank[h]]
  }

  lemma JoinedAt<V>(p: Projection<V>, groups: seq<set<Handle>>, parts: seq<map<nat, V>>, h: Handle)
    requires Covers(p, groups, parts) && h in p.handles
    ensures InSome(groups, h) && h in Joined(p, groups, parts)
    ensures p.rank[h] in parts[GroupOf(groups, h)] && Joined(p, groups, parts)[h] ==
      parts[GroupOf(groups, h)][p.rank[h]]
  {
  }

  lemma VariableKnown<V(!new)>(
    p: Projection<V>, groups: seq<set<Handle>>, components: seq<Component<V>>, holds: (nat, V) -> bool,
    parts: seq<map<nat, V>>, h: Handle)
    requires Faithful(p) && IsSplit(p, groups, components) && |parts| == |groups|
    requires forall i :: 0 <= i < |parts| ==> Solves(components[i], holds, parts[i])
    requires h in p.handles
    ensures InSome(groups, h) && h in p.rank && p.rank[h] in parts[GroupOf(groups, h)]
  {
    var i := GroupOf(groups, h);
    assert IsComponent(p, groups[i], components[i]);
    assert p.rank[h] in components[i].variables;
    assert Solves(components[i], holds, parts[i]);
  }

  lemma JoinRange<V(!new)>(
    p: Projection<V>, group: set<Handle>, c: Component<V>, holds: (nat, V) -> bool, a: map<nat, V>, k: nat)
    requires Faithful(p) && group <= p.handles && IsComponent(p, group, c) && Solves(c, holds, a)
    requires k < |p.ranges| && p.ranges[k].node in group
    ensures p.ranges[k].node in p.rank && p.rank[p.ranges[k].node] in a
    ensures holds(p.ranges[k].rangeId, a[p.rank[p.ranges[k].node]]) == p.ranges[k].positive
  {
    FaithfulRanks(p);
    RangesInIff(p.rank, p.ranges, group, RangeConstraint(p.rank[p.ranges[k].node], p.ranges[k].rangeId,
      p.ranges[k].positive));
  }

  lemma JoinFixed<V(!new)>(
    p: Projection<V>, group: set<Handle>, c: Component<V>, holds: (nat, V) -> bool, a: map<nat, V>, k: nat)
    requires Faithful(p) && group <= p.handles && IsComponent(p, group, c) && Solves(c, holds, a)
    requires k < |p.fixed| && p.fixed[k].node in group
    ensures p.fixed[k].node in p.rank && p.rank[p.fixed[k].node] in a && a[p.rank[p.fixed[k].node]] == p.fixed[k].value
  {
    FaithfulRanks(p);
    FixedInIff(p.rank, p.fixed, group, FixedConstraint(p.rank[p.fixed[k].node], p.fixed[k].value));
  }

  lemma JoinInequality<V(!new)>(
    p: Projection<V>, group: set<Handle>, c: Component<V>, holds: (nat, V) -> bool, a: map<nat, V>, k: nat)
    requires Faithful(p) && group <= p.handles && IsComponent(p, group, c) && Solves(c, holds, a)
    requires k < |p.inequalities| && p.inequalities[k].left in group && p.inequalities[k].right in group
    ensures var l, r := p.inequalities[k].left, p.inequalities[k].right;
            l in p.rank && r in p.rank && p.rank[l] in a && p.rank[r] in a && a[p.rank[l]] != a[p.rank[r]]
  {
    FaithfulRanks(p);
    InequalitiesInIff(p.rank, p.inequalities, group, InequalityConstraint(p.rank[p.inequalities[k].left],
      p.rank[p.inequalities[k].right]));
  }

  lemma FaithfulNodes<V>(p: Projection<V>)
    requires Faithful(p)
    ensures forall i :: 0 <= i < |p.ranges| ==> p.ranges[i].node in p.handles
    ensures forall i :: 0 <= i < |p.fixed| ==> p.fixed[i].node in p.handles
    ensures forall i :: 0 <= i < |p.inequalities| ==>
      p.inequalities[i].left in p.handles && p.inequalities[i].right in p.handles
    ensures p.handles <= p.rank.Keys
  {
  }

  lemma PartOf<V(!new)>(
    p: Projection<V>, groups: seq<set<Handle>>, components: seq<Component<V>>, holds: (nat, V) -> bool,
    parts: seq<map<nat, V>>, i: nat)
    requires Faithful(p) && IsSplit(p, groups, components) && |parts| == |groups| && i < |parts|
    requires forall i :: 0 <= i < |parts| ==> Solves(components[i], holds, parts[i])
    ensures |components| == |groups| && groups[i] <= p.handles && IsComponent(p, groups[i], components[i]) &&
      Solves(components[i], holds, parts[i])
  {
    hide IsComponent, Solves, Faithful;
    RanksKnown(p);
    assert IsGroup(p, groups[i]);
  }

  /** Component solutions join to a global one. */
  lemma JoinSolutions<V(!new)>(
    p: Projection<V>, groups: seq<set<Handle>>, components: seq<Component<V>>, holds: (nat, V) -> bool,
    parts: seq<map<nat, V>>)
    returns (b: map<Handle, V>)
    requires Faithful(p) && IsSplit(p, groups, components) && |parts| == |groups|
    requires forall i :: 0 <= i < |parts| ==> Solves(components[i], holds, parts[i])
    ensures Satisfies(p, holds, b)
  {
    hide Faithful, IsSplit, IsComponent, Solves, Covers, Joined, InSome;
    FaithfulNodes(p);
    Coverage(p, groups, components, holds, parts);
    b := Joined(p, groups, parts);
    forall h | h in p.handles ensures h in b {
      JoinedAt(p, groups, parts, h);
    }
    forall k | 0 <= k < |p.ranges|
      ensures p.ranges[k].node in b && holds(p.ranges[k].rangeId, b[p.ranges[k].node]) == p.ranges[k].positive
    {
      JoinedAt(p, groups, parts, p.ranges[k].node);
      var i := GroupOf(groups, p.ranges[k].node);
      PartOf(p, groups, components, holds, parts, i);
      JoinRange(p, groups[i], components[i], holds, parts[i], k);
    }
    forall k | 0 <= k < |p.fixed| ensures p.fixed[k].node in b && b[p.fixed[k].node] == p.fixed[k].value {
      JoinedAt(p, groups, parts, p.fixed[k].node);
      var i := GroupOf(groups, p.fixed[k].node);
      PartOf(p, groups, components, holds, parts, i);
      JoinFixed(p, groups[i], components[i], holds, parts[i], k);
    }
    forall k | 0 <= k < |p.inequalities|
      ensures p.inequalities[k].left in b && p.inequalities[k].right in b &&
        b[p.inequalities[k].left] != b[p.inequalities[k].right]
    {
      InequalityInside(p, groups, components, k);
      JoinedAt(p, groups, parts, p.inequalities[k].left);
      JoinedAt(p, groups, parts, p.inequalities[k].right);
      var i := GroupOf(groups, p.inequalities[k].left);
      PartOf(p, groups, components, holds, parts, i);
      JoinInequality(p, groups[i], components[i], holds, parts[i], k);
    }
  }

  lemma Coverage<V(!new)>(
    p: Projection<V>, groups: seq<set<Handle>>, components: seq<Component<V>>, holds: (nat, V) -> bool,
    parts: seq<map<nat, V>>)
    requires Faithful(p) && IsSplit(p, groups, components) && |parts| == |groups|
    requires forall i :: 0 <= i < |parts| ==> Solves(components[i], holds, parts[i])
    ensures Covers(p, groups, parts)
  {
    hide Faithful, IsSplit, IsComponent, Solves, InSome;
    FaithfulNodes(p);
    forall h | h in p.handles ensures InSome(groups, h) && p.rank[h] in parts[GroupOf(groups, h)] {
      VariableKnown(p, groups, components, holds, parts, h);
    }
  }

  ghost predicate Solvable<V(!new)>(c: Component<V>, holds: (nat, V) -> bool) {
    exists a :: Solves(c, holds, a)
  }

  ghost predicate Satisfiable<V(!new)>(p: Projection<V>, holds: (nat, V) -> bool) {
    exists b :: Satisfies(p, holds, b)
  }

  lemma AllSolvable<V(!new)>(
    p: Projection<V>, groups: seq<set<Handle>>, components: seq<Component<V>>, holds: (nat, V) -> bool,
    b: map<Handle, V>, i: nat)
    requires Faithful(p) && Injective(p) && IsSplit(p, groups, components) && Satisfies(p, holds, b) && i < |components|
    ensures Solvable(components[i], holds)
  {
    hide Faithful, Injective, IsComponent, Satisfies, Solves;
    RanksKnown(p);
    assert IsGroup(p, groups[i]) && IsComponent(p, groups[i], components[i]);
    RestrictSolution(p, groups[i], components[i], holds, b);
  }

  lemma ChooseParts<V(!new)>(components: seq<Component<V>>, holds: (nat, V) -> bool) returns (parts: seq<map<nat, V>>)
    requires forall i :: 0 <= i < |components| ==> Solvable(components[i], holds)
    ensures |parts| == |components| && forall i :: 0 <= i < |parts| ==> Solves(components[i], holds, parts[i])
  {
    hide Solves;
    parts := [];
    while |parts| < |components|
      invariant |parts| <= |components| && forall i :: 0 <= i < |parts| ==> Solves(components[i], holds, parts[i])
    {
      assert Solvable(components[|parts|], holds);
      var a :| Solves(components[|parts|], holds, a);
      parts := parts + [a];
    }
  }

  /** A projection is satisfiable exactly when every component is. */
  lemma SplitPreservesSatisfiability<V(!new)>(
    p: Projection<V>, groups: seq<set<Handle>>, components: seq<Component<V>>, holds: (nat, V) -> bool)
    requires Faithful(p) && Injective(p) && IsSplit(p, groups, components)
    ensures Satisfiable(p, holds) <==> forall i :: 0 <= i < |components| ==> Solvable(components[i], holds)
  {
    hide Faithful, Injective, IsComponent, IsGroup, Satisfies, Solves;
    if Satisfiable(p, holds) {
      var b :| Satisfies(p, holds, b);
      forall i | 0 <= i < |components| ensures Solvable(components[i], holds) {
        AllSolvable(p, groups, components, holds, b, i);
      }
    }
    if forall i :: 0 <= i < |components| ==> Solvable(components[i], holds) {
      var parts := ChooseParts(components, holds);
      var b := JoinSolutions(p, groups, components, holds, parts);
    }
  }

  // ---------- From facts to components ----------

  /** What one fact row says of the values of its nodes. */
  ghost predicate FactHolds<V>(f: Fact, holds: (nat, V) -> bool, b: map<Handle, V>) {
    match f
    case RangeFact(node, rangeId, positive, _) => node in b && holds(rangeId, b[node]) == positive
    case InequalityFact(left, right, _) => left in b && right in b && b[left] != b[right]
    case OtherFact => true
  }

  /** A literal on a node that some fact mentions fixes the value of the node, by its first payload if it has any. */
  ghost predicate LiteralHolds<V>(literal: LiteralRow<V>, facts: seq<Fact>, b: map<Handle, V>) {
    Mentioned(facts, literal.node) && literal.payloads != [] && literal.payloads[0].Semantic? ==>
      literal.node in b && b[literal.node] == literal.payloads[0].identity
  }

  ghost predicate AllHold<V>(
    facts: seq<Fact>, literals: seq<LiteralRow<V>>, holds: (nat, V) -> bool, b: map<Handle, V>)
  {
    && (forall i :: 0 <= i < |facts| ==> FactHolds(facts[i], holds, b))
    && (forall i :: 0 <= i < |literals| ==> LiteralHolds(literals[i], facts, b))
  }

  lemma {:induction false} RangesOfIff(facts: seq<Fact>, row: RangeRow)
    ensures row in RangesOf(facts) <==> RangeFact(row.node, row.rangeId, row.positive, row.participant) in facts
  {
    if facts != [] {
      RangesOfIff(facts[..|facts| - 1], row);
      assert facts == facts[..|facts| - 1] + [facts[|facts| - 1]];
    }
  }

  lemma {:induction false} InequalitiesOfIff(facts: seq<Fact>, row: InequalityRow)
    ensures row in InequalitiesOf(facts) <==> InequalityFact(row.left, row.right, row.participant) in facts
  {
    if facts != [] {
      InequalitiesOfIff(facts[..|facts| - 1], row);
      assert facts == facts[..|facts| - 1] + [facts[|facts| - 1]];
    }
  }

  ghost predicate FixesTo<V>(literal: LiteralRow<V>, handles: set<Handle>, row: FixedRow<V>) {
    Fixes(literal, handles) && literal.node == row.node && literal.payloads[0] == Semantic(row.value)
  }

  lemma {:induction false} ConstrainedIff<V>(literals: seq<LiteralRow<V>>, handles: set<Handle>, row: FixedRow<V>)
    requires Supported(literals, handles)
    ensures row in Constrained(literals, handles) <==>
      exists i :: 0 <= i < |literals| && FixesTo(literals[i], handles, row)
  {
    if literals != [] {
      var before, last := literals[..|literals| - 1], literals[|literals| - 1];
      assert Fixes(last, handles) ==> last.payloads[0].Semantic?;
      ConstrainedIff(before, handles, row);
      assert forall i :: 0 <= i < |before| ==> before[i] == literals[i];
    }
  }

  /** The projection of these facts and literals, as `Project` returns it. */
  ghost predicate Projects<V>(p: Projection<V>, facts: seq<Fact>, literals: seq<LiteralRow<V>>) {
    && p.ranges == RangesOf(facts) && p.inequalities == InequalitiesOf(facts)
    && (forall h :: h in p.handles <==> Mentioned(facts, h))
    && Supported(literals, p.handles) && p.fixed == Constrained(literals, p.handles)
  }

  lemma FactsFromProjection<V>(
    p: Projection<V>, facts: seq<Fact>, literals: seq<LiteralRow<V>>, holds: (nat, V) -> bool, b: map<Handle, V>)
    requires Projects(p, facts, literals) && Satisfies(p, holds, b)
    ensures AllHold(facts, literals, holds, b)
  {
    hide RangesOf, InequalitiesOf, Constrained;
    forall i | 0 <= i < |facts| ensures FactHolds(facts[i], holds, b) {
      match facts[i] {
        case RangeFact(node, rangeId, positive, row) =>
          RangesOfIff(facts, RangeRow(node, rangeId, positive, row));
        case InequalityFact(left, right, row) =>
          InequalitiesOfIff(facts, InequalityRow(left, right, row));
        case OtherFact =>
      }
    }
    forall i | 0 <= i < |literals| ensures LiteralHolds(literals[i], facts, b) {
      if Fixes(literals[i], p.handles) {
        var row := FixedRow(literals[i].node, literals[i].payloads[0].identity);
        ConstrainedIff(literals, p.handles, row);
        assert FixesTo(literals[i], p.handles, row);
      }
    }
  }

  lemma ProjectionFromFacts<V>(
    p: Projection<V>, facts: seq<Fact>, literals: seq<LiteralRow<V>>, holds: (nat, V) -> bool, b: map<Handle, V>)
    requires Projects(p, facts, literals) && AllHold(facts, literals, holds, b)
    ensures Satisfies(p, holds, b)
  {
    hide RangesOf, InequalitiesOf, Constrained;
    forall h | h in p.handles ensures h in b {
      var i :| 0 <= i < |facts| && Touches(facts[i], h);
      assert FactHolds(facts[i], holds, b);
    }
    forall k | 0 <= k < |p.ranges|
      ensures p.ranges[k].node in b && holds(p.ranges[k].rangeId, b[p.ranges[k].node]) == p.ranges[k].positive
    {
      RangesOfIff(facts, p.ranges[k]);
      assert p.ranges[k] in p.ranges;
    }
    forall k | 0 <= k < |p.fixed| ensures p.fixed[k].node in b && b[p.fixed[k].node] == p.fixed[k].value {
      ConstrainedIff(literals, p.handles, p.fixed[k]);
      assert p.fixed[k] in p.fixed;
      var i :| 0 <= i < |literals| && FixesTo(literals[i], p.handles, p.fixed[k]);
      assert LiteralHolds(literals[i], facts, b);
    }
    forall k | 0 <= k < |p.inequalities|
      ensures p.inequalities[k].left in b && p.inequalities[k].right in b &&
        b[p.inequalities[k].left] != b[p.inequalities[k].right]
    {
      InequalitiesOfIff(facts, p.inequalities[k]);
      assert p.inequalities[k] in p.inequalities;
    }
  }

  /** The facts and literals have values that meet them all exactly when every component has a solution. */
  lemma FactsSplit<V(!new)>(
    facts: seq<Fact>, literals: seq<LiteralRow<V>>, p: Projection<V>, groups: seq<set<Handle>>,
    components: seq<Component<V>>, holds: (nat, V) -> bool)
    requires Projects(p, facts, literals) && Faithful(p) && Injective(p) && IsSplit(p, groups, components)
    ensures (exists b :: AllHold(facts, literals, holds, b)) <==>
      forall i :: 0 <= i < |components| ==> Solvable(components[i], holds)
  {
    hide Projects, Faithful, Injective, IsSplit, AllHold, Satisfies, Solvable;
    SplitPreservesSatisfiability(p, groups, components, holds);
    if b :| AllHold(facts, literals, holds, b) {
      ProjectionFromFacts(p, facts, literals, holds, b);
    }
    if b :| Satisfies(p, holds, b) {
      FactsFromProjection(p, facts, literals, holds, b);
    }
  }
}
