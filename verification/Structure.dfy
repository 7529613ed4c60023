/**
 The structural graph the columns describe: constructor nodes that share children. A node's
 canonical bytes and the tree it denotes are defined here by one equation per node; on an acyclic
 graph each system of equations has exactly one solution.
 */
module Structure {
  import opened Bytes
  import opened Varint

  /** One constructor argument; nodes are named by their zero-based row. */
  datatype Field =
    | Absent
    | Child(node: nat)
    | Text(content: seq<byte>)
    | Raw(content: seq<byte>)
    | Integer(value: nat)
    | Enum(content: seq<byte>)
    | SetOf(items: seq<nat>)
    | SequenceOf(items: seq<nat>)

  datatype Node = Node(tag: nat, fields: seq<Field>)

  type Graph = seq<Node>

  function Refs(f: Field): seq<nat> {
    match f
    case Child(node) => [node]
    case SetOf(items) => items
    case SequenceOf(items) => items
    case _ => []
  }

  ghost predicate Within(items: seq<nat>, count: nat) {
    forall i :: 0 <= i < |items| ==> items[i] < count
  }

  /** Every reference made by these fields is a row below `count`. */
  ghost predicate Bounded(fields: seq<Field>, count: nat) {
    forall k :: 0 <= k < |fields| ==> Within(Refs(fields[k]), count)
  }

  ghost predicate Valid(g: Graph) {
    forall n :: 0 <= n < |g| ==> Bounded(g[n].fields, |g|)
  }

  // ---------- Edges, cycles and reachability ----------

  ghost predicate Edge(g: Graph, parent: nat, child: nat) {
    parent < |g| && exists k :: 0 <= k < |g[parent].fields| && child in Refs(g[parent].fields[k])
  }

  /** A topological rank: every child ranks below its parent. */
  ghost predicate Ranked(g: Graph, rank: seq<nat>) {
    && |rank| == |g|
    && forall a: nat, b: nat :: Edge(g, a, b) && b < |g| ==> rank[b] < rank[a]
  }

  ghost predicate Acyclic(g: Graph) {
    exists rank :: Ranked(g, rank)
  }

  ghost predicate Path(g: Graph, p: seq<nat>) {
    |p| >= 1 && forall i :: 0 <= i < |p| - 1 ==> Edge(g, p[i], p[i + 1])
  }

  ghost predicate Cyclic(g: Graph) {
    exists p :: Path(g, p) && |p| >= 2 && p[0] == p[|p| - 1]
  }

  ghost predicate Reachable(g: Graph, roots: seq<nat>, n: nat) {
    exists p :: Path(g, p) && p[0] in roots && p[|p| - 1] == n
  }

  lemma {:induction false} RankFallsAlongPath(g: Graph, rank: seq<nat>, p: seq<nat>)
    requires Valid(g) && Ranked(g, rank) && Path(g, p) && p[0] < |g|
    ensures p[|p| - 1] < |g|
    ensures |p| >= 2 ==> rank[p[|p| - 1]] < rank[p[0]]
    decreases |p|
  {
    if |p| >= 2 {
      var q := p[1..];
      assert Edge(g, p[0], p[1]);
      forall i | 0 <= i < |q| - 1 ensures Edge(g, q[i], q[i + 1]) {
        assert Edge(g, p[i + 1], p[i + 2]);
      }
      RankFallsAlongPath(g, rank, q);
    }
  }

  /** A cycle refutes every topological rank. */
  lemma CyclicNotAcyclic(g: Graph)
    requires Valid(g) && Cyclic(g)
    ensures !Acyclic(g)
  {
    var p :| Path(g, p) && |p| >= 2 && p[0] == p[|p| - 1];
    assert Edge(g, p[0], p[1]);
    if Acyclic(g) {
      var rank :| Ranked(g, rank);
      RankFallsAlongPath(g, rank, p);
    }
  }

  /** A path whose last row points back at its first closes a cycle. */
  lemma BackEdgeCycle(g: Graph, p: seq<nat>, child: nat)
    requires Path(g, p) && p[0] == child && Edge(g, p[|p| - 1], child)
    ensures Cyclic(g)
  {
    var q := p + [child];
    forall i | 0 <= i < |q| - 1 ensures Edge(g, q[i], q[i + 1]) {
      if i < |p| - 1 { assert Edge(g, p[i], p[i + 1]); }
    }
    assert Path(g, q);
  }

  lemma ReachRoot(g: Graph, roots: seq<nat>, r: nat)
    requires r in roots
    ensures Reachable(g, roots, r)
  {
    assert Path(g, [r]);
  }

  lemma ReachStep(g: Graph, roots: seq<nat>, a: nat, b: nat)
    requires Reachable(g, roots, a) && Edge(g, a, b)
    ensures Reachable(g, roots, b)
  {
    var p :| Path(g, p) && p[0] in roots && p[|p| - 1] == a;
    var q := p + [b];
    forall i | 0 <= i < |q| - 1 ensures Edge(g, q[i], q[i + 1]) {
      if i < |p| - 1 { assert Edge(g, p[i], p[i + 1]); }
    }
    assert Path(g, q);
  }

  /** A set of rows that holds the roots and is closed under edges holds everything reachable. */
  lemma {:induction false} ClosedHoldsReachable(g: Graph, roots: seq<nat>, inside: set<nat>, n: nat)
    requires forall r :: r in roots ==> r in inside
    requires forall a, b :: a in inside && Edge(g, a, b) ==> b in inside
    requires Reachable(g, roots, n)
    ensures n in inside
  {
    var p :| Path(g, p) && p[0] in roots && p[|p| - 1] == n;
    var i := 0;
    while i < |p| - 1
      invariant 0 <= i < |p| && p[i] in inside
    {
      assert Edge(g, p[i], p[i + 1]);
      i := i + 1;
    }
  }

  // ---------- Canonical bytes ----------

  /** A length-framed payload. */
  function Frame(payload: seq<byte>): seq<byte> {
    Leb(|payload|) + payload
  }

  /** Set items are framed node bytes with no marker. */
  ghost function SetBytes(items: seq<nat>, sers: seq<seq<byte>>): seq<byte>
    requires Within(items, |sers|)
  {
    if items == [] then [] else Frame(sers[items[0]]) + SetBytes(items[1..], sers)
  }

  /** Sequence items keep the marker of a node component. */
  ghost function SequenceBytes(items: seq<nat>, sers: seq<seq<byte>>): seq<byte>
    requires Within(items, |sers|)
  {
    if items == [] then [] else [1] + Frame(sers[items[0]]) + SequenceBytes(items[1..], sers)
  }

  ghost function FieldBytes(f: Field, sers: seq<seq<byte>>): seq<byte>
    requires Within(Refs(f), |sers|)
  {
    match f
    case Absent => [0]
    case Child(node) => assert node == Refs(f)[0]; [1] + Frame(sers[node])
    case Text(content) => [2] + Frame(content)
    case Raw(content) => [3] + Frame(content)
    case Integer(value) => [4] + Leb(value)
    case Enum(content) => [5] + Frame(content)
    case SetOf(items) => [6] + Leb(|items|) + SetBytes(items, sers)
    case SequenceOf(items) => [7] + Leb(|items|) + SequenceBytes(items, sers)
  }

  ghost function FieldsBytes(fields: seq<Field>, sers: seq<seq<byte>>): seq<byte>
    requires Bounded(fields, |sers|)
  {
    if fields == [] then [] else FieldBytes(fields[0], sers) + FieldsBytes(fields[1..], sers)
  }

  /** A node's canonical bytes, given those of its children. */
  ghost function NodeBytes(node: Node, sers: seq<seq<byte>>): seq<byte>
    requires Bounded(node.fields, |sers|)
  {
    Leb(node.tag) + FieldsBytes(node.fields, sers)
  }

  /** `sers` gives every row its canonical bytes. */
  ghost predicate Serializes(g: Graph, sers: seq<seq<byte>>) {
    && Valid(g)
    && |sers| == |g|
    && forall n :: 0 <= n < |g| ==> sers[n] == NodeBytes(g[n], sers)
  }

  /** Two tables agree on these rows. */
  ghost predicate Same<T(!new)>(items: seq<nat>, s: seq<T>, t: seq<T>) {
    Within(items, |s|) && Within(items, |t|) && forall i :: 0 <= i < |items| ==> s[items[i]] == t[items[i]]
  }

  ghost predicate Agree<T(!new)>(fields: seq<Field>, s: seq<T>, t: seq<T>) {
    forall k :: 0 <= k < |fields| ==> Same(Refs(fields[k]), s, t)
  }

  lemma {:induction false} ItemsBytesLocal(items: seq<nat>, s: seq<seq<byte>>, t: seq<seq<byte>>)
    requires Same(items, s, t)
    ensures SetBytes(items, s) == SetBytes(items, t)
    ensures SequenceBytes(items, s) == SequenceBytes(items, t)
  {
    if items != [] { ItemsBytesLocal(items[1..], s, t); }
  }

  lemma FieldBytesLocal(f: Field, s: seq<seq<byte>>, t: seq<seq<byte>>)
    requires Same(Refs(f), s, t)
    ensures FieldBytes(f, s) == FieldBytes(f, t)
  {
    match f {
      case SetOf(items) => ItemsBytesLocal(items, s, t);
      case SequenceOf(items) => ItemsBytesLocal(items, s, t);
      case Child(node) => assert node == Refs(f)[0];
      case _ =>
    }
  }

  lemma {:induction false} FieldsBytesLocal(fields: seq<Field>, s: seq<seq<byte>>, t: seq<seq<byte>>)
    requires Agree(fields, s, t)
    ensures Bounded(fields, |s|) && Bounded(fields, |t|)
    ensures FieldsBytes(fields, s) == FieldsBytes(fields, t)
  {
    if fields != [] {
      FieldBytesLocal(fields[0], s, t);
      FieldsBytesLocal(fields[1..], s, t);
    }
  }

  /** Canonical bytes by recursion on the rank: only rows of smaller rank are consulted. */
  ghost function SerAt(g: Graph, rank: seq<nat>, n: nat): seq<byte>
    requires Valid(g) && Ranked(g, rank) && n < |g|
    decreases rank[n]
  {
    NodeBytes(g[n], seq(|g|, m requires 0 <= m < |g| => if rank[m] < rank[n] then SerAt(g, rank, m) else []))
  }

  lemma SerAtSolves(g: Graph, rank: seq<nat>)
    requires Valid(g) && Ranked(g, rank)
    ensures Serializes(g, seq(|g|, n requires 0 <= n < |g| => SerAt(g, rank, n)))
  {
    var all := seq(|g|, n requires 0 <= n < |g| => SerAt(g, rank, n));
    forall n | 0 <= n < |g| ensures all[n] == NodeBytes(g[n], all) {
      var below := seq(|g|, m requires 0 <= m < |g| => if rank[m] < rank[n] then SerAt(g, rank, m) else []);
      forall k | 0 <= k < |g[n].fields| ensures Same(Refs(g[n].fields[k]), below, all) {
        var refs := Refs(g[n].fields[k]);
        forall i | 0 <= i < |refs| ensures below[refs[i]] == all[refs[i]] {
          assert Edge(g, n, refs[i]);
        }
      }
      FieldsBytesLocal(g[n].fields, below, all);
      assert SerAt(g, rank, n) == NodeBytes(g[n], below);
    }
  }

  lemma {:induction false} SerializesUniqueAt(g: Graph, rank: seq<nat>, s: seq<seq<byte>>, t: seq<seq<byte>>, n: nat)
    requires Serializes(g, s) && Serializes(g, t) && Ranked(g, rank) && n < |g|
    ensures s[n] == t[n]
    decreases rank[n]
  {
    forall k | 0 <= k < |g[n].fields| ensures Same(Refs(g[n].fields[k]), s, t) {
      var refs := Refs(g[n].fields[k]);
      forall i | 0 <= i < |refs| ensures s[refs[i]] == t[refs[i]] {
        assert Edge(g, n, refs[i]);
        SerializesUniqueAt(g, rank, s, t, refs[i]);
      }
    }
    FieldsBytesLocal(g[n].fields, s, t);
  }

  /** On an acyclic graph the canonical bytes exist and are unique. */
  lemma SerializationExistsUniquely(g: Graph) returns (sers: seq<seq<byte>>)
    requires Valid(g) && Acyclic(g)
    ensures Serializes(g, sers)
    ensures forall other :: Serializes(g, other) ==> other == sers
  {
    var rank :| Ranked(g, rank);
    sers := seq(|g|, n requires 0 <= n < |g| => SerAt(g, rank, n));
    SerAtSolves(g, rank);
    forall other | Serializes(g, other) ensures other == sers {
      forall n | 0 <= n < |g| ensures other[n] == sers[n] {
        SerializesUniqueAt(g, rank, other, sers, n);
      }
    }
  }

  /** The canonical bytes of every row. */
  ghost function Ser(g: Graph): (sers: seq<seq<byte>>)
    requires Valid(g) && Acyclic(g)
    ensures Serializes(g, sers)
  {
    var rank :| Ranked(g, rank);
    SerAtSolves(g, rank);
    seq(|g|, n requires 0 <= n < |g| => SerAt(g, rank, n))
  }

  // ---------- Canonical lengths ----------

  function FrameLength(payload: nat): nat {
    VarintWidth(payload) + payload
  }

  function ItemsLength(items: seq<nat>, marker: nat, lens: seq<nat>): nat
    requires Within(items, |lens|)
  {
    if items == [] then 0 else marker + FrameLength(lens[items[0]]) + ItemsLength(items[1..], marker, lens)
  }

  ghost function FieldLength(f: Field, lens: seq<nat>): nat
    requires Within(Refs(f), |lens|)
  {
    match f
    case Absent => 1
    case Child(node) => assert node == Refs(f)[0]; 1 + FrameLength(lens[node])
    case Text(content) => 1 + FrameLength(|content|)
    case Raw(content) => 1 + FrameLength(|content|)
    case Integer(value) => 1 + VarintWidth(value)
    case Enum(content) => 1 + FrameLength(|content|)
    case SetOf(items) => 1 + VarintWidth(|items|) + ItemsLength(items, 0, lens)
    case SequenceOf(items) => 1 + VarintWidth(|items|) + ItemsLength(items, 1, lens)
  }

  ghost function FieldsLength(fields: seq<Field>, lens: seq<nat>): nat
    requires Bounded(fields, |lens|)
  {
    if fields == [] then 0 else FieldLength(fields[0], lens) + FieldsLength(fields[1..], lens)
  }

  ghost function NodeLength(node: Node, lens: seq<nat>): (length: nat)
    requires Bounded(node.fields, |lens|)
    ensures length >= 1
  {
    VarintWidthIsLength(node.tag);
    VarintWidth(node.tag) + FieldsLength(node.fields, lens)
  }

  lemma {:induction false} ItemsLengthLocal(items: seq<nat>, marker: nat, a: seq<nat>, b: seq<nat>)
    requires Same(items, a, b)
    ensures ItemsLength(items, marker, a) == ItemsLength(items, marker, b)
  {
    if items != [] { ItemsLengthLocal(items[1..], marker, a, b); }
  }

  lemma {:induction false} FieldsLengthLocal(fields: seq<Field>, a: seq<nat>, b: seq<nat>)
    requires Agree(fields, a, b)
    ensures Bounded(fields, |a|) && Bounded(fields, |b|)
    ensures FieldsLength(fields, a) == FieldsLength(fields, b)
  {
    if fields != [] {
      match fields[0] {
        case SetOf(items) => ItemsLengthLocal(items, 0, a, b);
        case SequenceOf(items) => ItemsLengthLocal(items, 1, a, b);
        case Child(node) => assert node == Refs(fields[0])[0];
        case _ =>
      }
      FieldsLengthLocal(fields[1..], a, b);
    }
  }

  /** `lens` satisfies the length equation of every row. */
  ghost predicate Measures(g: Graph, lens: seq<nat>) {
    && Valid(g)
    && |lens| == |g|
    && forall n :: 0 <= n < |g| ==> lens[n] == NodeLength(g[n], lens)
  }

  lemma FrameLengthIs(payload: seq<byte>)
    ensures |Frame(payload)| == FrameLength(|payload|)
  {
    VarintWidthIsLength(|payload|);
  }

  ghost predicate Sized(items: seq<nat>, sers: seq<seq<byte>>, lens: seq<nat>) {
    && Within(items, |sers|) && Within(items, |lens|)
    && forall i :: 0 <= i < |items| ==> lens[items[i]] == |sers[items[i]]|
  }

  lemma {:induction false} ItemsLengthIs(items: seq<nat>, sers: seq<seq<byte>>, lens: seq<nat>)
    requires Sized(items, sers, lens)
    ensures ItemsLength(items, 0, lens) == |SetBytes(items, sers)|
    ensures ItemsLength(items, 1, lens) == |SequenceBytes(items, sers)|
  {
    if items != [] {
      FrameLengthIs(sers[items[0]]);
      ItemsLengthIs(items[1..], sers, lens);
    }
  }

  lemma FieldLengthIs(f: Field, sers: seq<seq<byte>>, lens: seq<nat>)
    requires Sized(Refs(f), sers, lens)
    ensures FieldLength(f, lens) == |FieldBytes(f, sers)|
  {
    match f {
      case Absent =>
      case Child(node) => assert node == Refs(f)[0]; FrameLengthIs(sers[node]);
      case Text(content) => FrameLengthIs(content);
      case Raw(content) => FrameLengthIs(content);
      case Integer(value) => VarintWidthIsLength(value);
      case Enum(content) => FrameLengthIs(content);
      case SetOf(items) => VarintWidthIsLength(|items|); ItemsLengthIs(items, sers, lens);
      case SequenceOf(items) => VarintWidthIsLength(|items|); ItemsLengthIs(items, sers, lens);
    }
  }

  lemma {:induction false} FieldsLengthIs(fields: seq<Field>, sers: seq<seq<byte>>, lens: seq<nat>)
    requires forall k :: 0 <= k < |fields| ==> Sized(Refs(fields[k]), sers, lens)
    ensures Bounded(fields, |sers|) && Bounded(fields, |lens|)
    ensures FieldsLength(fields, lens) == |FieldsBytes(fields, sers)|
  {
    if fields != [] {
      FieldLengthIs(fields[0], sers, lens);
      FieldsLengthIs(fields[1..], sers, lens);
    }
  }

  lemma {:induction false} MeasureAt(g: Graph, rank: seq<nat>, sers: seq<seq<byte>>, lens: seq<nat>, n: nat)
    requires Serializes(g, sers) && Measures(g, lens) && Ranked(g, rank) && n < |g|
    ensures lens[n] == |sers[n]|
    decreases rank[n]
  {
    forall k | 0 <= k < |g[n].fields| ensures Sized(Refs(g[n].fields[k]), sers, lens) {
      var refs := Refs(g[n].fields[k]);
      forall i | 0 <= i < |refs| ensures lens[refs[i]] == |sers[refs[i]]| {
        assert Edge(g, n, refs[i]);
        MeasureAt(g, rank, sers, lens, refs[i]);
      }
    }
    FieldsLengthIs(g[n].fields, sers, lens);
    VarintWidthIsLength(g[n].tag);
  }

  /** Lengths that satisfy the length equations are the lengths of the canonical bytes. */
  lemma LengthsAreExact(g: Graph, lens: seq<nat>)
    requires Acyclic(g) && Measures(g, lens)
    ensures forall n :: 0 <= n < |g| ==> lens[n] == |Ser(g)[n]|
  {
    var rank :| Ranked(g, rank);
    forall n | 0 <= n < |g| ensures lens[n] == |Ser(g)[n]| {
      MeasureAt(g, rank, Ser(g), lens, n);
    }
  }

  /** The lengths of the canonical bytes satisfy the length equations. */
  lemma BytesMeasure(g: Graph, sers: seq<seq<byte>>, lens: seq<nat>)
    requires Serializes(g, sers) && |lens| == |g| && forall n :: 0 <= n < |g| ==> lens[n] == |sers[n]|
    ensures Measures(g, lens)
  {
    forall n | 0 <= n < |g| ensures lens[n] == NodeLength(g[n], lens) {
      assert Bounded(g[n].fields, |g|);
      forall k | 0 <= k < |g[n].fields| ensures Sized(Refs(g[n].fields[k]), sers, lens) {
        assert Within(Refs(g[n].fields[k]), |g|);
      }
      FieldsLengthIs(g[n].fields, sers, lens);
      VarintWidthIsLength(g[n].tag);
    }
  }

  // ---------- Denoted trees ----------

  /** The structural value a node stands for; canonical sets are mathematical sets. */
  datatype Tree = Tree(tag: nat, arguments: seq<Argument>)

  datatype Argument =
    | AbsentArgument
    | TreeArgument(tree: Tree)
    | TextArgument(content: seq<byte>)
    | RawArgument(content: seq<byte>)
    | IntegerArgument(value: nat)
    | EnumArgument(content: seq<byte>)
    | SetArgument(members: set<Tree>)
    | SequenceArgument(trees: seq<Tree>)

  ghost function Members(items: seq<nat>, trees: seq<Tree>): set<Tree>
    requires Within(items, |trees|)
  {
    set i | 0 <= i < |items| :: trees[items[i]]
  }

  ghost function FieldTree(f: Field, trees: seq<Tree>): Argument
    requires Within(Refs(f), |trees|)
  {
    match f
    case Absent => AbsentArgument
    case Child(node) => assert node == Refs(f)[0]; TreeArgument(trees[node])
    case Text(content) => TextArgument(content)
    case Raw(content) => RawArgument(content)
    case Integer(value) => IntegerArgument(value)
    case Enum(content) => EnumArgument(content)
    case SetOf(items) => SetArgument(Members(items, trees))
    case SequenceOf(items) => SequenceArgument(seq(|items|, i requires 0 <= i < |items| => trees[items[i]]))
  }

  ghost function NodeTree(node: Node, trees: seq<Tree>): Tree
    requires Bounded(node.fields, |trees|)
  {
    Tree(node.tag, seq(|node.fields|, k requires 0 <= k < |node.fields| => FieldTree(node.fields[k], trees)))
  }

  ghost predicate Denotes(g: Graph, trees: seq<Tree>) {
    && Valid(g)
    && |trees| == |g|
    && forall n :: 0 <= n < |g| ==> trees[n] == NodeTree(g[n], trees)
  }

  lemma NodeTreeLocal(node: Node, s: seq<Tree>, t: seq<Tree>)
    requires Agree(node.fields, s, t)
    ensures Bounded(node.fields, |s|) && Bounded(node.fields, |t|)
    ensures NodeTree(node, s) == NodeTree(node, t)
  {
    forall k | 0 <= k < |node.fields| ensures FieldTree(node.fields[k], s) == FieldTree(node.fields[k], t) {
      FieldTreeLocal(node.fields[k], s, t);
    }
  }

  lemma FieldTreeLocal(f: Field, s: seq<Tree>, t: seq<Tree>)
    requires Same(Refs(f), s, t)
    ensures FieldTree(f, s) == FieldTree(f, t)
  {
    match f {
      case Child(node) => assert node == Refs(f)[0];
      case SetOf(items) => assert Members(items, s) == Members(items, t);
      case _ =>
    }
  }

  ghost function TreeAt(g: Graph, rank: seq<nat>, n: nat): Tree
    requires Valid(g) && Ranked(g, rank) && n < |g|
    decreases rank[n]
  {
    NodeTree(g[n], seq(|g|, m requires 0 <= m < |g| => if rank[m] < rank[n] then TreeAt(g, rank, m) else Tree(0, [])))
  }

  lemma TreeAtSolves(g: Graph, rank: seq<nat>)
    requires Valid(g) && Ranked(g, rank)
    ensures Denotes(g, seq(|g|, n requires 0 <= n < |g| => TreeAt(g, rank, n)))
  {
    var all := seq(|g|, n requires 0 <= n < |g| => TreeAt(g, rank, n));
    forall n | 0 <= n < |g| ensures all[n] == NodeTree(g[n], all) {
      var below := seq(|g|, m requires 0 <= m < |g| => if rank[m] < rank[n] then TreeAt(g, rank, m) else Tree(0, []));
      forall k | 0 <= k < |g[n].fields| ensures Same(Refs(g[n].fields[k]), below, all) {
        var refs := Refs(g[n].fields[k]);
        forall i | 0 <= i < |refs| ensures below[refs[i]] == all[refs[i]] {
          assert Edge(g, n, refs[i]);
        }
      }
      NodeTreeLocal(g[n], below, all);
      assert TreeAt(g, rank, n) == NodeTree(g[n], below);
    }
  }

  /** The tree every row denotes. */
  ghost function Den(g: Graph): (trees: seq<Tree>)
    requires Valid(g) && Acyclic(g)
    ensures Denotes(g, trees)
  {
    var rank :| Ranked(g, rank);
    TreeAtSolves(g, rank);
    seq(|g|, n requires 0 <= n < |g| => TreeAt(g, rank, n))
  }
}
