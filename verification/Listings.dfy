/**
 The canonical graph of a finite set of trees that is closed under arguments: one row per tree, in the
 order of their bytes.
 */
module Listings {
  import opened Bytes
  import opened Sorting
  import opened Structure
  import opened Pieces
  import opened Trees
  import opened Uniqueness

  // ---------- A row for every tree ----------

  ghost function ListBytes(order: seq<Tree>): (bytes: seq<seq<byte>>)
    ensures |bytes| == |order|
  {
    seq(|order|, n requires 0 <= n < |order| => TreeBytes(order[n]))
  }

  /** The trees of the set, ascending by their bytes. */
  ghost predicate Listing(all: set<Tree>, order: seq<Tree>) {
    (forall t :: t in order <==> t in all) && Ascending(ListBytes(order))
  }

  ghost function Writer(all: set<Tree>, bytes: seq<byte>): (t: Tree)
    requires exists t :: t in all && TreeBytes(t) == bytes
    ensures t in all && TreeBytes(t) == bytes
  {
    var t :| t in all && TreeBytes(t) == bytes;
    t
  }

  lemma ListingExists(all: set<Tree>) returns (order: seq<Tree>)
    requires Closed(all) && Regular(all)
    ensures Listing(all, order)
  {
    hide TreeBytes;
    var q := Ordered(set t | t in all :: TreeBytes(t));
    assert forall n :: 0 <= n < |q| ==> q[n] in q;
    order := seq(|q|, n requires 0 <= n < |q| => Writer(all, q[n]));
    assert ListBytes(order) == q;
    forall t | t in all ensures t in order {
      assert TreeBytes(t) in q;
      var n :| 0 <= n < |q| && q[n] == TreeBytes(t);
      BytesInjective(all, t, order[n]);
    }
  }

  ghost function RowOf(order: seq<Tree>, t: Tree): (n: nat)
    requires t in order
    ensures n < |order| && order[n] == t
  {
    var n :| 0 <= n < |order| && order[n] == t;
    n
  }

  lemma RowUnique(order: seq<Tree>, n: nat)
    requires Ascending(ListBytes(order)) && n < |order|
    ensures RowOf(order, order[n]) == n
  {
    hide TreeBytes;
    var m := RowOf(order, order[n]);
    assert ListBytes(order)[m] == ListBytes(order)[n];
    DistinctRows(ListBytes(order), m, n);
  }

  /** The rows of a set of trees, rising. */
  ghost function RowsOf(order: seq<Tree>, members: set<Tree>): (rows: seq<nat>)
    requires forall m :: m in members ==> m in order
    ensures Rising(rows) && Within(rows, |order|)
    ensures forall n :: n in rows <==> exists m :: m in members && RowOf(order, m) == n
  {
    var rows := SetInOrder(Smaller, set m | m in members :: RowOf(order, m));
    assert forall i :: 0 <= i < |rows| ==> rows[i] in rows;
    rows
  }

  // ---------- The graph ----------

  ghost predicate Holds(order: seq<Tree>, a: Argument) {
    forall c :: Below(a, c) ==> c in order
  }

  ghost function ArgumentField(order: seq<Tree>, a: Argument): (f: Field)
    requires Holds(order, a)
    ensures Within(Refs(f), |order|)
  {
    match a
    case AbsentArgument => Absent
    case TreeArgument(t) => assert Below(a, t); Child(RowOf(order, t))
    case TextArgument(content) => Text(content)
    case RawArgument(content) => Raw(content)
    case IntegerArgument(value) => Integer(value)
    case EnumArgument(content) => Enum(content)
    case SetArgument(members) =>
      assert forall m :: m in members ==> Below(a, m);
      SetOf(RowsOf(order, members))
    case SequenceArgument(trees) =>
      assert forall i :: 0 <= i < |trees| ==> Below(a, trees[i]);
      SequenceOf(seq(|trees|, i requires 0 <= i < |trees| => RowOf(order, trees[i])))
  }

  ghost predicate HoldsAll(order: seq<Tree>, t: Tree) {
    forall k :: 0 <= k < |t.arguments| ==> Holds(order, t.arguments[k])
  }

  ghost function TreeNode(order: seq<Tree>, t: Tree): (node: Node)
    requires HoldsAll(order, t)
    ensures Bounded(node.fields, |order|)
  {
    var fields := seq(|t.arguments|, k requires 0 <= k < |t.arguments| => ArgumentField(order, t.arguments[k]));
    assert forall k :: 0 <= k < |fields| ==> fields[k] == ArgumentField(order, t.arguments[k]);
    Node(t.tag, fields)
  }

  ghost predicate SelfContained(order: seq<Tree>) {
    forall n :: 0 <= n < |order| ==> HoldsAll(order, order[n])
  }

  ghost function TreeGraph(order: seq<Tree>): (g: Graph)
    requires SelfContained(order)
    ensures |g| == |order| && Valid(g)
  {
    seq(|order|, n requires 0 <= n < |order| => TreeNode(order, order[n]))
  }

  lemma ListingSelfContained(all: set<Tree>, order: seq<Tree>)
    requires Closed(all) && Listing(all, order)
    ensures SelfContained(order)
  {
    forall n, k, c | 0 <= n < |order| && 0 <= k < |order[n].arguments| && Below(order[n].arguments[k], c)
      ensures c in order
    {
      assert order[n] in order && ChildOf(order[n], c);
    }
  }

  lemma SetPicks(order: seq<Tree>, a: Argument)
    requires Ascending(ListBytes(order)) && a.SetArgument? && forall m :: m in a.members ==> m in order
    ensures Picks(RowsOf(order, a.members), ListBytes(order)) == ArgumentPiece(a).items
  {
    hide TreeBytes, ArgumentPiece;
    var rows, bytes := RowsOf(order, a.members), ListBytes(order);
    var picks, q := Picks(rows, bytes), ArgumentPiece(a).items;
    PicksRise(rows, bytes);
    forall x ensures x in picks <==> x in q {
      if x in picks {
        var i :| 0 <= i < |picks| && picks[i] == x;
        assert rows[i] in rows;
        var m :| m in a.members && RowOf(order, m) == rows[i];
        assert x == TreeBytes(m);
      }
      if x in q {
        var m :| m in a.members && x == TreeBytes(m);
        assert RowOf(order, m) in rows;
        var i :| 0 <= i < |rows| && rows[i] == RowOf(order, m);
        assert picks[i] == x;
      }
    }
    AscendingUnique(picks, q);
  }

  lemma SetMembers(order: seq<Tree>, members: set<Tree>)
    requires forall m :: m in members ==> m in order
    ensures Members(RowsOf(order, members), order) == members
  {
    var rows := RowsOf(order, members);
    forall t ensures t in Members(rows, order) <==> t in members {
      if t in members {
        assert RowOf(order, t) in rows;
        var i :| 0 <= i < |rows| && rows[i] == RowOf(order, t);
        assert order[rows[i]] == t;
      }
      if t in Members(rows, order) {
        var i :| 0 <= i < |rows| && order[rows[i]] == t;
        assert rows[i] in rows;
      }
    }
  }

  /** The field of an argument writes the argument's piece and denotes the argument. */
  lemma FieldOfArgument(order: seq<Tree>, a: Argument)
    requires Ascending(ListBytes(order)) && Holds(order, a)
    ensures FieldPiece(ArgumentField(order, a), ListBytes(order)) == ArgumentPiece(a)
    ensures FieldTree(ArgumentField(order, a), order) == a
  {
    hide TreeBytes, RowsOf, RowOf;
    match a {
      case TreeArgument(t) => assert Below(a, t);
      case SetArgument(members) =>
        assert forall m :: m in members ==> Below(a, m);
        SetPicks(order, a);
        SetMembers(order, members);
      case SequenceArgument(trees) =>
        assert forall i :: 0 <= i < |trees| ==> Below(a, trees[i]);
        var rows := ArgumentField(order, a).items;
        assert Picks(rows, ListBytes(order)) == ArgumentPiece(a).items;
      case _ =>
    }
  }

  lemma GraphSerializes(order: seq<Tree>)
    requires SelfContained(order) && Ascending(ListBytes(order))
    ensures Serializes(TreeGraph(order), ListBytes(order))
  {
    hide TreeBytes, FieldPiece, ArgumentPiece, PiecesBytes, FieldsBytes, ArgumentField;
    var g, bytes := TreeGraph(order), ListBytes(order);
    forall n | 0 <= n < |g| ensures bytes[n] == NodeBytes(g[n], bytes) {
      var t := order[n];
      FieldsWrite(g[n].fields, bytes);
      TreeWrites(t);
      forall k | 0 <= k < |t.arguments| ensures FieldPieces(g[n].fields, bytes)[k] == ArgumentPieces(t.arguments)[k] {
        assert Holds(order, t.arguments[k]);
        FieldOfArgument(order, t.arguments[k]);
      }
      assert FieldPieces(g[n].fields, bytes) == ArgumentPieces(t.arguments);
    }
  }

  lemma GraphDenotes(order: seq<Tree>)
    requires SelfContained(order) && Ascending(ListBytes(order))
    ensures Denotes(TreeGraph(order), order)
  {
    hide TreeBytes, FieldPiece, ArgumentPiece, FieldTree, ArgumentField;
    var g := TreeGraph(order);
    forall n | 0 <= n < |g| ensures order[n] == NodeTree(g[n], order) {
      var t := order[n];
      forall k | 0 <= k < |t.arguments| ensures FieldTree(g[n].fields[k], order) == t.arguments[k] {
        assert Holds(order, t.arguments[k]);
        FieldOfArgument(order, t.arguments[k]);
      }
    }
  }

  // ---------- It is acyclic ----------

  ghost function MaxOf(s: set<nat>): (top: nat)
    ensures forall x :: x in s ==> x <= top
  {
    if s == {} then 0 else
    var x :| x in s;
    var rest := MaxOf(s - {x});
    assert forall y :: y in s ==> y == x || y in s - {x};
    if x < rest then rest else x
  }

  ghost function Height(t: Tree): (h: nat)
    ensures forall k :: 0 <= k < |t.arguments| ==> ArgumentHeight(t.arguments[k]) < h
    decreases t
  {
    var heights := set k | 0 <= k < |t.arguments| :: ArgumentHeight(t.arguments[k]);
    assert forall k :: 0 <= k < |t.arguments| ==> ArgumentHeight(t.arguments[k]) in heights;
    1 + MaxOf(heights)
  }

  ghost function ArgumentHeight(a: Argument): (h: nat)
    ensures forall c :: Below(a, c) ==> Height(c) <= h
    decreases a
  {
    match a
    case TreeArgument(t) => Height(t)
    case SetArgument(members) =>
      var heights := set m | m in members :: Height(m);
      assert forall m :: m in members ==> Height(m) in heights;
      MaxOf(heights)
    case SequenceArgument(trees) =>
      var heights := set i | 0 <= i < |trees| :: Height(trees[i]);
      assert forall i :: 0 <= i < |trees| ==> Height(trees[i]) in heights;
      MaxOf(heights)
    case _ => 0
  }

  lemma ChildLower(t: Tree, c: Tree)
    requires ChildOf(t, c)
    ensures Height(c) < Height(t)
  {
    hide MaxOf, Height, ArgumentHeight;
    var k :| 0 <= k < |t.arguments| && Below(t.arguments[k], c);
    assert ArgumentHeight(t.arguments[k]) < Height(t);
  }

  lemma FieldRefs(order: seq<Tree>, a: Argument, r: nat)
    requires Holds(order, a) && r < |Refs(ArgumentField(order, a))|
    ensures Below(a, order[Refs(ArgumentField(order, a))[r]])
  {
    hide RowOf, RowsOf;
    match a {
      case TreeArgument(t) => assert Below(a, t);
      case SetArgument(members) =>
        assert forall m :: m in members ==> Below(a, m);
        var rows := RowsOf(order, members);
        assert rows[r] in rows;
      case SequenceArgument(trees) =>
        assert forall i :: 0 <= i < |trees| ==> Below(a, trees[i]);
    }
  }

  ghost function Heights(order: seq<Tree>): (rank: seq<nat>)
    ensures |rank| == |order|
  {
    seq(|order|, n requires 0 <= n < |order| => Height(order[n]))
  }

  /** Edges of the graph are arguments of the trees. */
  lemma EdgeIsChild(order: seq<Tree>, a: nat, b: nat)
    requires SelfContained(order) && Edge(TreeGraph(order), a, b) && b < |order|
    ensures ChildOf(order[a], order[b])
  {
    hide ArgumentField;
    var g := TreeGraph(order);
    var k :| 0 <= k < |g[a].fields| && b in Refs(g[a].fields[k]);
    var refs := Refs(g[a].fields[k]);
    var r :| 0 <= r < |refs| && refs[r] == b;
    assert HoldsAll(order, order[a]);
    FieldRefs(order, order[a].arguments[k], r);
  }

  lemma GraphRanked(order: seq<Tree>)
    requires SelfContained(order)
    ensures Ranked(TreeGraph(order), Heights(order))
  {
    hide Height;
    forall a: nat, b: nat | Edge(TreeGraph(order), a, b) && b < |order| ensures Heights(order)[b] < Heights(order)[a] {
      EdgeIsChild(order, a, b);
      ChildLower(order[a], order[b]);
    }
  }

  lemma GraphSetsRise(order: seq<Tree>)
    requires SelfContained(order)
    ensures SetsRise(TreeGraph(order))
  {
    var g := TreeGraph(order);
    forall n, k | 0 <= n < |g| && 0 <= k < |g[n].fields| && g[n].fields[k].SetOf? ensures Rising(g[n].fields[k].items) {
      assert HoldsAll(order, order[n]);
      assert g[n].fields[k] == ArgumentField(order, order[n].arguments[k]);
    }
  }

  /** Bytes and trees of the graph are those of the listing. */
  lemma GraphSolved(all: set<Tree>, order: seq<Tree>) returns (s: Solved)
    requires Closed(all) && Listing(all, order)
    ensures SelfContained(order) && Canon(s) && s == Solved(TreeGraph(order), Heights(order), ListBytes(order), order)
  {
    ListingSelfContained(all, order);
    GraphSerializes(order);
    GraphDenotes(order);
    GraphRanked(order);
    GraphSetsRise(order);
    s := Solved(TreeGraph(order), Heights(order), ListBytes(order), order);
  }
}
