/**
 The other half of canonical form: every finite set of root trees that meets the constructor ledger,
 and that the columns are wide enough for, is the meaning of acceptable columns.
 */
module Existence {
  import opened Bytes
  import opened Sorting
  import opened Varint
  import Utf8
  import opened Structure
  import opened Rows
  import opened Validate
  import opened Uniqueness
  import opened Trees
  import opened Listings
  import opened Layout
  import opened Writing

  // ---------- Trees that meet the ledger ----------

  ghost predicate TreeEntity(t: Tree, wanted: Wanted) {
    && t.tag == 2 && t.arguments != [] && t.arguments[0].EnumArgument? && IsKindName(t.arguments[0].content)
    && (wanted == Anything || t.arguments[0].content == KindName(wanted.kind))
  }

  ghost predicate TreeRole(role: NodeRole, t: Tree) {
    match RoleNeed(role, t.tag)
    case Met => true
    case Unmet => false
    case EntityOf(wanted) => TreeEntity(t, wanted)
  }

  ghost function ArgumentKind(a: Argument): byte {
    match a
    case AbsentArgument => NONE
    case TreeArgument(_) => NODE
    case TextArgument(_) => TEXT
    case RawArgument(_) => BYTES
    case IntegerArgument(_) => INTEGER
    case EnumArgument(_) => ENUM
    case SetArgument(_) => SET
    case SequenceArgument(_) => SEQUENCE
  }

  ghost predicate ArgumentLegal(a: Argument) {
    match a
    case TextArgument(content) => Utf8.WellFormed(content)
    case EnumArgument(content) => content != [] && forall i :: 0 <= i < |content| ==> content[i] < 128
    case _ => true
  }

  ghost predicate ArgumentRole(role: FieldRole, a: Argument) {
    && ArgumentLegal(a)
    && match role
       case ScalarRole(kind) => ArgumentKind(a) == kind && !a.SetArgument? && !a.SequenceArgument?
       case EntityKindRole => a.EnumArgument? && IsKindName(a.content)
       case OptionalTextRole => a.AbsentArgument? || a.TextArgument?
       case NodeFieldRole(r) => a.TreeArgument? && TreeRole(r, a.tree)
       case SetRole(r) => a.SetArgument? && forall m :: m in a.members ==> TreeRole(r, m)
       case SequenceRole(r) => a.SequenceArgument? && forall i :: 0 <= i < |a.trees| ==> TreeRole(r, a.trees[i])
  }

  ghost predicate Fits(ledger: Ledger, t: Tree) {
    && t.tag in ledger && |t.arguments| == |ledger[t.tag]|
    && forall k :: 0 <= k < |t.arguments| ==> ArgumentRole(ledger[t.tag][k], t.arguments[k])
  }

  /** Every tree of the set meets the ledger. */
  ghost predicate Conforming(ledger: Ledger, all: set<Tree>) {
    Closed(all) && forall t :: t in all ==> Fits(ledger, t)
  }

  lemma ConformingRegular(ledger: Ledger, all: set<Tree>)
    requires Conforming(ledger, all)
    ensures Regular(all)
  {
    forall t, u | t in all && u in all && t.tag == u.tag ensures |t.arguments| == |u.arguments| {
      assert Fits(ledger, t) && Fits(ledger, u);
    }
  }

  // ---------- Their rows conform ----------

  /** A listing of the trees and the rows laid out for it. */
  ghost predicate LaidFor(ledger: Ledger, all: set<Tree>, order: seq<Tree>, kinds: seq<byte>, ids: seq<nat>) {
    && Conforming(ledger, all) && Listing(all, order) && SelfContained(order)
    && |kinds| == |ids| && RootsWithin(ids, |order|) && |order| < U32_LIMIT
    && |Lay(TreeGraph(order), kinds, ids).scalars| < U64_LIMIT
  }

  lemma FitsAt(ledger: Ledger, all: set<Tree>, order: seq<Tree>, kinds: seq<byte>, ids: seq<nat>, n: nat)
    requires LaidFor(ledger, all, order, kinds, ids) && n < |order|
    ensures Fits(ledger, order[n]) && HoldsAll(order, order[n])
  {
    assert order[n] in order;
  }

  lemma FieldLegal(order: seq<Tree>, a: Argument)
    requires Holds(order, a) && ArgumentLegal(a)
    ensures ContentLegal(ArgumentField(order, a))
  {
  }

  lemma GraphLegal(ledger: Ledger, all: set<Tree>, order: seq<Tree>, kinds: seq<byte>, ids: seq<nat>)
    requires LaidFor(ledger, all, order, kinds, ids)
    ensures Legal(TreeGraph(order))
  {
    hide Lay, ArgumentField, ContentLegal, ArgumentLegal, Listing, Conforming;
    var g := TreeGraph(order);
    forall n, k | 0 <= n < |g| && 0 <= k < |g[n].fields| ensures ContentLegal(g[n].fields[k]) {
      FitsAt(ledger, all, order, kinds, ids, n);
      var a := order[n].arguments[k];
      assert ArgumentRole(ledger[order[n].tag][k], a);
      FieldLegal(order, a);
    }
  }

  /** The rows hold argument `k` of tree `n` where they should. */
  ghost predicate ArgumentThere(rows: Rows, order: seq<Tree>, n: nat, k: nat)
    requires n < |order| && k < |order[n].arguments|
  {
    && |rows.tags| == |order| && |rows.offsets| == |order| + 1 && rows.tags[n] == order[n].tag
    && rows.offsets[n] + k < rows.offsets[n + 1] <= |rows.fields| && Placed(rows, rows.offsets[n] + k)
    && Holds(order, order[n].arguments[k])
    && FieldView(rows, rows.offsets[n] + k) == ArgumentField(order, order[n].arguments[k])
  }

  lemma ArgumentAt(ledger: Ledger, all: set<Tree>, order: seq<Tree>, kinds: seq<byte>, ids: seq<nat>, n: nat, k: nat)
    requires LaidFor(ledger, all, order, kinds, ids) && n < |order| && k < |order[n].arguments|
    ensures ArgumentThere(Lay(TreeGraph(order), kinds, ids), order, n, k)
  {
    hide Lay, ArgumentField, Placed, FieldView, View, Listing, Conforming, Legal, Laid;
    var rows, g := Lay(TreeGraph(order), kinds, ids), TreeGraph(order);
    GraphLegal(ledger, all, order, kinds, ids);
    LayView(g, kinds, ids);
    ViewCount(rows);
    ViewArity(rows, n);
    assert HoldsAll(order, order[n]);
    assert g[n].fields[k] == ArgumentField(order, order[n].arguments[k]);
    ViewRefs(rows, n, k);
  }

  lemma EntityAccepted(
    ledger: Ledger, all: set<Tree>, order: seq<Tree>, kinds: seq<byte>, ids: seq<nat>, n: nat, wanted: Wanted)
    requires LaidFor(ledger, all, order, kinds, ids) && n < |order| && TreeEntity(order[n], wanted)
    ensures
      var rows := Lay(TreeGraph(order), kinds, ids);
      n < |rows.tags| < |rows.offsets| && EntityRoleAccepts(rows, n, wanted) == Accept
  {
    hide Lay, Listing, Conforming, KindName, IsKindName, SelfContained, HoldsAll;
    ArgumentAt(ledger, all, order, kinds, ids, n, 0);
  }

  lemma RoleAccepted(
    ledger: Ledger, all: set<Tree>, order: seq<Tree>, kinds: seq<byte>, ids: seq<nat>, role: NodeRole, n: nat)
    requires LaidFor(ledger, all, order, kinds, ids) && n < |order| && TreeRole(role, order[n])
    ensures
      var rows := Lay(TreeGraph(order), kinds, ids);
      |rows.tags| < |rows.offsets| && NodeRoleAccepts(rows, role, n + 1) == Accept
  {
    hide TreeEntity, EntityRoleAccepts, Listing, Conforming, SelfContained, RoleNeed;
    if RoleNeed(role, order[n].tag).EntityOf? {
      EntityAccepted(ledger, all, order, kinds, ids, n, RoleNeed(role, order[n].tag).wanted);
    }
  }

  lemma LeafAccepted(
    ledger: Ledger, all: set<Tree>, order: seq<Tree>, kinds: seq<byte>, ids: seq<nat>, role: FieldRole, n: nat, k: nat)
    requires LaidFor(ledger, all, order, kinds, ids) && n < |order| && k < |order[n].arguments|
    requires ArgumentRole(role, order[n].arguments[k]) && !role.SetRole? && !role.SequenceRole?
    ensures
      var rows := Lay(TreeGraph(order), kinds, ids);
      && |rows.offsets| == |rows.tags| + 1 && n < |rows.tags| && rows.offsets[n] + k < |rows.fields|
      && FieldOk(rows, role, rows.offsets[n] + k)
  {
    hide Lay, Listing, Conforming, IsKindName, SelfContained, HoldsAll, TreeRole, NodeRoleAccepts, RowOf, RowsOf,
      Utf8.WellFormed,
      Minimal, ItemStart, ScalarStart, LittleEndian;
    var rows, a := Lay(TreeGraph(order), kinds, ids), order[n].arguments[k];
    ArgumentAt(ledger, all, order, kinds, ids, n, k);
    ComponentAt(TreeGraph(order), kinds, ids, n, k);
    assert TreeGraph(order)[n].fields[k] == ArgumentField(order, a);
    if a.TreeArgument? && role.NodeFieldRole? {
      assert Below(a, a.tree);
      RoleAccepted(ledger, all, order, kinds, ids, role.role, RowOf(order, a.tree));
    }
  }

  /** Item `i` of a laid collection is the row `node` and meets the role. */
  ghost predicate ItemMeets(rows: Rows, at: nat, i: nat, role: NodeRole, node: nat)
    requires at < |rows.fields| && |rows.tags| < |rows.offsets|
  {
    var f := rows.fields[at];
    && i < f.length && f.value + f.length <= |rows.items|
    && ItemOk(rows, role, f.value + i) && rows.items[f.value + i].value == node + 1
  }

  lemma CollectionReads(rows: Rows, at: nat, i: nat)
    requires at < |rows.fields| && Placed(rows, at)
    requires (FieldView(rows, at).SetOf? || FieldView(rows, at).SequenceOf?) && i < |FieldView(rows, at).items|
    ensures
      var f := rows.fields[at];
      && f.length == |FieldView(rows, at).items| && f.value + f.length <= |rows.items|
      && rows.items[f.value + i].kind == NODE && rows.items[f.value + i].value == FieldView(rows, at).items[i] + 1
  {
    hide ItemStart, ScalarStart;
    var f := rows.fields[at];
    assert ItemNodes(rows, f.value, f.length)[i] == FieldView(rows, at).items[i];
  }

  lemma ItemAccepted(
    ledger: Ledger, all: set<Tree>, order: seq<Tree>, kinds: seq<byte>, ids: seq<nat>, role: NodeRole, n: nat, k: nat,
      i: nat)
    requires LaidFor(ledger, all, order, kinds, ids) && n < |order| && k < |order[n].arguments|
    requires forall t :: Below(order[n].arguments[k], t) ==> TreeRole(role, t)
    requires Holds(order, order[n].arguments[k])
    requires i < |Refs(ArgumentField(order, order[n].arguments[k]))| && !order[n].arguments[k].TreeArgument?
    ensures
      var rows := Lay(TreeGraph(order), kinds, ids);
      && |rows.offsets| == |rows.tags| + 1 && n < |rows.tags| && rows.offsets[n] + k < |rows.fields|
      && ItemMeets(rows, rows.offsets[n] + k, i, role, Refs(ArgumentField(order, order[n].arguments[k]))[i])
  {
    hide Lay, Listing, Conforming, SelfContained, HoldsAll, TreeRole, NodeRoleAccepts, RowOf, RowsOf, Placed, FieldView,
      TreeGraph;
    var rows, a := Lay(TreeGraph(order), kinds, ids), order[n].arguments[k];
    ArgumentAt(ledger, all, order, kinds, ids, n, k);
    var field := ArgumentField(order, a);
    var f := rows.fields[rows.offsets[n] + k];
    assert Refs(field) == field.items;
    CollectionReads(rows, rows.offsets[n] + k, i);
    FieldRefs(order, a, i);
    RoleAccepted(ledger, all, order, kinds, ids, role, field.items[i]);
    LaidItems(TreeGraph(order), kinds, ids, f.value + i);
  }

  lemma CollectionHead(rows: Rows, at: nat)
    requires at < |rows.fields| && Placed(rows, at) && (FieldView(rows, at).SetOf? || FieldView(rows, at).SequenceOf?)
    ensures
      var f := rows.fields[at];
      && f.kind == (if FieldView(rows, at).SetOf? then SET else SEQUENCE) && f.length == |FieldView(rows, at).items|
      && f.value == ItemStart(rows.fields, at) && f.value + f.length <= |rows.items|
  {
  }

  lemma CollectionFrom(rows: Rows, role: NodeRole, at: nat)
    requires at < |rows.fields| && |rows.tags| < |rows.offsets|
    requires Placed(rows, at) && (FieldView(rows, at).SetOf? || FieldView(rows, at).SequenceOf?)
    requires forall i :: 0 <= i < |FieldView(rows, at).items| ==>
      ItemMeets(rows, at, i, role, FieldView(rows, at).items[i])
    requires FieldView(rows, at).SetOf? ==> Rising(FieldView(rows, at).items)
    ensures CollectionOk(rows, role, if FieldView(rows, at).SetOf? then SET else SEQUENCE, at)
  {
    hide Placed, FieldView, ItemOk, ItemStart;
    CollectionHead(rows, at);
    var f, items := rows.fields[at], FieldView(rows, at).items;
    forall j | f.value <= j < f.value + f.length
      ensures ItemOk(rows, role, j) && rows.items[j].value == items[j - f.value] + 1
    {
      assert ItemMeets(rows, at, j - f.value, role, items[j - f.value]);
    }
  }

  lemma CollectionAccepted(
    ledger: Ledger, all: set<Tree>, order: seq<Tree>, kinds: seq<byte>, ids: seq<nat>, role: FieldRole, n: nat, k: nat)
    requires LaidFor(ledger, all, order, kinds, ids) && n < |order| && k < |order[n].arguments|
    requires ArgumentRole(role, order[n].arguments[k]) && (role.SetRole? || role.SequenceRole?)
    ensures
      var rows := Lay(TreeGraph(order), kinds, ids);
      && |rows.offsets| == |rows.tags| + 1 && n < |rows.tags| && rows.offsets[n] + k < |rows.fields|
      && FieldOk(rows, role, rows.offsets[n] + k)
  {
    hide Lay, Listing, Conforming, SelfContained, HoldsAll, TreeRole, RowOf, RowsOf, Placed, FieldView, TreeGraph,
      ItemMeets, CollectionOk;
    var rows, a := Lay(TreeGraph(order), kinds, ids), order[n].arguments[k];
    ArgumentAt(ledger, all, order, kinds, ids, n, k);
    var field := ArgumentField(order, a);
    assert Refs(field) == field.items;
    forall i | 0 <= i < |field.items| ensures ItemMeets(rows, rows.offsets[n] + k, i, role.role, field.items[i]) {
      ItemAccepted(ledger, all, order, kinds, ids, role.role, n, k, i);
    }
    CollectionFrom(rows, role.role, rows.offsets[n] + k);
  }

  lemma FieldAccepted(
    ledger: Ledger, all: set<Tree>, order: seq<Tree>, kinds: seq<byte>, ids: seq<nat>, role: FieldRole, n: nat, k: nat)
    requires LaidFor(ledger, all, order, kinds, ids) && n < |order| && k < |order[n].arguments|
    requires ArgumentRole(role, order[n].arguments[k])
    ensures
      var rows := Lay(TreeGraph(order), kinds, ids);
      && |rows.offsets| == |rows.tags| + 1 && n < |rows.tags| && rows.offsets[n] + k < |rows.fields|
      && FieldOk(rows, role, rows.offsets[n] + k)
  {
    hide LaidFor, Lay, FieldOk, ArgumentRole, TreeGraph;
    if role.SetRole? || role.SequenceRole? {
      CollectionAccepted(ledger, all, order, kinds, ids, role, n, k);
    } else {
      LeafAccepted(ledger, all, order, kinds, ids, role, n, k);
    }
  }

  /** Rows that own their fields, for a laid listing. */
  lemma OffsetsAccepted(ledger: Ledger, all: set<Tree>, order: seq<Tree>, kinds: seq<byte>, ids: seq<nat>)
    requires LaidFor(ledger, all, order, kinds, ids)
    ensures OffsetsOk(Lay(TreeGraph(order), kinds, ids), ledger)
  {
    hide Listing, Conforming, Legal, Fits, Concat, Placing, ItemParts, Contents;
    var rows, g := Lay(TreeGraph(order), kinds, ids), TreeGraph(order);
    GraphLegal(ledger, all, order, kinds, ids);
    LayLaid(g, kinds, ids);
    forall n | 0 <= n < |rows.tags| ensures OffsetOk(rows, ledger, n) {
      FitsArity(ledger, all, order, kinds, ids, n);
      assert Owns(rows, n);
      ConcatNext(FieldLists(g), n);
    }
  }

  lemma FitsArity(ledger: Ledger, all: set<Tree>, order: seq<Tree>, kinds: seq<byte>, ids: seq<nat>, n: nat)
    requires LaidFor(ledger, all, order, kinds, ids) && n < |order|
    ensures order[n].tag in ledger && |TreeGraph(order)[n].fields| == |ledger[order[n].tag]| == |order[n].arguments|
  {
    FitsAt(ledger, all, order, kinds, ids, n);
  }

  lemma FieldsAccepted(ledger: Ledger, all: set<Tree>, order: seq<Tree>, kinds: seq<byte>, ids: seq<nat>)
    requires LaidFor(ledger, all, order, kinds, ids)
    ensures OffsetsOk(Lay(TreeGraph(order), kinds, ids), ledger) && FieldsOk(Lay(TreeGraph(order), kinds, ids), ledger)
  {
    hide Listing, Conforming, FieldOk, Concat, Placing, ItemParts, Contents, ArgumentRole, ItemStart, ScalarStart,
      OffsetsOk;
    var rows := Lay(TreeGraph(order), kinds, ids);
    OffsetsAccepted(ledger, all, order, kinds, ids);
    WholeArenas(AllFields(TreeGraph(order)));
    forall n | 0 <= n < |rows.tags| ensures NodeFieldsOk(rows, ledger, n) {
      FitsAt(ledger, all, order, kinds, ids, n);
      var roles := ledger[rows.tags[n]];
      forall k | 0 <= k < |roles|
        ensures rows.offsets[n] + k < |rows.fields| && FieldOk(rows, roles[k], rows.offsets[n] + k)
      {
        FieldAccepted(ledger, all, order, kinds, ids, roles[k], n, k);
      }
    }
  }

  // ---------- Subtrees ----------

  ghost function Sub(t: Tree): (s: set<Tree>)
    ensures t in s
    decreases t
  {
    {t} + set k, x | 0 <= k < |t.arguments| && x in SubArgument(t.arguments[k]) :: x
  }

  ghost function SubArgument(a: Argument): set<Tree>
    decreases a
  {
    match a
    case TreeArgument(t) => Sub(t)
    case SetArgument(members) => set m, x | m in members && x in Sub(m) :: x
    case SequenceArgument(trees) => set i, x | 0 <= i < |trees| && x in Sub(trees[i]) :: x
    case _ => {}
  }

  lemma SubIs(t: Tree, x: Tree)
    ensures x in Sub(t) <==> x == t || exists c :: ChildOf(t, c) && x in Sub(c)
  {
    forall k | 0 <= k < |t.arguments|
      ensures x in SubArgument(t.arguments[k]) <==> exists c :: Below(t.arguments[k], c) && x in Sub(c)
    {
      SubArgumentIs(t.arguments[k], x);
    }
    if c :| ChildOf(t, c) && x in Sub(c) {
      var k :| 0 <= k < |t.arguments| && Below(t.arguments[k], c);
      assert x in SubArgument(t.arguments[k]);
    }
    if x in Sub(t) && x != t {
      var k :| 0 <= k < |t.arguments| && x in SubArgument(t.arguments[k]);
      var c :| Below(t.arguments[k], c) && x in Sub(c);
      assert ChildOf(t, c);
    }
  }

  lemma SubArgumentIs(a: Argument, x: Tree)
    ensures x in SubArgument(a) <==> exists c :: Below(a, c) && x in Sub(c)
  {
    match a {
      case TreeArgument(t) => assert Below(a, t);
      case SetArgument(members) => assert forall m :: m in members ==> Below(a, m);
      case SequenceArgument(trees) => assert forall i :: 0 <= i < |trees| ==> Below(a, trees[i]);
      case _ =>
    }
  }

  lemma {:induction false} SubClosed(t: Tree, x: Tree, c: Tree)
    requires x in Sub(t) && ChildOf(x, c)
    ensures c in Sub(t)
    decreases t
  {
    hide Sub;
    SubIs(t, x);
    SubIs(t, c);
    SubIs(c, c);
    if x != t {
      var d :| ChildOf(t, d) && x in Sub(d);
      var k :| 0 <= k < |t.arguments| && Below(t.arguments[k], d);
      ChildSmaller(t, k, d);
      SubClosed(d, x, c);
    }
  }

  /** The trees at and below the roots. */
  ghost function Subtrees(roots: set<Root>): set<Tree> {
    set r, x | r in roots && x in Sub(r.tree) :: x
  }

  lemma SubtreesClosed(roots: set<Root>)
    ensures Closed(Subtrees(roots)) && forall r :: r in roots ==> r.tree in Subtrees(roots)
  {
    hide Sub;
    forall t, c | t in Subtrees(roots) && ChildOf(t, c) ensures c in Subtrees(roots) {
      var r :| r in roots && t in Sub(r.tree);
      SubClosed(r.tree, t, c);
    }
    forall r | r in roots ensures r.tree in Subtrees(roots) {
      assert r.tree in Sub(r.tree);
    }
  }

  /** A child's row is referred to by its parent's. */
  lemma ChildIsEdge(order: seq<Tree>, n: nat, c: Tree)
    requires SelfContained(order) && n < |order| && ChildOf(order[n], c)
    ensures c in order && Edge(TreeGraph(order), n, RowOf(order, c))
  {
    assert HoldsAll(order, order[n]);
    var k :| 0 <= k < |order[n].arguments| && Below(order[n].arguments[k], c);
    var a := order[n].arguments[k];
    assert Holds(order, a);
    BelowIsRef(order, a, c);
    assert TreeGraph(order)[n].fields[k] == ArgumentField(order, a);
  }

  lemma BelowIsRef(order: seq<Tree>, a: Argument, c: Tree)
    requires Holds(order, a) && Below(a, c)
    ensures c in order && RowOf(order, c) in Refs(ArgumentField(order, a))
  {
    hide RowOf, RowsOf;
    match a {
      case TreeArgument(t) =>
      case SetArgument(members) =>
        assert forall m :: m in members ==> Below(a, m);
        assert RowOf(order, c) in RowsOf(order, members);
      case SequenceArgument(trees) =>
        assert forall i :: 0 <= i < |trees| ==> Below(a, trees[i]);
        var i :| 0 <= i < |trees| && trees[i] == c;
        assert Refs(ArgumentField(order, a))[i] == RowOf(order, c);
    }
  }

  lemma {:induction false} SubReached(order: seq<Tree>, starts: seq<nat>, t: Tree, x: Tree)
    requires SelfContained(order) && t in order && x in Sub(t) && Reachable(TreeGraph(order), starts, RowOf(order, t))
    ensures x in order && Reachable(TreeGraph(order), starts, RowOf(order, x))
    decreases t
  {
    hide Sub, Reachable, TreeGraph, SelfContained;
    SubIs(t, x);
    if x != t {
      var c :| ChildOf(t, c) && x in Sub(c);
      ChildIsEdge(order, RowOf(order, t), c);
      ReachStep(TreeGraph(order), starts, RowOf(order, t), RowOf(order, c));
      var k :| 0 <= k < |t.arguments| && Below(t.arguments[k], c);
      ChildSmaller(t, k, c);
      SubReached(order, starts, c, x);
    }
  }

  // ---------- Roots ----------

  lemma KeysTotal()
    ensures StrictTotal(KeyBefore)
  {
  }

  ghost function KeyOf(order: seq<Tree>, r: Root): RootKey
    requires r.tree in order
  {
    RootKey(r.kind, RowOf(order, r.tree) + 1)
  }

  ghost predicate FromRoot(order: seq<Tree>, roots: set<Root>, key: RootKey) {
    exists r :: r in roots && r.tree in order && KeyOf(order, r) == key
  }

  /** The roots as keys, in order. */
  ghost predicate Keyed(order: seq<Tree>, roots: set<Root>, keys: seq<RootKey>) {
    && (forall r :: r in roots ==> r.tree in order)
    && Sorted(KeyBefore, keys)
    && (forall i :: 0 <= i < |keys| ==> FromRoot(order, roots, keys[i]))
    && (forall r :: r in roots ==> KeyOf(order, r) in keys)
  }

  lemma KeysListed(order: seq<Tree>, roots: set<Root>) returns (keys: seq<RootKey>)
    requires forall r :: r in roots ==> r.tree in order
    ensures Keyed(order, roots, keys)
  {
    KeysTotal();
    keys := SetInOrder(KeyBefore, set r | r in roots :: KeyOf(order, r));
    forall i | 0 <= i < |keys| ensures FromRoot(order, roots, keys[i]) {
      assert keys[i] in keys;
    }
  }

  ghost function Kinds(keys: seq<RootKey>): seq<byte> {
    seq(|keys|, i requires 0 <= i < |keys| => keys[i].kind)
  }

  ghost function Ids(keys: seq<RootKey>): seq<nat> {
    seq(|keys|, i requires 0 <= i < |keys| => keys[i].id)
  }

  /** Roots of the right constructors whose trees meet the ledger. */
  ghost predicate ValidRoots(ledger: Ledger, roots: set<Root>) {
    Conforming(ledger, Subtrees(roots)) && forall r :: r in roots ==> RootAccepts(r.kind, r.tree.tag)
  }

  lemma RootsAccepted(ledger: Ledger, roots: set<Root>, order: seq<Tree>, keys: seq<RootKey>)
    requires LaidFor(ledger, Subtrees(roots), order, Kinds(keys), Ids(keys)) && Keyed(order, roots, keys) &&
      ValidRoots(ledger, roots)
    ensures RootsOk(Lay(TreeGraph(order), Kinds(keys), Ids(keys)))
  {
    hide Listing, Concat, Placing, ItemParts, Contents, FieldLists, Conforming, RootAccepts, Sub, Subtrees;
    var rows := Lay(TreeGraph(order), Kinds(keys), Ids(keys));
    forall i | 0 <= i < |rows.rootIds| ensures RootOk(rows, i) {
      assert FromRoot(order, roots, keys[i]);
      var r :| r in roots && r.tree in order && KeyOf(order, r) == keys[i];
      assert rows.tags[RowOf(order, r.tree)] == r.tree.tag;
    }
    forall i, j | 0 <= i < j < |rows.rootIds| ensures RootBefore(rows, i, j) {
      assert KeyBefore(keys[i], keys[j]);
    }
  }

  // ---------- The rows are canonical ----------

  lemma {:induction false} DenotesUniqueAt(g: Graph, rank: seq<nat>, s: seq<Tree>, t: seq<Tree>, n: nat)
    requires Denotes(g, s) && Denotes(g, t) && Ranked(g, rank) && n < |g|
    ensures s[n] == t[n]
    decreases rank[n]
  {
    forall k | 0 <= k < |g[n].fields| ensures Same(Refs(g[n].fields[k]), s, t) {
      var refs := Refs(g[n].fields[k]);
      forall i | 0 <= i < |refs| ensures s[refs[i]] == t[refs[i]] {
        assert Edge(g, n, refs[i]);
        DenotesUniqueAt(g, rank, s, t, refs[i]);
      }
    }
    NodeTreeLocal(g[n], s, t);
  }

  lemma SolutionsUnique(g: Graph, rank: seq<nat>, sers: seq<seq<byte>>, trees: seq<Tree>)
    requires Ranked(g, rank) && Serializes(g, sers) && Denotes(g, trees)
    ensures Acyclic(g) && Ser(g) == sers && Den(g) == trees
  {
    forall n | 0 <= n < |g| ensures Ser(g)[n] == sers[n] && Den(g)[n] == trees[n] {
      SerializesUniqueAt(g, rank, Ser(g), sers, n);
      DenotesUniqueAt(g, rank, Den(g), trees, n);
    }
  }

  /** Everything the rows say of the graph is what the listing says. */
  lemma RowsSolved(ledger: Ledger, all: set<Tree>, order: seq<Tree>, kinds: seq<byte>, ids: seq<nat>)
    requires LaidFor(ledger, all, order, kinds, ids)
    ensures
      var rows, g := Lay(TreeGraph(order), kinds, ids), TreeGraph(order);
      Laid(rows) && View(rows) == g && Acyclic(g) && Ser(g) == ListBytes(order) && Den(g) == order && Ascending(Ser(g))
  {
    hide Lay, Legal, Laid, View, Conforming, Canon, TreeGraph, SelfContained;
    GraphLegal(ledger, all, order, kinds, ids);
    LayView(TreeGraph(order), kinds, ids);
    ConformingClosed(ledger, all);
    var s := GraphSolved(all, order);
    CanonParts(s);
    SolutionsUnique(s.g, s.rank, s.sers, s.trees);
  }

  lemma ConformingClosed(ledger: Ledger, all: set<Tree>)
    requires Conforming(ledger, all)
    ensures Closed(all)
  {
  }

  lemma CanonParts(s: Solved)
    requires Canon(s)
    ensures Ranked(s.g, s.rank) && Serializes(s.g, s.sers) && Denotes(s.g, s.trees) && Ascending(s.sers)
  {
  }

  lemma RootIsStart(rows: Rows, order: seq<Tree>, roots: set<Root>, keys: seq<RootKey>, r: Root)
    requires Laid(rows) && rows.rootIds == Ids(keys) && Keyed(order, roots, keys) && r in roots
    ensures RowOf(order, r.tree) in RootNodes(rows)
  {
    hide Placed, Owns, RowOf;
    var i :| 0 <= i < |keys| && keys[i] == KeyOf(order, r);
    assert RootNodes(rows)[i] == RowOf(order, r.tree);
  }

  lemma SubtreeReached(roots: set<Root>, order: seq<Tree>, starts: seq<nat>, n: nat)
    requires Listing(Subtrees(roots), order) && SelfContained(order) && n < |order|
    requires forall r :: r in roots ==> r.tree in order && RowOf(order, r.tree) in starts
    ensures Reachable(TreeGraph(order), starts, n)
  {
    hide Sub, Reachable, TreeGraph, SelfContained, RowOf;
    assert order[n] in order;
    var r :| r in roots && order[n] in Sub(r.tree);
    ReachRoot(TreeGraph(order), starts, RowOf(order, r.tree));
    SubReached(order, starts, r.tree, order[n]);
    RowUnique(order, n);
  }

  lemma RowReached(ledger: Ledger, roots: set<Root>, order: seq<Tree>, keys: seq<RootKey>, n: nat)
    requires LaidFor(ledger, Subtrees(roots), order, Kinds(keys), Ids(keys)) && Keyed(order, roots, keys) && n < |order|
    requires Laid(Lay(TreeGraph(order), Kinds(keys), Ids(keys)))
    ensures Reachable(TreeGraph(order), RootNodes(Lay(TreeGraph(order), Kinds(keys), Ids(keys))), n)
  {
    hide Laid, Lay, Listing, Conforming, Sub, Subtrees, Reachable, TreeGraph, SelfContained, RowOf, RootNodes, KeyOf;
    var rows := Lay(TreeGraph(order), Kinds(keys), Ids(keys));
    LayRoots(TreeGraph(order), Kinds(keys), Ids(keys));
    forall r | r in roots ensures r.tree in order && RowOf(order, r.tree) in RootNodes(rows) {
      RootIsStart(rows, order, roots, keys, r);
    }
    SubtreeReached(roots, order, RootNodes(rows), n);
  }

  lemma LayRoots(g: Graph, kinds: seq<byte>, ids: seq<nat>)
    ensures Lay(g, kinds, ids).rootIds == ids && Lay(g, kinds, ids).rootKinds == kinds
  {
  }

  lemma MeaningIs(ledger: Ledger, roots: set<Root>, order: seq<Tree>, keys: seq<RootKey>)
    requires LaidFor(ledger, Subtrees(roots), order, Kinds(keys), Ids(keys)) && Keyed(order, roots, keys)
    requires var rows := Lay(TreeGraph(order), Kinds(keys), Ids(keys));
      Laid(rows) && Acyclic(View(rows)) && Den(View(rows)) == order
    ensures Meaning(Lay(TreeGraph(order), Kinds(keys), Ids(keys))) == roots
  {
    hide Laid, View, Den, Acyclic, Conforming, Sub, Subtrees, TreeGraph, Listing, Concat, Placing, ItemParts, Contents,
      FieldLists;
    var rows := Lay(TreeGraph(order), Kinds(keys), Ids(keys));
    forall i | 0 <= i < |rows.rootIds| ensures RootAt(rows, i) in roots && KeyOf(order, RootAt(rows, i)) == keys[i] {
      assert FromRoot(order, roots, keys[i]);
      var r :| r in roots && r.tree in order && KeyOf(order, r) == keys[i];
      assert RootAt(rows, i) == r;
    }
    forall r | r in roots ensures r in Meaning(rows) {
      var i :| 0 <= i < |keys| && keys[i] == KeyOf(order, r);
      assert RootAt(rows, i) == r;
    }
  }

  /** The laid rows are accepted and mean the roots. */
  lemma RowsSettled(ledger: Ledger, roots: set<Root>, order: seq<Tree>, keys: seq<RootKey>)
    requires LaidFor(ledger, Subtrees(roots), order, Kinds(keys), Ids(keys)) && Keyed(order, roots, keys) &&
      ValidRoots(ledger, roots)
    ensures
      var rows := Lay(TreeGraph(order), Kinds(keys), Ids(keys));
      Settled(rows, ledger) && Meaning(rows) == roots
  {
    hide Laid, View, Den, Ser, Acyclic, Conforming, Sub, Subtrees, TreeGraph, Listing, Lay, SelfContained, OffsetsOk,
      FieldsOk, RootsOk, Reachable, Meaning, Keyed, RootNodes;
    var rows := Lay(TreeGraph(order), Kinds(keys), Ids(keys));
    FieldsAccepted(ledger, Subtrees(roots), order, Kinds(keys), Ids(keys));
    RootsAccepted(ledger, roots, order, keys);
    RowsSolved(ledger, Subtrees(roots), order, Kinds(keys), Ids(keys));
    forall n | 0 <= n < |View(rows)| ensures Reachable(View(rows), RootNodes(rows), n) {
      RowReached(ledger, roots, order, keys, n);
    }
    MeaningIs(ledger, roots, order, keys);
  }

  // ---------- Columns ----------

  /** The columns are wide enough for the trees. */
  ghost predicate RoomFor(order: seq<Tree>) {
    && |order| < U32_LIMIT && (forall n :: 0 <= n < |order| ==> order[n].tag < 65536)
    && SelfContained(order)
    && var rows := Lay(TreeGraph(order), [], []);
    |rows.fields| < U64_LIMIT && |rows.items| < U64_LIMIT && |rows.scalars| < U64_LIMIT
  }

  ghost predicate RoomForAll(roots: set<Root>) {
    forall order :: Listing(Subtrees(roots), order) ==> RoomFor(order)
  }

  lemma FieldStorable(rows: Rows, role: FieldRole, k: nat)
    requires k < |rows.fields| && |rows.tags| < |rows.offsets| && FieldOk(rows, role, k)
    requires |rows.items| < U64_LIMIT && |rows.scalars| < U64_LIMIT
    ensures rows.fields[k].value < U64_LIMIT && rows.fields[k].length < U64_LIMIT
  {
    hide NodeRoleAccepts, EntityKindScalar, ContentOk, ItemStart, ScalarStart;
  }

  lemma RowsStorable(ledger: Ledger, all: set<Tree>, order: seq<Tree>, kinds: seq<byte>, ids: seq<nat>)
    requires LaidFor(ledger, all, order, kinds, ids) && RoomFor(order)
    requires Conforms(Lay(TreeGraph(order), kinds, ids), ledger)
    ensures Storable(Lay(TreeGraph(order), kinds, ids))
  {
    hide Listing, Conforming, Concat, Placing, ItemParts, Contents, FieldLists, FieldOk, ItemStart, ScalarStart,
      TreeGraph, SelfContained;
    var rows, g := Lay(TreeGraph(order), kinds, ids), TreeGraph(order);
    ConformsLaid(rows, ledger);
    forall k | 0 <= k < |rows.fields| ensures rows.fields[k].value < U64_LIMIT && rows.fields[k].length < U64_LIMIT {
      var n := OwnerOf(rows, k);
      assert OffsetOk(rows, ledger, n) && NodeFieldsOk(rows, ledger, n);
      var position := k - rows.offsets[n];
      assert FieldOk(rows, ledger[rows.tags[n]][position], rows.offsets[n] + position);
      FieldStorable(rows, ledger[rows.tags[n]][position], k);
    }
    forall j | 0 <= j < |rows.items| ensures rows.items[j].value < U64_LIMIT && rows.items[j].length < U64_LIMIT {
      LaidItems(g, kinds, ids, j);
    }
    forall n | 0 <= n < |rows.offsets| ensures rows.offsets[n] < U64_LIMIT {
      assert n > 0 ==> Owns(rows, n - 1);
    }
    forall n | 0 <= n < |rows.tags| ensures rows.tags[n] < 65536 {
      TagAt(order, n);
    }
  }

  lemma TagAt(order: seq<Tree>, n: nat)
    requires SelfContained(order) && n < |order|
    ensures TreeGraph(order)[n].tag == order[n].tag
  {
  }

  /**
   Every finite set of roots that meets the ledger, and that the columns have room for, is the meaning
   of acceptable columns.
   */
  lemma EverySetHasColumns(ledger: Ledger, roots: set<Root>) returns (c: Columns)
    requires ValidRoots(ledger, roots) && RoomForAll(roots)
    ensures Acceptable(c, ledger) && ColumnsMeaning(c, ledger) == roots
  {
    hide Conforming, Subtrees, TreeGraph, Lay, SelfContained, Listing, Keyed, Storable, ColumnsOf, Settled, Meaning,
      Canonical, Read, Shaped;
    var order, keys := ListedRoots(ledger, roots);
    RowsSettled(ledger, roots, order, keys);
    var rows := Lay(TreeGraph(order), Kinds(keys), Ids(keys));
    SettledConforms(rows, ledger);
    RowsStorable(ledger, Subtrees(roots), order, Kinds(keys), Ids(keys));
    c := ColumnsOf(rows);
    ColumnsRead(rows);
    AcceptableIs(c, ledger);
  }

  lemma SettledConforms(rows: Rows, ledger: Ledger)
    requires Settled(rows, ledger)
    ensures Conforms(rows, ledger) && Laid(rows) && Canonical(rows)
  {
  }

  lemma ListedRoots(ledger: Ledger, roots: set<Root>) returns (order: seq<Tree>, keys: seq<RootKey>)
    requires ValidRoots(ledger, roots) && RoomForAll(roots)
    ensures Keyed(order, roots, keys) && RoomFor(order) &&
      LaidFor(ledger, Subtrees(roots), order, Kinds(keys), Ids(keys))
  {
    hide Conforming, Subtrees, TreeGraph, Concat, Placing, ItemParts, Contents, FieldLists;
    var all := Subtrees(roots);
    ConformingRegular(ledger, all);
    SubtreesClosed(roots);
    order := ListingExists(all);
    keys := KeysListed(order, roots);
    forall i | 0 <= i < |keys| ensures 1 <= Ids(keys)[i] <= |order| {
      assert FromRoot(order, roots, keys[i]);
    }
    assert RoomFor(order);
  }

  // ---------- And nothing else is a meaning ----------

  /** Entities have a kind field to read. */
  ghost predicate EntitiesHaveKinds(ledger: Ledger) {
    2 in ledger ==> ledger[2] != []
  }

  lemma EntityRead(rows: Rows, ledger: Ledger, trees: seq<Tree>, n: nat, wanted: Wanted)
    requires Conforms(rows, ledger) && Laid(rows) && Denotes(View(rows), trees) && EntitiesHaveKinds(ledger)
    requires n < |rows.tags| && EntityRoleAccepts(rows, n, wanted) == Accept
    ensures TreeEntity(trees[n], wanted)
  {
    hide Laid, View, FieldsOk, RootsOk, KindName, IsKindName;
    ViewIsValid(rows);
    ViewArity(rows, n);
    assert OffsetOk(rows, ledger, n);
    ViewRefs(rows, n, 0);
    NodeTreeAt(View(rows), trees, n, 0);
  }

  lemma NodeTreeAt(g: Graph, trees: seq<Tree>, n: nat, k: nat)
    requires Denotes(g, trees) && n < |g| && k < |g[n].fields|
    ensures trees[n].tag == g[n].tag && |trees[n].arguments| == |g[n].fields| && Within(Refs(g[n].fields[k]), |trees|)
    ensures trees[n].arguments[k] == FieldTree(g[n].fields[k], trees)
  {
    assert Bounded(g[n].fields, |g|);
    assert trees[n] == NodeTree(g[n], trees);
  }

  lemma RoleRead(rows: Rows, ledger: Ledger, trees: seq<Tree>, role: NodeRole, id: nat)
    requires Conforms(rows, ledger) && Laid(rows) && Denotes(View(rows), trees) && EntitiesHaveKinds(ledger)
    requires NodeRoleAccepts(rows, role, id) == Accept
    ensures 1 <= id <= |rows.tags| == |trees| && TreeRole(role, trees[id - 1])
  {
    hide Laid, View, Conforms, RoleNeed, EntityRoleAccepts, TreeEntity;
    ViewIsValid(rows);
    ViewArity(rows, id - 1);
    TagOf(View(rows), trees, id - 1);
    if RoleNeed(role, rows.tags[id - 1]).EntityOf? {
      EntityRead(rows, ledger, trees, id - 1, RoleNeed(role, rows.tags[id - 1]).wanted);
    }
  }

  lemma TagOf(g: Graph, trees: seq<Tree>, n: nat)
    requires Denotes(g, trees) && n < |g|
    ensures trees[n].tag == g[n].tag && |trees[n].arguments| == |g[n].fields|
  {
  }

  lemma LeafRead(rows: Rows, ledger: Ledger, trees: seq<Tree>, role: FieldRole, at: nat)
    requires Conforms(rows, ledger) && Laid(rows) && Denotes(View(rows), trees) && EntitiesHaveKinds(ledger)
    requires at < |rows.fields| && Placed(rows, at) && FieldOk(rows, role, at) && !role.SetRole? && !role.SequenceRole?
    requires Within(Refs(FieldView(rows, at)), |trees|)
    ensures ArgumentRole(role, FieldTree(FieldView(rows, at), trees))
  {
    hide Laid, View, Conforms, Denotes, NodeRoleAccepts, TreeRole, IsKindName, Utf8.WellFormed, ItemStart, ScalarStart,
      LittleEndian;
    var f := rows.fields[at];
    if role.NodeFieldRole? {
      RoleRead(rows, ledger, trees, role.role, f.value);
      assert Refs(FieldView(rows, at))[0] == f.value - 1;
    }
  }

  lemma CollectionRead(rows: Rows, ledger: Ledger, trees: seq<Tree>, role: FieldRole, at: nat)
    requires |rows.tags| < |rows.offsets| && Conforms(rows, ledger) && Laid(rows) && Denotes(View(rows), trees) &&
      EntitiesHaveKinds(ledger)
    requires at < |rows.fields| && Placed(rows, at) && FieldOk(rows, role, at) && (role.SetRole? || role.SequenceRole?)
    requires Within(Refs(FieldView(rows, at)), |trees|)
    ensures ArgumentRole(role, FieldTree(FieldView(rows, at), trees))
  {
    hide Laid, View, Conforms, Denotes, NodeRoleAccepts, TreeRole, ItemStart, ScalarStart;
    var f, field := rows.fields[at], FieldView(rows, at);
    assert Refs(field) == field.items;
    forall i | 0 <= i < |field.items| ensures TreeRole(role.role, trees[field.items[i]]) {
      CollectionReads(rows, at, i);
      assert ItemOk(rows, role.role, f.value + i);
      RoleRead(rows, ledger, trees, role.role, rows.items[f.value + i].value);
    }
  }

  /** Every tree that accepted rows denote meets the ledger. */
  lemma TreeFits(rows: Rows, ledger: Ledger, trees: seq<Tree>, n: nat)
    requires Conforms(rows, ledger) && Laid(rows) && Denotes(View(rows), trees) && EntitiesHaveKinds(ledger) &&
      n < |rows.tags|
    ensures n < |trees| && Fits(ledger, trees[n])
  {
    hide Laid, View, Denotes, RootsOk, FieldOk, ArgumentRole, Placed, FieldView, FieldTree;
    ViewIsValid(rows);
    ViewArity(rows, n);
    DenotesCount(View(rows), trees);
    TagOf(View(rows), trees, n);
    assert OffsetOk(rows, ledger, n) && NodeFieldsOk(rows, ledger, n);
    var roles := ledger[rows.tags[n]];
    forall k | 0 <= k < |roles| ensures ArgumentRole(roles[k], trees[n].arguments[k]) {
      ViewRefs(rows, n, k);
      NodeTreeAt(View(rows), trees, n, k);
      assert FieldOk(rows, roles[k], rows.offsets[n] + k);
      if roles[k].SetRole? || roles[k].SequenceRole? {
        CollectionRead(rows, ledger, trees, roles[k], rows.offsets[n] + k);
      } else {
        LeafRead(rows, ledger, trees, roles[k], rows.offsets[n] + k);
      }
    }
  }

  lemma DenotesCount(g: Graph, trees: seq<Tree>)
    requires Denotes(g, trees)
    ensures |trees| == |g|
  {
  }

  /** The trees of a graph are closed under arguments. */
  lemma DenotedChild(g: Graph, trees: seq<Tree>, n: nat, c: Tree)
    requires Denotes(g, trees) && n < |g| && ChildOf(trees[n], c)
    ensures c in trees
  {
    TagOf(g, trees, n);
    var k :| 0 <= k < |trees[n].arguments| && Below(trees[n].arguments[k], c);
    NodeTreeAt(g, trees, n, k);
    var f := g[n].fields[k];
    match f {
      case Child(node) => assert Refs(f)[0] == node && c == trees[node];
      case SetOf(items) =>
        assert Refs(f) == items;
        var i :| 0 <= i < |items| && trees[items[i]] == c;
      case SequenceOf(items) =>
        assert Refs(f) == items;
        var i :| 0 <= i < |items| && trees[n].arguments[k].trees[i] == c;
        assert c == trees[items[i]];
      case _ =>
    }
  }

  lemma {:induction false} SubDenoted(g: Graph, trees: seq<Tree>, t: Tree, x: Tree)
    requires Denotes(g, trees) && t in trees && x in Sub(t)
    ensures x in trees
    decreases t
  {
    hide Sub, Denotes;
    SubIs(t, x);
    if x != t {
      var c :| ChildOf(t, c) && x in Sub(c);
      var n :| 0 <= n < |trees| && trees[n] == t;
      DenotesCount(g, trees);
      DenotedChild(g, trees, n, c);
      var k :| 0 <= k < |t.arguments| && Below(t.arguments[k], c);
      ChildSmaller(t, k, c);
      SubDenoted(g, trees, c, x);
    }
  }

  lemma RootMeant(rows: Rows, r: Root) returns (i: nat)
    requires Laid(rows) && Acyclic(View(rows)) && r in Meaning(rows)
    ensures i < |rows.rootIds| == |rows.rootKinds| && 1 <= rows.rootIds[i] <= |rows.tags| == |Den(View(rows))|
    ensures r == Root(rows.rootKinds[i], Den(View(rows))[rows.rootIds[i] - 1])
  {
    hide View, Den, Laid, Acyclic, RootAt;
    i :| 0 <= i < |rows.rootIds| && RootAt(rows, i) == r;
    RootRange(rows, i);
  }

  lemma SubtreeFits(rows: Rows, ledger: Ledger, x: Tree)
    requires Settled(rows, ledger) && EntitiesHaveKinds(ledger) && x in Subtrees(Meaning(rows))
    ensures Fits(ledger, x)
  {
    hide View, Den, Laid, Conforms, Sub, Fits, Meaning;
    var trees := Den(View(rows));
    var r :| r in Meaning(rows) && x in Sub(r.tree);
    var i := RootMeant(rows, r);
    SubDenoted(View(rows), trees, r.tree, x);
    var n :| 0 <= n < |trees| && trees[n] == x;
    TreeFits(rows, ledger, trees, n);
  }

  lemma RootFits(rows: Rows, ledger: Ledger, r: Root)
    requires Conforms(rows, ledger) && Laid(rows) && Acyclic(View(rows)) && r in Meaning(rows)
    ensures RootAccepts(r.kind, r.tree.tag)
  {
    hide View, Den, Laid, Conforms, RootAccepts, Meaning, Denotes, Acyclic;
    ViewIsValid(rows);
    var i := RootMeant(rows, r);
    RootTag(rows, ledger, i);
    ViewArity(rows, rows.rootIds[i] - 1);
    TagOf(View(rows), Den(View(rows)), rows.rootIds[i] - 1);
  }

  /** The meaning of accepted rows always meets the ledger. */
  lemma MeaningConforms(rows: Rows, ledger: Ledger)
    requires Settled(rows, ledger) && EntitiesHaveKinds(ledger)
    ensures ValidRoots(ledger, Meaning(rows))
  {
    hide View, Laid, Conforms, Fits, RootAccepts, Meaning, Subtrees, Closed, Ascending, Reachable, Ser,
      EntitiesHaveKinds;
    SubtreesClosed(Meaning(rows));
    forall x | x in Subtrees(Meaning(rows)) ensures Fits(ledger, x) {
      SubtreeFits(rows, ledger, x);
    }
    forall r | r in Meaning(rows) ensures RootAccepts(r.kind, r.tree.tag) {
      RootFits(rows, ledger, r);
    }
  }

  lemma RootTag(rows: Rows, ledger: Ledger, i: nat)
    requires Conforms(rows, ledger) && i < |rows.rootIds|
    ensures i < |rows.rootKinds| && 1 <= rows.rootIds[i] <= |rows.tags|
    ensures RootAccepts(rows.rootKinds[i], rows.tags[rows.rootIds[i] - 1])
  {
    hide RootAccepts, OffsetsOk, FieldsOk;
    assert RootOk(rows, i);
  }

  /** So the meanings of acceptable columns are sets of roots that meet the ledger. */
  lemma ColumnsConform(c: Columns, ledger: Ledger)
    requires Acceptable(c, ledger) && EntitiesHaveKinds(ledger)
    ensures ValidRoots(ledger, ColumnsMeaning(c, ledger))
  {
    hide Read, Shaped, Conforms, Laid, Canonical, ValidRoots, Meaning;
    ConformsLaid(Read(c), ledger);
    MeaningConforms(Read(c), ledger);
  }
}
