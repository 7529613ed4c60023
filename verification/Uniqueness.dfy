/**
 Canonical form. In accepted columns node IDs are ranks by canonical bytes, so the trees denoted by
 the roots determine every row of every column.
 */
module Uniqueness {
  import opened Bytes
  import opened Sorting
  import opened Varint
  import Utf8
  import opened Structure
  import opened Pieces
  import opened Rows
  import opened Validate

  // ---------- Canonical graphs ----------

  ghost predicate SetsRise(g: Graph) {
    forall n, k :: 0 <= n < |g| && 0 <= k < |g[n].fields| && g[n].fields[k].SetOf? ==> Rising(g[n].fields[k].items)
  }

  /** An acyclic graph together with its bytes and trees, in canonical order. */
  datatype Solved = Solved(g: Graph, rank: seq<nat>, sers: seq<seq<byte>>, trees: seq<Tree>)

  ghost predicate Canon(s: Solved) {
    Ranked(s.g, s.rank) && Serializes(s.g, s.sers) && Denotes(s.g, s.trees) && Ascending(s.sers) && SetsRise(s.g)
  }

  lemma PicksDecide(xs: seq<nat>, s: seq<seq<byte>>, ys: seq<nat>, t: seq<seq<byte>>)
    requires Within(xs, |s|) && Within(ys, |t|) && Picks(xs, s) == Picks(ys, t)
    ensures SetBytes(xs, s) == SetBytes(ys, t) && SequenceBytes(xs, s) == SequenceBytes(ys, t)
  {
    FramedPicks(xs, s);
    FramedPicks(ys, t);
  }

  /** Ascending rows have distinct contents. */
  lemma DistinctRows(sers: seq<seq<byte>>, i: nat, j: nat)
    requires Ascending(sers) && i < |sers| && j < |sers|
    ensures i < j <==> Lex(sers[i], sers[j]) == Less
    ensures sers[i] == sers[j] <==> i == j
  {
    LexEqual(sers[i], sers[j]);
    LexAntisymmetric(sers[i], sers[j]);
    LexAntisymmetric(sers[j], sers[i]);
    if i > j { assert Lex(sers[j], sers[i]) == Less; }
  }

  /** Row numbers rise exactly when the rows they pick do. */
  lemma PicksRise(items: seq<nat>, sers: seq<seq<byte>>)
    requires Within(items, |sers|) && Ascending(sers)
    ensures Rising(items) <==> Ascending(Picks(items, sers))
  {
    var picks := Picks(items, sers);
    forall i, j | 0 <= i < j < |items| ensures items[i] < items[j] <==> Lex(picks[i], picks[j]) == Less {
      DistinctRows(sers, items[i], items[j]);
    }
  }

  // ---------- Equal trees have equal bytes ----------

  /** Fields that pair up with equal bytes have equal bytes together. */
  lemma {:induction false} FieldsPairUp(fs: seq<Field>, s: seq<seq<byte>>, gs: seq<Field>, t: seq<seq<byte>>)
    requires Bounded(fs, |s|) && Bounded(gs, |t|) && |fs| == |gs|
    requires forall k :: 0 <= k < |fs| ==> FieldBytes(fs[k], s) == FieldBytes(gs[k], t)
    ensures FieldsBytes(fs, s) == FieldsBytes(gs, t)
    decreases |fs|
  {
    if fs != [] {
      FieldsPairUp(fs[1..], s, gs[1..], t);
    }
  }

  ghost predicate Matches(a: Solved, b: Solved, i: nat, j: nat) {
    i < |a.trees| && j < |b.trees| && a.trees[i] == b.trees[j]
  }

  ghost predicate Occurs(a: Solved, b: Solved, i: nat) {
    exists j: nat :: Matches(a, b, i, j)
  }

  lemma FieldTreesMatch(a: Solved, b: Solved, i: nat, j: nat, k: nat)
    requires Canon(a) && Canon(b) && Matches(a, b, i, j) && k < |a.g[i].fields|
    ensures a.g[i].tag == b.g[j].tag && |a.g[i].fields| == |b.g[j].fields|
    ensures Within(Refs(a.g[i].fields[k]), |a.trees|) && Within(Refs(b.g[j].fields[k]), |b.trees|)
    ensures FieldTree(a.g[i].fields[k], a.trees) == FieldTree(b.g[j].fields[k], b.trees)
  {
    assert Bounded(a.g[i].fields, |a.g|) && Bounded(b.g[j].fields, |b.g|);
    var t, u := NodeTree(a.g[i], a.trees), NodeTree(b.g[j], b.trees);
    assert t == u;
    assert t.arguments[k] == u.arguments[k];
  }

  /** Every child on one side has a child of the same tree on the other side. */
  lemma ChildMatches(a: Solved, b: Solved, f: Field, h: Field, r: nat) returns (m: nat)
    requires Within(Refs(f), |a.trees|) && Within(Refs(h), |b.trees|) && FieldTree(f, a.trees) == FieldTree(h, b.trees)
    requires r < |Refs(f)|
    ensures m < |Refs(h)| && a.trees[Refs(f)[r]] == b.trees[Refs(h)[m]]
  {
    match f {
      case Child(x) => m := 0;
      case SetOf(xs) =>
        assert a.trees[xs[r]] in Members(xs, a.trees) && Members(xs, a.trees) == Members(h.items, b.trees);
        m :| 0 <= m < |h.items| && b.trees[h.items[m]] == a.trees[xs[r]];
      case SequenceOf(xs) =>
        m := r;
        var t, u := FieldTree(f, a.trees).trees, FieldTree(h, b.trees).trees;
        assert t[r] == u[r];
    }
  }

  ghost predicate ChildBytesAgree(a: Solved, b: Solved, f: Field, h: Field)
    requires Within(Refs(f), |a.trees|) && Within(Refs(h), |b.trees|) && |a.sers| == |a.trees| && |b.sers| == |b.trees|
  {
    forall r, m :: 0 <= r < |Refs(f)| && 0 <= m < |Refs(h)| && a.trees[Refs(f)[r]] == b.trees[Refs(h)[m]] ==>
      a.sers[Refs(f)[r]] == b.sers[Refs(h)[m]]
  }

  lemma PickOccurs(a: Solved, b: Solved, xs: seq<nat>, ys: seq<nat>, r: nat)
    requires |a.sers| == |a.trees| && |b.sers| == |b.trees|
    requires Within(xs, |a.trees|) && Within(ys, |b.trees|) && Members(xs, a.trees) == Members(ys, b.trees)
    requires ChildBytesAgree(a, b, SetOf(xs), SetOf(ys)) || ChildBytesAgree(b, a, SetOf(ys), SetOf(xs))
    requires r < |xs|
    ensures Picks(xs, a.sers)[r] in Picks(ys, b.sers)
  {
    var m := ChildMatches(a, b, SetOf(xs), SetOf(ys), r);
    assert Refs(SetOf(xs)) == xs && Refs(SetOf(ys)) == ys;
    assert a.sers[xs[r]] == b.sers[ys[m]];
    assert Picks(ys, b.sers)[m] == Picks(xs, a.sers)[r];
  }

  /** Canonical sets with the same member trees list the same byte strings in the same order. */
  lemma SetPicksMatch(a: Solved, b: Solved, xs: seq<nat>, ys: seq<nat>)
    requires Ascending(a.sers) && Ascending(b.sers) && |a.sers| == |a.trees| && |b.sers| == |b.trees|
    requires Within(xs, |a.trees|) && Within(ys, |b.trees|) && Rising(xs) && Rising(ys)
    requires Members(xs, a.trees) == Members(ys, b.trees)
    requires ChildBytesAgree(a, b, SetOf(xs), SetOf(ys))
    ensures Picks(xs, a.sers) == Picks(ys, b.sers)
  {
    var p, q := Picks(xs, a.sers), Picks(ys, b.sers);
    PicksRise(xs, a.sers);
    PicksRise(ys, b.sers);
    forall x ensures x in p <==> x in q {
      if x in p {
        var r :| 0 <= r < |p| && p[r] == x;
        PickOccurs(a, b, xs, ys, r);
      }
      if x in q {
        var m :| 0 <= m < |q| && q[m] == x;
        PickOccurs(b, a, ys, xs, m);
      }
    }
    AscendingUnique(p, q);
  }

  lemma FieldBytesMatch(a: Solved, b: Solved, f: Field, h: Field)
    requires Ascending(a.sers) && Ascending(b.sers) && |a.sers| == |a.trees| && |b.sers| == |b.trees|
    requires Within(Refs(f), |a.trees|) && Within(Refs(h), |b.trees|) && FieldTree(f, a.trees) == FieldTree(h, b.trees)
    requires (f.SetOf? ==> Rising(f.items)) && (h.SetOf? ==> Rising(h.items))
    requires ChildBytesAgree(a, b, f, h)
    ensures FieldBytes(f, a.sers) == FieldBytes(h, b.sers)
    ensures f.SetOf? || f.SequenceOf? ==> |f.items| == |h.items| && Picks(f.items, a.sers) == Picks(h.items, b.sers)
  {
    match f {
      case Child(x) => assert Refs(f)[0] == x && Refs(h)[0] == h.node;
      case SetOf(xs) =>
        SetPicksMatch(a, b, xs, h.items);
        assert |Picks(xs, a.sers)| == |xs| && |Picks(h.items, b.sers)| == |h.items|;
        PicksDecide(xs, a.sers, h.items, b.sers);
      case SequenceOf(xs) =>
        var t, u := FieldTree(f, a.trees).trees, FieldTree(h, b.trees).trees;
        assert |t| == |u|;
        forall r | 0 <= r < |xs| ensures a.sers[xs[r]] == b.sers[h.items[r]] {
          assert t[r] == u[r];
          assert Refs(f)[r] == xs[r] && Refs(h)[r] == h.items[r];
        }
        assert Picks(xs, a.sers) == Picks(h.items, b.sers);
        PicksDecide(xs, a.sers, h.items, b.sers);
      case _ =>
    }
  }

  /** Canonical bytes are a function of the denoted tree, whichever columns denote it. */
  lemma {:induction false} SameTreeSameBytes(a: Solved, b: Solved, i: nat, j: nat)
    requires Canon(a) && Canon(b) && Matches(a, b, i, j)
    ensures a.sers[i] == b.sers[j]
    decreases a.rank[i]
  {
    var fs, hs := a.g[i].fields, b.g[j].fields;
    assert NodeTree(a.g[i], a.trees) == NodeTree(b.g[j], b.trees);
    forall k | 0 <= k < |fs|
      ensures |fs| == |hs| && Within(Refs(fs[k]), |a.g|) && Within(Refs(hs[k]), |b.g|) &&
        FieldBytes(fs[k], a.sers) == FieldBytes(hs[k], b.sers)
    {
      FieldTreesMatch(a, b, i, j, k);
      forall r, m | 0 <= r < |Refs(fs[k])| && 0 <= m < |Refs(hs[k])| &&
        a.trees[Refs(fs[k])[r]] == b.trees[Refs(hs[k])[m]]
        ensures a.sers[Refs(fs[k])[r]] == b.sers[Refs(hs[k])[m]]
      {
        assert Edge(a.g, i, Refs(fs[k])[r]);
        SameTreeSameBytes(a, b, Refs(fs[k])[r], Refs(hs[k])[m]);
      }
      FieldBytesMatch(a, b, fs[k], hs[k]);
    }
    assert |NodeTree(a.g[i], a.trees).arguments| == |fs| && |NodeTree(b.g[j], b.trees).arguments| == |hs|;
    assert Bounded(fs, |a.g|) && Bounded(hs, |b.g|);
    FieldsPairUp(fs, a.sers, hs, b.sers);
  }

  // ---------- Equal root trees, equal graphs ----------

  /** Rows of `a` whose tree some row of `b` denotes. */
  ghost function Covered(a: Solved, b: Solved): set<nat> {
    set i: nat | i < |a.trees| && Occurs(a, b, i)
  }

  lemma CoveredClosed(a: Solved, b: Solved, i: nat, c: nat)
    requires Canon(a) && Canon(b) && i in Covered(a, b) && Edge(a.g, i, c)
    ensures c in Covered(a, b)
  {
    var j: nat :| Matches(a, b, i, j);
    var k :| 0 <= k < |a.g[i].fields| && c in Refs(a.g[i].fields[k]);
    FieldTreesMatch(a, b, i, j, k);
    var f, h := a.g[i].fields[k], b.g[j].fields[k];
    var r :| 0 <= r < |Refs(f)| && Refs(f)[r] == c;
    var m := ChildMatches(a, b, f, h, r);
    hide FieldTree, NodeTree, NodeBytes, FieldBytes;
    assert Matches(a, b, c, Refs(h)[m]);
  }

  /** If every root's tree occurs on the other side, every row's tree does. */
  lemma AllCovered(a: Solved, b: Solved, roots: seq<nat>)
    requires Canon(a) && Canon(b)
    requires forall r :: r in roots ==> r in Covered(a, b)
    requires forall n :: 0 <= n < |a.g| ==> Reachable(a.g, roots, n)
    ensures forall n :: 0 <= n < |a.g| ==> Occurs(a, b, n)
  {
    forall i, c | i in Covered(a, b) && Edge(a.g, i, c) ensures c in Covered(a, b) {
      CoveredClosed(a, b, i, c);
    }
    forall n | 0 <= n < |a.g| ensures Occurs(a, b, n) {
      ClosedHoldsReachable(a.g, roots, Covered(a, b), n);
    }
  }

  lemma BytesOccur(a: Solved, b: Solved, n: nat)
    requires Canon(a) && Canon(b) && n < |a.sers| && Occurs(a, b, n)
    ensures a.sers[n] in b.sers
  {
    var j: nat :| Matches(a, b, n, j);
    SameTreeSameBytes(a, b, n, j);
    assert b.sers[j] in b.sers;
  }

  /** Two canonical graphs that denote the same trees list the same byte strings. */
  lemma SameBytes(a: Solved, b: Solved)
    requires Canon(a) && Canon(b)
    requires forall n :: 0 <= n < |a.g| ==> Occurs(a, b, n)
    requires forall n :: 0 <= n < |b.g| ==> Occurs(b, a, n)
    ensures a.sers == b.sers
  {
    forall x ensures x in a.sers <==> x in b.sers {
      if x in a.sers {
        var n :| 0 <= n < |a.sers| && a.sers[n] == x;
        BytesOccur(a, b, n);
      }
      if x in b.sers {
        var n :| 0 <= n < |b.sers| && b.sers[n] == x;
        BytesOccur(b, a, n);
      }
    }
    AscendingUnique(a.sers, b.sers);
  }

  /** Then a tree is denoted by the same row on both sides. */
  lemma SameRow(a: Solved, b: Solved, i: nat, j: nat)
    requires Canon(a) && Canon(b) && a.sers == b.sers && Matches(a, b, i, j)
    ensures i == j
  {
    SameTreeSameBytes(a, b, i, j);
    DistinctRows(a.sers, i, j);
  }

  lemma SameField(a: Solved, b: Solved, n: nat, k: nat)
    requires Canon(a) && Canon(b) && a.sers == b.sers && Matches(a, b, n, n) && n < |a.g| == |b.g| &&
      k < |a.g[n].fields|
    ensures k < |b.g[n].fields| && a.g[n].fields[k] == b.g[n].fields[k]
  {
    hide Canon, Matches, NodeTree, FieldTree, FieldBytes;
    FieldsAlike(a, b, n, n, k);
    var f, h := a.g[n].fields[k], b.g[n].fields[k];
    FieldBytesMatch(a, b, f, h);
    SameConstructor(f, h, a, b);
    match f {
      case Child(x) => assert x == Refs(f)[0] && h.node == Refs(h)[0];
        DistinctRows(a.sers, x, h.node);
      case SetOf(xs) => PicksSame(xs, h.items, a.sers);
      case SequenceOf(xs) => PicksSame(xs, h.items, a.sers);
      case _ =>
    }
  }

  /** Arguments with equal trees are built alike, from equal scalars. */
  lemma SameConstructor(f: Field, h: Field, a: Solved, b: Solved)
    requires Within(Refs(f), |a.trees|) && Within(Refs(h), |b.trees|) && FieldTree(f, a.trees) == FieldTree(h, b.trees)
    requires |a.sers| == |a.trees| && |b.sers| == |b.trees| && ChildBytesAgree(a, b, f, h)
    ensures f.Child? ==> h.Child? && a.sers[Refs(f)[0]] == b.sers[Refs(h)[0]]
    ensures f.SetOf? ==> h.SetOf?
    ensures f.SequenceOf? ==> h.SequenceOf?
    ensures !f.Child? && !f.SetOf? && !f.SequenceOf? ==> f == h
  {
  }

  /** What matching rows guarantee of each pair of their fields. */
  lemma FieldsAlike(a: Solved, b: Solved, i: nat, j: nat, k: nat)
    requires Canon(a) && Canon(b) && Matches(a, b, i, j) && i < |a.g| && k < |a.g[i].fields|
    ensures |a.sers| == |a.trees| && |b.sers| == |b.trees| && Ascending(a.sers) && Ascending(b.sers)
    ensures j < |b.g| && |a.g[i].fields| == |b.g[j].fields|
    ensures var f, h := a.g[i].fields[k], b.g[j].fields[k];
            && Within(Refs(f), |a.trees|) && Within(Refs(h), |b.trees|)
            && FieldTree(f, a.trees) == FieldTree(h, b.trees)
            && (f.SetOf? ==> Rising(f.items)) && (h.SetOf? ==> Rising(h.items))
            && ChildBytesAgree(a, b, f, h)
  {
    hide NodeTree, FieldTree, NodeBytes;
    FieldTreesMatch(a, b, i, j, k);
    var f, h := a.g[i].fields[k], b.g[j].fields[k];
    forall r, m | 0 <= r < |Refs(f)| && 0 <= m < |Refs(h)| && a.trees[Refs(f)[r]] == b.trees[Refs(h)[m]]
      ensures a.sers[Refs(f)[r]] == b.sers[Refs(h)[m]]
    {
      SameTreeSameBytes(a, b, Refs(f)[r], Refs(h)[m]);
    }
  }

  lemma PicksSame(xs: seq<nat>, ys: seq<nat>, sers: seq<seq<byte>>)
    requires Within(xs, |sers|) && Within(ys, |sers|) && Ascending(sers) && |xs| == |ys| &&
      Picks(xs, sers) == Picks(ys, sers)
    ensures xs == ys
  {
    forall r | 0 <= r < |xs| ensures xs[r] == ys[r] {
      assert Picks(xs, sers)[r] == Picks(ys, sers)[r];
      DistinctRows(sers, xs[r], ys[r]);
    }
  }

  /** Two canonical graphs that denote the same trees are equal. */
  lemma SameGraph(a: Solved, b: Solved)
    requires Canon(a) && Canon(b)
    requires forall n :: 0 <= n < |a.g| ==> Occurs(a, b, n)
    requires forall n :: 0 <= n < |b.g| ==> Occurs(b, a, n)
    ensures a.g == b.g && a.sers == b.sers
  {
    SameBytes(a, b);
    forall n | 0 <= n < |a.g| ensures a.g[n] == b.g[n] {
      assert Occurs(a, b, n);
      var j: nat :| Matches(a, b, n, j);
      SameRow(a, b, n, j);
      assert NodeTree(a.g[n], a.trees) == NodeTree(b.g[n], b.trees);
      assert |NodeTree(a.g[n], a.trees).arguments| == |a.g[n].fields| &&
        |NodeTree(b.g[n], b.trees).arguments| == |b.g[n].fields|;
      forall k | 0 <= k < |a.g[n].fields| ensures a.g[n].fields[k] == b.g[n].fields[k] {
        SameField(a, b, n, k);
      }
    }
  }

  // ---------- Equal graphs, equal rows ----------

  /** Component rows carry nothing beyond what they denote. */
  ghost predicate Tight(rows: Rows, k: nat)
    requires k < |rows.fields|
  {
    var f := rows.fields[k];
    && (f.kind == NONE ==> f.value == 0 && f.length == 0)
    && (f.kind == NODE ==> f.length == 0)
    && (IsCollection(f.kind) && f.value + f.length <= |rows.items| ==>
          forall i :: f.value <= i < f.value + f.length ==> rows.items[i].kind == NODE && rows.items[i].length == 0)
  }

  lemma FieldOkTight(rows: Rows, role: FieldRole, k: nat)
    requires k < |rows.fields| && |rows.tags| < |rows.offsets| && FieldOk(rows, role, k)
    ensures Tight(rows, k)
    ensures rows.fields[k].kind == SET ==> Placed(rows, k) && Rising(ComponentView(rows, rows.fields[k]).items)
  {
    FieldOkPlaced(rows, role, k);
    if IsCollection(rows.fields[k].kind) {
      var f := rows.fields[k];
      assert role.SetRole? || role.SequenceRole?;
      forall i | f.value <= i < f.value + f.length ensures rows.items[i].kind == NODE && rows.items[i].length == 0 {
        assert ItemOk(rows, role.role, i);
      }
    }
  }

  lemma ConformsTight(rows: Rows, ledger: Ledger, k: nat)
    requires Conforms(rows, ledger) && k < |rows.fields|
    ensures Tight(rows, k) && Placed(rows, k) && ComponentOk(rows, rows.fields[k])
    ensures rows.fields[k].kind == SET ==> Rising(ComponentView(rows, rows.fields[k]).items)
  {
    var n := OwnerOf(rows, k);
    assert OffsetOk(rows, ledger, n) && NodeFieldsOk(rows, ledger, n);
    var roles, position := ledger[rows.tags[n]], k - rows.offsets[n];
    assert FieldOk(rows, roles[position], rows.offsets[n] + position);
    FieldOkTight(rows, roles[position], k);
    FieldOkPlaced(rows, roles[position], k);
  }

  /** The first `k` field rows, and the arena parts they claim, are the same. */
  ghost predicate PrefixSame(r: Rows, s: Rows, k: nat)
    requires k <= |r.fields| == |s.fields|
  {
    var i, j := ItemStart(r.fields, k), ScalarStart(r.fields, k);
    && r.fields[..k] == s.fields[..k]
    && i == ItemStart(s.fields, k) && j == ScalarStart(s.fields, k)
    && i <= |r.items| && i <= |s.items| && r.items[..i] == s.items[..i]
    && j <= |r.scalars| && j <= |s.scalars| && r.scalars[..j] == s.scalars[..j]
  }

  /** Components that denote the same argument at the same arena positions are the same rows. */
  lemma SameComponent(r: Rows, s: Rows, k: nat)
    requires k < |r.fields| == |s.fields| && Placed(r, k) && Placed(s, k) && Tight(r, k) && Tight(s, k)
    requires ItemStart(r.fields, k) == ItemStart(s.fields, k) && ScalarStart(r.fields, k) == ScalarStart(s.fields, k)
    requires ComponentView(r, r.fields[k]) == ComponentView(s, s.fields[k])
    ensures r.fields[k] == s.fields[k]
    ensures var f := r.fields[k];
            && (IsScalar(f.kind) ==> r.scalars[f.value..f.value + f.length] == s.scalars[f.value..f.value + f.length])
            && (IsCollection(f.kind) ==> r.items[f.value..f.value + f.length] == s.items[f.value..f.value + f.length])
  {
    hide ContentOk;
    var f, h := r.fields[k], s.fields[k];
    SameKind(r, s, f, h);
    if IsScalar(f.kind) {
      SameScalar(r, s, f, h);
    } else if IsCollection(f.kind) {
      SameItems(r, s, f, h);
    }
  }

  lemma SameKind(r: Rows, s: Rows, f: Component, h: Component)
    requires ComponentOk(r, f) && ComponentOk(s, h) && ComponentView(r, f) == ComponentView(s, h)
    ensures f.kind == h.kind && (f.kind == NODE ==> f.value == h.value)
  {
    hide ContentOk;
  }

  lemma SameScalar(r: Rows, s: Rows, f: Component, h: Component)
    requires ComponentOk(r, f) && ComponentOk(s, h) && IsScalar(f.kind) && f.kind == h.kind && f.value == h.value
    requires ComponentView(r, f) == ComponentView(s, h)
    ensures f.length == h.length && r.scalars[f.value..f.value + f.length] == s.scalars[f.value..f.value + f.length]
  {
    hide Utf8.WellFormed, LittleEndian;
    var p, q := r.scalars[f.value..f.value + f.length], s.scalars[h.value..h.value + h.length];
    if f.kind == INTEGER {
      MinimalUnique(p, q);
    }
    assert p == q && |p| == f.length && |q| == h.length;
  }

  lemma SameItems(r: Rows, s: Rows, f: Component, h: Component)
    requires ComponentOk(r, f) && ComponentOk(s, h) && IsCollection(f.kind) && f.kind == h.kind && f.value == h.value
    requires forall i :: f.value <= i < f.value + f.length ==> r.items[i].kind == NODE && r.items[i].length == 0
    requires forall i :: h.value <= i < h.value + h.length ==> s.items[i].kind == NODE && s.items[i].length == 0
    requires ComponentView(r, f) == ComponentView(s, h)
    ensures f.length == h.length && r.items[f.value..f.value + f.length] == s.items[f.value..f.value + f.length]
  {
    var xs, ys := ItemNodes(r, f.value, f.length), ItemNodes(s, h.value, h.length);
    assert xs == ys;
    assert |xs| == f.length && |ys| == h.length;
    forall i | f.value <= i < f.value + f.length ensures r.items[i] == s.items[i] {
      assert xs[i - f.value] == ys[i - f.value];
    }
  }

  lemma GrowPrefix<T(!new)>(a: seq<T>, b: seq<T>, i: nat, n: nat)
    requires i + n <= |a| && i + n <= |b| && a[..i] == b[..i] && a[i..i + n] == b[i..i + n]
    ensures a[..i + n] == b[..i + n]
  {
    assert a[..i + n] == a[..i] + a[i..i + n] && b[..i + n] == b[..i] + b[i..i + n];
  }

  lemma PrefixStep(r: Rows, s: Rows, k: nat)
    requires k < |r.fields| == |s.fields| && PrefixSame(r, s, k)
    requires Placed(r, k) && Placed(s, k) && Tight(r, k) && Tight(s, k) &&
      ComponentView(r, r.fields[k]) == ComponentView(s, s.fields[k])
    ensures PrefixSame(r, s, k + 1)
  {
    hide Tight, ContentOk, ComponentView;
    SameComponent(r, s, k);
    var f := r.fields[k];
    var i, j := ItemStart(r.fields, k), ScalarStart(r.fields, k);
    assert r.fields[k..k + 1] == [f] && s.fields[k..k + 1] == [f];
    GrowPrefix(r.fields, s.fields, k, 1);
    if IsCollection(f.kind) { GrowPrefix(r.items, s.items, i, f.length); }
    if IsScalar(f.kind) { GrowPrefix(r.scalars, s.scalars, j, f.length); }
  }

  lemma {:induction false} OffsetsSame(r: Rows, s: Rows, n: nat)
    requires Laid(r) && Laid(s) && View(r) == View(s) && n <= |r.tags|
    ensures |r.tags| == |s.tags| && r.offsets[n] == s.offsets[n]
  {
    assert |View(r)| == |r.tags| && |View(s)| == |s.tags|;
    if n > 0 {
      OffsetsSame(r, s, n - 1);
      ViewArity(r, n - 1);
      ViewArity(s, n - 1);
    }
  }

  lemma ViewSame(r: Rows, s: Rows, k: nat)
    requires Laid(r) && Laid(s) && View(r) == View(s) && k < |r.fields|
    ensures k < |s.fields| && Placed(r, k) && Placed(s, k) &&
      ComponentView(r, r.fields[k]) == ComponentView(s, s.fields[k])
  {
    OffsetsSame(r, s, |r.tags|);
    var n := OwnerOf(r, k);
    OffsetsSame(r, s, n);
    OffsetsSame(r, s, n + 1);
    ViewArity(r, n);
    ViewRefs(r, n, k - r.offsets[n]);
    ViewRefs(s, n, k - r.offsets[n]);
  }

  /** Conforming rows with the same graph and roots are the same rows. */
  lemma SameRows(r: Rows, s: Rows, ledger: Ledger, other: Ledger)
    requires Conforms(r, ledger) && Conforms(s, other) && Laid(r) && Laid(s)
    requires View(r) == View(s) && r.rootKinds == s.rootKinds && r.rootIds == s.rootIds
    ensures r == s
  {
    OffsetsSame(r, s, |r.tags|);
    assert |r.fields| == |s.fields|;
    var k := 0;
    while k < |r.fields|
      invariant 0 <= k <= |r.fields| == |s.fields| && PrefixSame(r, s, k)
    {
      ViewSame(r, s, k);
      ConformsTight(r, ledger, k);
      ConformsTight(s, other, k);
      PrefixStep(r, s, k);
      k := k + 1;
    }
    WholePrefix(r, s);
    TagsAndOffsets(r, s);
  }

  lemma WholePrefix(r: Rows, s: Rows)
    requires Laid(r) && Laid(s) && |r.fields| == |s.fields| && PrefixSame(r, s, |r.fields|)
    ensures r.fields == s.fields && r.items == s.items && r.scalars == s.scalars
  {
    assert r.fields[..|r.fields|] == r.fields && s.fields[..|s.fields|] == s.fields;
    assert r.items[..|r.items|] == r.items && s.items[..|s.items|] == s.items;
    assert r.scalars[..|r.scalars|] == r.scalars && s.scalars[..|s.scalars|] == s.scalars;
  }

  lemma TagsAndOffsets(r: Rows, s: Rows)
    requires Laid(r) && Laid(s) && View(r) == View(s)
    ensures r.tags == s.tags && r.offsets == s.offsets
  {
    OffsetsSame(r, s, 0);
    forall n | 0 <= n < |r.tags| ensures r.tags[n] == s.tags[n] {
      ViewArity(r, n);
      ViewArity(s, n);
    }
    forall n | 0 <= n < |r.offsets| ensures r.offsets[n] == s.offsets[n] {
      OffsetsSame(r, s, n);
    }
  }

  // ---------- Roots ----------

  /** A root as it is ordered: by kind, then by node ID. */
  datatype RootKey = RootKey(kind: byte, id: nat)

  predicate KeyBefore(a: RootKey, b: RootKey) {
    a.kind < b.kind || (a.kind == b.kind && a.id < b.id)
  }

  ghost function Keys(rows: Rows): seq<RootKey>
    requires |rows.rootIds| == |rows.rootKinds|
  {
    seq(|rows.rootIds|, r requires 0 <= r < |rows.rootIds| => RootKey(rows.rootKinds[r], rows.rootIds[r]))
  }

  lemma KeysOfRoots(rows: Rows)
    requires RootsOk(rows)
    ensures Sorted(KeyBefore, Keys(rows))
  {
    forall i, j | 0 <= i < j < |Keys(rows)| ensures KeyBefore(Keys(rows)[i], Keys(rows)[j]) {
      assert RootBefore(rows, i, j);
    }
  }

  lemma KeysDetermine(r: Rows, s: Rows)
    requires |r.rootIds| == |r.rootKinds| && |s.rootIds| == |s.rootKinds| && Keys(r) == Keys(s)
    ensures r.rootIds == s.rootIds && r.rootKinds == s.rootKinds
  {
    assert |Keys(r)| == |r.rootIds| && |Keys(s)| == |s.rootIds|;
    forall i | 0 <= i < |r.rootIds| ensures r.rootIds[i] == s.rootIds[i] && r.rootKinds[i] == s.rootKinds[i] {
      assert Keys(r)[i] == Keys(s)[i];
    }
  }

  // ---------- The theorem ----------

  /** A root kind with the tree its node denotes. */
  datatype Root = Root(kind: byte, tree: Tree)

  ghost function RootAt(rows: Rows, r: nat): Root
    requires Laid(rows) && Acyclic(View(rows)) && r < |rows.rootIds|
  {
    Root(rows.rootKinds[r], Den(View(rows))[rows.rootIds[r] - 1])
  }

  /** The set of (root kind, structural tree) pairs that rows denote. */
  ghost function Meaning(rows: Rows): set<Root>
    requires Laid(rows) && Acyclic(View(rows))
  {
    set r | 0 <= r < |rows.rootIds| :: RootAt(rows, r)
  }

  ghost predicate Settled(rows: Rows, ledger: Ledger) {
    Conforms(rows, ledger) && Laid(rows) && Canonical(rows)
  }

  lemma SetKind(rows: Rows, k: nat)
    requires k < |rows.fields| && Placed(rows, k) && FieldView(rows, k).SetOf?
    ensures rows.fields[k].kind == SET && FieldView(rows, k) == ComponentView(rows, rows.fields[k])
  {
  }

  lemma SetsOfRowsRise(rows: Rows, ledger: Ledger)
    requires Conforms(rows, ledger) && Laid(rows)
    ensures SetsRise(View(rows))
  {
    hide View, Conforms, Laid, ComponentOk;
    ViewIsValid(rows);
    var g := View(rows);
    forall n, k | 0 <= n < |g| && 0 <= k < |g[n].fields| && g[n].fields[k].SetOf? ensures Rising(g[n].fields[k].items) {
      ViewRefs(rows, n, k);
      ViewArity(rows, n);
      SetKind(rows, rows.offsets[n] + k);
      ConformsTight(rows, ledger, rows.offsets[n] + k);
    }
  }

  lemma SolvedRows(rows: Rows, ledger: Ledger) returns (s: Solved)
    requires Settled(rows, ledger)
    ensures Canon(s) && s.g == View(rows) && s.sers == Ser(View(rows)) && s.trees == Den(View(rows))
    ensures forall n :: 0 <= n < |s.g| ==> Reachable(s.g, RootNodes(rows), n)
  {
    SetsOfRowsRise(rows, ledger);
    var rank :| Ranked(View(rows), rank);
    s := Solved(View(rows), rank, Ser(View(rows)), Den(View(rows)));
  }

  lemma SharedRoot(r: Rows, s: Rows, i: nat) returns (j: nat)
    requires Laid(r) && Laid(s) && Acyclic(View(r)) && Acyclic(View(s)) && Meaning(r) <= Meaning(s) && i < |r.rootIds|
    ensures j < |s.rootIds| && RootAt(s, j) == RootAt(r, i)
  {
    hide Laid, View, Den, RootAt;
    assert RootAt(r, i) in Meaning(r);
    j :| 0 <= j < |s.rootIds| && RootAt(s, j) == RootAt(r, i);
  }

  lemma RootRange(rows: Rows, r: nat)
    requires Laid(rows) && Acyclic(View(rows)) && r < |rows.rootIds|
    ensures 1 <= rows.rootIds[r] <= |rows.tags| && |rows.rootIds| == |rows.rootKinds| &&
      |Den(View(rows))| == |rows.tags|
    ensures RootAt(rows, r) == Root(rows.rootKinds[r], Den(View(rows))[rows.rootIds[r] - 1])
  {
    hide Placed;
  }

  lemma RootCovered(r: Rows, s: Rows, a: Solved, b: Solved, x: nat)
    requires Laid(r) && Laid(s) && Acyclic(View(r)) && Acyclic(View(s)) && Meaning(r) <= Meaning(s)
    requires a.trees == Den(View(r)) && b.trees == Den(View(s)) && x in RootNodes(r)
    ensures x in Covered(a, b)
  {
    hide View, Placed, Meaning, RootAt, Den;
    var i :| 0 <= i < |RootNodes(r)| && RootNodes(r)[i] == x;
    var j := SharedRoot(r, s, i);
    RootRange(r, i);
    RootRange(s, j);
    assert Matches(a, b, x, s.rootIds[j] - 1);
  }

  lemma KeyOccurs(r: Rows, s: Rows, a: Solved, b: Solved, i: nat)
    requires Laid(r) && Laid(s) && Acyclic(View(r)) && Acyclic(View(s)) && Meaning(r) <= Meaning(s) && i < |r.rootIds|
    requires Canon(a) && Canon(b) && a.sers == b.sers && a.trees == Den(View(r)) && b.trees == Den(View(s))
    requires |r.rootIds| == |r.rootKinds| && |s.rootIds| == |s.rootKinds|
    ensures Keys(r)[i] in Keys(s)
  {
    hide Laid, View, Canon, Den, Meaning, RootAt;
    var j := SharedRoot(r, s, i);
    RootRange(r, i);
    RootRange(s, j);
    SameRow(a, b, r.rootIds[i] - 1, s.rootIds[j] - 1);
    assert Keys(s)[j] == Keys(r)[i];
  }

  lemma SameRoots(r: Rows, s: Rows, a: Solved, b: Solved)
    requires Laid(r) && Laid(s) && Acyclic(View(r)) && Acyclic(View(s)) && RootsOk(r) && RootsOk(s) &&
      Meaning(r) == Meaning(s)
    requires Canon(a) && Canon(b) && a.sers == b.sers && a.trees == Den(View(r)) && b.trees == Den(View(s))
    ensures r.rootIds == s.rootIds && r.rootKinds == s.rootKinds
  {
    hide Laid, View, Canon, Den, Meaning;
    KeysOfRoots(r);
    KeysOfRoots(s);
    forall x ensures x in Keys(r) <==> x in Keys(s) {
      if x in Keys(r) {
        var i :| 0 <= i < |Keys(r)| && Keys(r)[i] == x;
        KeyOccurs(r, s, a, b, i);
      }
      if x in Keys(s) {
        var i :| 0 <= i < |Keys(s)| && Keys(s)[i] == x;
        KeyOccurs(s, r, b, a, i);
      }
    }
    OrderedUnique(KeyBefore, Keys(r), Keys(s));
    KeysDetermine(r, s);
  }

  lemma SameMeaningSameRows(r: Rows, s: Rows, ledger: Ledger, other: Ledger)
    requires Settled(r, ledger) && Settled(s, other) && Meaning(r) == Meaning(s)
    ensures r == s
  {
    var a := SolvedRows(r, ledger);
    var b := SolvedRows(s, other);
    forall x | x in RootNodes(r) ensures x in Covered(a, b) { RootCovered(r, s, a, b, x); }
    forall x | x in RootNodes(s) ensures x in Covered(b, a) { RootCovered(s, r, b, a, x); }
    AllCovered(a, b, RootNodes(r));
    AllCovered(b, a, RootNodes(s));
    SameGraph(a, b);
    SameRoots(r, s, a, b);
    SameRows(r, s, ledger, other);
  }

  /** The meaning of acceptable columns. */
  ghost function ColumnsMeaning(c: Columns, ledger: Ledger): set<Root>
    requires Acceptable(c, ledger)
  {
    ConformsLaid(Read(c), ledger);
    Meaning(Read(c))
  }

  /** Canonical form: acceptable columns with the same meaning are byte-for-byte equal in all eleven columns. */
  lemma CanonicalForm(c: Columns, d: Columns, ledger: Ledger, other: Ledger)
    requires Acceptable(c, ledger) && Acceptable(d, other) && ColumnsMeaning(c, ledger) == ColumnsMeaning(d, other)
    ensures c == d
  {
    ConformsLaid(Read(c), ledger);
    ConformsLaid(Read(d), other);
    SameMeaningSameRows(Read(c), Read(d), ledger, other);
    ReadInjective(c, d);
  }

  /** Order transfer: node IDs are ranks by canonical bytes, and so by distinct trees. */
  lemma RanksAreOrder(rows: Rows, ledger: Ledger, i: nat, j: nat)
    requires Settled(rows, ledger) && i < |rows.tags| && j < |rows.tags|
    ensures i < j <==> Lex(Ser(View(rows))[i], Ser(View(rows))[j]) == Less
    ensures Den(View(rows))[i] == Den(View(rows))[j] <==> i == j
  {
    var s := SolvedRows(rows, ledger);
    DistinctRows(s.sers, i, j);
    if Den(View(rows))[i] == Den(View(rows))[j] {
      SameTreeSameBytes(s, s, i, j);
    }
  }

  lemma BytesPerRow(rows: Rows)
    requires Laid(rows) && Acyclic(View(rows))
    ensures |Ser(View(rows))| == |rows.tags|
  {
    ViewIsValid(rows);
  }

  /** Roots are in order exactly when they ascend by kind and canonical bytes, though only IDs are compared. */
  lemma RootsAscend(rows: Rows, i: nat, j: nat)
    requires Laid(rows) && Acyclic(View(rows)) && Ascending(Ser(View(rows))) && i < |rows.rootIds| && j < |rows.rootIds|
    ensures RootBefore(rows, i, j) <==>
      || rows.rootKinds[i] < rows.rootKinds[j]
      || (rows.rootKinds[i] == rows.rootKinds[j]
          && Lex(Ser(View(rows))[rows.rootIds[i] - 1], Ser(View(rows))[rows.rootIds[j] - 1]) == Less)
  {
    hide View, Laid, Acyclic, Ascending, Lex, Valid, Serializes, Ser, Den, RootAt;
    BytesPerRow(rows);
    RootRange(rows, i);
    RootRange(rows, j);
    DistinctRows(Ser(View(rows)), rows.rootIds[i] - 1, rows.rootIds[j] - 1);
  }

  /** The items of a set rise by ID exactly when they ascend by canonical bytes. */
  lemma SetItemsAscend(rows: Rows, n: nat, k: nat)
    requires Laid(rows) && Acyclic(View(rows)) && Ascending(Ser(View(rows)))
    requires n < |rows.tags| && k < |View(rows)[n].fields| && View(rows)[n].fields[k].SetOf?
    ensures Within(View(rows)[n].fields[k].items, |rows.tags|)
    ensures Rising(View(rows)[n].fields[k].items) <==> Ascending(Picks(View(rows)[n].fields[k].items, Ser(View(rows))))
  {
    var g := View(rows);
    var items := g[n].fields[k].items;
    assert Bounded(g[n].fields, |g|);
    assert Refs(g[n].fields[k]) == items;
    PicksRise(items, Ser(g));
  }

  // ---------- Acceptance in terms of canonical bytes ----------

  /** The canonical bytes behind a one-based ID. */
  ghost function BytesOf(rows: Rows, id: nat): seq<byte> {
    if Laid(rows) && Acyclic(View(rows)) && 1 <= id <= |rows.tags| then Ser(View(rows))[id - 1] else []
  }

  ghost predicate CollectionBy(rows: Rows, role: NodeRole, kind: byte, k: nat, before: (nat, nat) -> bool)
    requires k < |rows.fields| && |rows.tags| < |rows.offsets|
  {
    var f := rows.fields[k];
    && f.kind == kind
    && f.value == ItemStart(rows.fields, k)
    && f.value + f.length <= |rows.items|
    && (forall i :: f.value <= i < f.value + f.length ==> ItemOk(rows, role, i))
    && (kind == SET ==> forall i, j :: f.value <= i < j < f.value + f.length ==>
       before(rows.items[i].value, rows.items[j].value))
  }

  ghost predicate FieldBy(rows: Rows, role: FieldRole, k: nat, before: (nat, nat) -> bool)
    requires k < |rows.fields| && |rows.tags| < |rows.offsets|
  {
    match role
    case SetRole(item) => CollectionBy(rows, item, SET, k, before)
    case _ => FieldOk(rows, role, k)
  }

  ghost predicate NodeFieldsBy(rows: Rows, ledger: Ledger, n: nat, before: (nat, nat) -> bool)
    requires OffsetsOk(rows, ledger) && n < |rows.tags|
  {
    assert OffsetOk(rows, ledger, n);
    var roles := ledger[rows.tags[n]];
    forall k :: 0 <= k < |roles| ==> FieldBy(rows, roles[k], rows.offsets[n] + k, before)
  }

  ghost predicate FieldsBy(rows: Rows, ledger: Ledger, before: (nat, nat) -> bool)
    requires OffsetsOk(rows, ledger)
  {
    && (forall n :: 0 <= n < |rows.tags| ==> NodeFieldsBy(rows, ledger, n, before))
    && ItemStart(rows.fields, |rows.fields|) == |rows.items|
    && ScalarStart(rows.fields, |rows.fields|) == |rows.scalars|
  }

  ghost predicate RootBy(rows: Rows, i: nat, j: nat, before: (nat, nat) -> bool)
    requires i < |rows.rootIds| == |rows.rootKinds| && j < |rows.rootIds|
  {
    rows.rootKinds[i] < rows.rootKinds[j] || (rows.rootKinds[i] == rows.rootKinds[j] &&
      before(rows.rootIds[i], rows.rootIds[j]))
  }

  ghost predicate RootsBy(rows: Rows, before: (nat, nat) -> bool) {
    && |rows.rootIds| == |rows.rootKinds|
    && (forall r :: 0 <= r < |rows.rootIds| ==> RootOk(rows, r))
    && (forall i, j :: 0 <= i < j < |rows.rootIds| ==> RootBy(rows, i, j, before))
  }

  /** Conforming rows whose sets and roots are in the order `before` of their nodes. */
  ghost predicate ConformsBy(rows: Rows, ledger: Ledger, before: (nat, nat) -> bool) {
    OffsetsOk(rows, ledger) && FieldsBy(rows, ledger, before) && RootsBy(rows, before)
  }

  ghost predicate AgreeOn(n: nat, a: (nat, nat) -> bool, b: (nat, nat) -> bool) {
    forall x, y :: 1 <= x <= n && 1 <= y <= n ==> (a(x, y) <==> b(x, y))
  }

  lemma FieldByAgree(rows: Rows, role: FieldRole, k: nat, a: (nat, nat) -> bool, b: (nat, nat) -> bool)
    requires k < |rows.fields| && |rows.tags| < |rows.offsets| && AgreeOn(|rows.tags|, a, b) &&
      FieldBy(rows, role, k, a)
    ensures FieldBy(rows, role, k, b)
  {
    if role.SetRole? {
      var f := rows.fields[k];
      forall i, j | f.value <= i < j < f.value + f.length ensures b(rows.items[i].value, rows.items[j].value) {
        assert ItemOk(rows, role.role, i) && ItemOk(rows, role.role, j);
        assert a(rows.items[i].value, rows.items[j].value);
      }
    }
  }

  /** Orders that agree on the nodes make the same rows conform. */
  lemma ConformsByAgree(rows: Rows, ledger: Ledger, a: (nat, nat) -> bool, b: (nat, nat) -> bool)
    requires AgreeOn(|rows.tags|, a, b) && ConformsBy(rows, ledger, a)
    ensures ConformsBy(rows, ledger, b)
  {
    hide FieldBy;
    forall n | 0 <= n < |rows.tags| ensures NodeFieldsBy(rows, ledger, n, b) {
      assert NodeFieldsBy(rows, ledger, n, a) && OffsetOk(rows, ledger, n);
      var roles := ledger[rows.tags[n]];
      forall k | 0 <= k < |roles| ensures FieldBy(rows, roles[k], rows.offsets[n] + k, b) {
        FieldByAgree(rows, roles[k], rows.offsets[n] + k, a, b);
      }
    }
    forall i, j | 0 <= i < j < |rows.rootIds| ensures RootBy(rows, i, j, b) {
      assert RootBy(rows, i, j, a) && RootOk(rows, i) && RootOk(rows, j);
    }
  }

  ghost function ById(): (nat, nat) -> bool {
    (x: nat, y: nat) => x < y
  }

  ghost function ByBytes(rows: Rows): (nat, nat) -> bool {
    (x: nat, y: nat) => Lex(BytesOf(rows, x), BytesOf(rows, y)) == Less
  }

  lemma ConformsById(rows: Rows, ledger: Ledger)
    ensures Conforms(rows, ledger) <==> ConformsBy(rows, ledger, ById())
  {
    if OffsetsOk(rows, ledger) {
      forall n | 0 <= n < |rows.tags| ensures NodeFieldsOk(rows, ledger, n) <==> NodeFieldsBy(rows, ledger, n, ById()) {
        assert OffsetOk(rows, ledger, n);
        var roles := ledger[rows.tags[n]];
        forall k | 0 <= k < |roles|
          ensures FieldOk(rows, roles[k], rows.offsets[n] + k) <==> FieldBy(rows, roles[k], rows.offsets[n] + k, ById())
        {
        }
      }
    }
    if |rows.rootIds| == |rows.rootKinds| {
      assert forall i, j :: 0 <= i < j < |rows.rootIds| ==> (RootBefore(rows, i, j) <==> RootBy(rows, i, j, ById()));
    }
  }

  lemma PairOrder(rows: Rows, x: nat, y: nat)
    requires Laid(rows) && Acyclic(View(rows)) && Ascending(Ser(View(rows))) && 1 <= x <= |rows.tags| &&
      1 <= y <= |rows.tags|
    ensures x < y <==> Lex(BytesOf(rows, x), BytesOf(rows, y)) == Less
  {
    hide View, Laid, Acyclic, Ascending, Lex, Valid, Serializes, NodeBytes, Ser;
    BytesPerRow(rows);
    DistinctRows(Ser(View(rows)), x - 1, y - 1);
  }

  lemma OrdersAgree(rows: Rows)
    requires Laid(rows) && Acyclic(View(rows)) && Ascending(Ser(View(rows)))
    ensures AgreeOn(|rows.tags|, ById(), ByBytes(rows))
  {
    hide View, Laid, Acyclic, Ascending, Lex, BytesOf;
    forall x: nat, y: nat | 1 <= x <= |rows.tags| && 1 <= y <= |rows.tags|
      ensures ById()(x, y) <==> ByBytes(rows)(x, y)
    {
      PairOrder(rows, x, y);
    }
  }

  /** Acceptance without a word about IDs: sets and roots ascend by the canonical bytes of their nodes. */
  ghost predicate AcceptableByBytes(c: Columns, ledger: Ledger) {
    Shaped(c) && ConformsBy(Read(c), ledger, ByBytes(Read(c))) && Laid(Read(c)) && Canonical(Read(c))
  }

  /** The validator compares IDs, and yet decides order by canonical bytes. */
  lemma AcceptedByBytes(c: Columns, ledger: Ledger)
    ensures Acceptable(c, ledger) <==> AcceptableByBytes(c, ledger)
  {
    hide Read, Shaped, ConformsBy, Conforms, Laid, ById, ByBytes, AgreeOn;
    if Shaped(c) {
      var rows := Read(c);
      AcceptableIs(c, ledger);
      ConformsById(rows, ledger);
      if Laid(rows) && Canonical(rows) {
        OrdersAgree(rows);
        if ConformsBy(rows, ledger, ById()) {
          ConformsByAgree(rows, ledger, ById(), ByBytes(rows));
        }
        if ConformsBy(rows, ledger, ByBytes(rows)) {
          AgreeSymmetric(|rows.tags|, ById(), ByBytes(rows));
          ConformsByAgree(rows, ledger, ByBytes(rows), ById());
        }
      }
    }
  }

  lemma AgreeSymmetric(n: nat, a: (nat, nat) -> bool, b: (nat, nat) -> bool)
    requires AgreeOn(n, a, b)
    ensures AgreeOn(n, b, a)
  {
  }
}
