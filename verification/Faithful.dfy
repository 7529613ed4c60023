/**
 Canonical bytes can be read back: rows with equal bytes denote equal trees, as long as a tag fixes
 how many fields a row has.
 */
module Faithful {
  import opened Bytes
  import opened Structure
  import opened Pieces
  import opened Rows
  import opened Validate
  import opened Uniqueness

  // ---------- Equal bytes, equal trees ----------

  /** Rows of equal tag have equally many fields, in both graphs. */
  ghost predicate Uniform(g: Graph, h: Graph) {
    forall i, j :: 0 <= i < |g| && 0 <= j < |h| && g[i].tag == h[j].tag ==> |g[i].fields| == |h[j].fields|
  }

  ghost predicate Described(a: Solved) {
    Ranked(a.g, a.rank) && Serializes(a.g, a.sers) && Denotes(a.g, a.trees)
  }

  lemma FieldTreesAlike(a: Solved, b: Solved, f: Field, h: Field)
    requires |a.sers| == |a.trees| && |b.sers| == |b.trees| && Within(Refs(f), |a.sers|) && Within(Refs(h), |b.sers|)
    requires FieldPiece(f, a.sers) == FieldPiece(h, b.sers)
    requires forall r :: 0 <= r < |Refs(f)| && r < |Refs(h)| ==> a.trees[Refs(f)[r]] == b.trees[Refs(h)[r]]
    ensures FieldTree(f, a.trees) == FieldTree(h, b.trees)
  {
    PieceRefs(f, a.sers, h, b.sers);
    match f {
      case Child(node) => assert node == Refs(f)[0] && h.node == Refs(h)[0];
      case SetOf(items) =>
        assert items == Refs(f) && h.items == Refs(h);
        assert Members(items, a.trees) == Members(h.items, b.trees);
      case SequenceOf(items) =>
        assert items == Refs(f) && h.items == Refs(h);
      case _ =>
    }
  }

  lemma PieceRefs(f: Field, s: seq<seq<byte>>, h: Field, t: seq<seq<byte>>)
    requires Within(Refs(f), |s|) && Within(Refs(h), |t|) && FieldPiece(f, s) == FieldPiece(h, t)
    ensures |Refs(f)| == |Refs(h)| && forall r :: 0 <= r < |Refs(f)| ==> s[Refs(f)[r]] == t[Refs(h)[r]]
  {
    if f.SetOf? || f.SequenceOf? {
      var p, q := Picks(f.items, s), Picks(h.items, t);
      assert |p| == |f.items| && |q| == |h.items|;
      assert forall r :: 0 <= r < |p| ==> p[r] == s[f.items[r]] && q[r] == t[h.items[r]];
    }
  }

  /** Canonical bytes determine the denoted tree, whichever rows carry them. */
  lemma {:induction false} SameBytesSameTree(a: Solved, b: Solved, i: nat, j: nat)
    requires Described(a) && Described(b) && Uniform(a.g, b.g) && i < |a.g| && j < |b.g| && a.sers[i] == b.sers[j]
    ensures a.trees[i] == b.trees[j]
    decreases a.rank[i]
  {
    hide FieldBytes, FieldsBytes, FieldTree, FieldPiece, PiecesBytes;
    var fs, hs := a.g[i].fields, b.g[j].fields;
    assert Bounded(fs, |a.g|) && Bounded(hs, |b.g|);
    FieldsWrite(fs, a.sers);
    FieldsWrite(hs, b.sers);
    NodeCut(a.g[i].tag, FieldPieces(fs, a.sers), b.g[j].tag, FieldPieces(hs, b.sers));
    forall k | 0 <= k < |fs| ensures FieldTree(fs[k], a.trees) == FieldTree(hs[k], b.trees) {
      assert FieldPieces(fs, a.sers)[k] == FieldPieces(hs, b.sers)[k];
      PieceRefs(fs[k], a.sers, hs[k], b.sers);
      forall r | 0 <= r < |Refs(fs[k])| ensures a.trees[Refs(fs[k])[r]] == b.trees[Refs(hs[k])[r]] {
        assert Edge(a.g, i, Refs(fs[k])[r]);
        SameBytesSameTree(a, b, Refs(fs[k])[r], Refs(hs[k])[r]);
      }
      FieldTreesAlike(a, b, fs[k], hs[k]);
    }
    assert NodeTree(a.g[i], a.trees) == NodeTree(b.g[j], b.trees);
  }

  lemma ConformingUniform(r: Rows, s: Rows, ledger: Ledger)
    requires Conforms(r, ledger) && Conforms(s, ledger) && Laid(r) && Laid(s)
    ensures Uniform(View(r), View(s))
  {
    hide View, Laid, FieldsOk, RootsOk;
    ViewIsValid(r);
    ViewIsValid(s);
    forall i, j | 0 <= i < |View(r)| && 0 <= j < |View(s)| && View(r)[i].tag == View(s)[j].tag
      ensures |View(r)[i].fields| == |View(s)[j].fields|
    {
      ViewArity(r, i);
      ViewArity(s, j);
      assert OffsetOk(r, ledger, i) && OffsetOk(s, ledger, j);
    }
  }

  /** In accepted rows of one ledger, two nodes have equal bytes exactly when they denote equal trees. */
  lemma BytesDecideTrees(r: Rows, s: Rows, ledger: Ledger, i: nat, j: nat)
    requires Settled(r, ledger) && Settled(s, ledger) && i < |r.tags| && j < |s.tags|
    ensures Ser(View(r))[i] == Ser(View(s))[j] <==> Den(View(r))[i] == Den(View(s))[j]
  {
    hide Laid, View, Ser, Den, Acyclic;
    var a := SolvedRows(r, ledger);
    var b := SolvedRows(s, ledger);
    ViewIsValid(r);
    ViewIsValid(s);
    ConformingUniform(r, s, ledger);
    if a.sers[i] == b.sers[j] {
      SameBytesSameTree(a, b, i, j);
    }
    if a.trees[i] == b.trees[j] {
      assert Matches(a, b, i, j);
      SameTreeSameBytes(a, b, i, j);
    }
  }
}
