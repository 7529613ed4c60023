/**
 Canonical bytes of a tree, with no reference to rows: sets are written in the order of their
 members' bytes. Where a tag fixes the number of arguments, different trees have different bytes.
 */
module Trees {
  import opened Bytes
  import opened Sorting
  import opened Varint
  import opened Structure
  import opened Pieces

  predicate BytesBefore(a: seq<byte>, b: seq<byte>) {
    Lex(a, b) == Less
  }

  lemma BytesTotal()
    ensures StrictTotal(BytesBefore)
  {
    hide Lex;
    forall a, b | BytesBefore(a, b) ensures !BytesBefore(b, a) { LexAntisymmetric(a, b); }
    forall a, b, c | BytesBefore(a, b) && BytesBefore(b, c) ensures BytesBefore(a, c) { LexTransitive(a, b, c); }
    forall a, b | a != b ensures BytesBefore(a, b) || BytesBefore(b, a) {
      LexEqual(a, b);
      LexAntisymmetric(b, a);
    }
  }

  /** Byte strings in ascending order. */
  ghost function Ordered(s: set<seq<byte>>): (q: seq<seq<byte>>)
    ensures Ascending(q) && forall x :: x in q <==> x in s
  {
    BytesTotal();
    SetInOrder(BytesBefore, s)
  }

  ghost function TreeBytes(t: Tree): seq<byte>
    decreases t
  {
    Leb(t.tag) + PiecesBytes(seq(|t.arguments|, k requires 0 <= k < |t.arguments| => ArgumentPiece(t.arguments[k])))
  }

  ghost function ArgumentPiece(a: Argument): (p: Piece)
    ensures a.SetArgument? ==> p.SetPiece? && Ascending(p.items)
    ensures a.SetArgument? ==> forall x :: x in p.items <==> exists m :: m in a.members && TreeBytes(m) == x
    decreases a
  {
    match a
    case AbsentArgument => AbsentPiece
    case TreeArgument(t) => ChildPiece(TreeBytes(t))
    case TextArgument(content) => TextPiece(content)
    case RawArgument(content) => RawPiece(content)
    case IntegerArgument(value) => IntegerPiece(value)
    case EnumArgument(content) => EnumPiece(content)
    case SetArgument(members) => SetPiece(Ordered(set m | m in members :: TreeBytes(m)))
    case SequenceArgument(trees) => SequencePiece(seq(|trees|, i requires 0 <= i < |trees| => TreeBytes(trees[i])))
  }

  ghost function ArgumentPieces(args: seq<Argument>): (ps: seq<Piece>)
    ensures |ps| == |args|
  {
    seq(|args|, k requires 0 <= k < |args| => ArgumentPiece(args[k]))
  }

  lemma TreeWrites(t: Tree)
    ensures TreeBytes(t) == Leb(t.tag) + PiecesBytes(ArgumentPieces(t.arguments))
  {
    hide ArgumentPiece, PiecesBytes;
    var ps := seq(|t.arguments|, k requires 0 <= k < |t.arguments| => ArgumentPiece(t.arguments[k]));
    assert ps == ArgumentPieces(t.arguments);
  }

  // ---------- Sets of trees closed under arguments ----------

  /** The trees directly below an argument. */
  ghost predicate Below(a: Argument, t: Tree) {
    match a
    case TreeArgument(tree) => t == tree
    case SetArgument(members) => t in members
    case SequenceArgument(trees) => t in trees
    case _ => false
  }

  ghost predicate ChildOf(t: Tree, c: Tree) {
    exists k :: 0 <= k < |t.arguments| && Below(t.arguments[k], c)
  }

  ghost predicate Closed(all: set<Tree>) {
    forall t, c :: t in all && ChildOf(t, c) ==> c in all
  }

  /** Trees of equal tag have equally many arguments. */
  ghost predicate Regular(all: set<Tree>) {
    forall t, u :: t in all && u in all && t.tag == u.tag ==> |t.arguments| == |u.arguments|
  }

  lemma ArgumentsAlike(a: Argument, b: Argument)
    requires ArgumentPiece(a) == ArgumentPiece(b)
    requires forall c, d :: Below(a, c) && Below(b, d) && TreeBytes(c) == TreeBytes(d) ==> c == d
    ensures a == b
  {
    hide TreeBytes;
    match a {
      case TreeArgument(t) => assert Below(a, t) && Below(b, b.tree);
      case SetArgument(members) =>
        var p := ArgumentPiece(a).items;
        forall m ensures m in members <==> m in b.members {
          if m in members {
            assert TreeBytes(m) in p;
            var n :| n in b.members && TreeBytes(n) == TreeBytes(m);
            assert Below(a, m) && Below(b, n);
          }
          if m in b.members {
            assert TreeBytes(m) in p;
            var n :| n in members && TreeBytes(n) == TreeBytes(m);
            assert Below(a, n) && Below(b, m);
          }
        }
      case SequenceArgument(trees) =>
        var p, q := ArgumentPiece(a).items, ArgumentPiece(b).items;
        assert |p| == |trees| && |q| == |b.trees|;
        forall i | 0 <= i < |trees| ensures trees[i] == b.trees[i] {
          assert p[i] == TreeBytes(trees[i]) && q[i] == TreeBytes(b.trees[i]);
          assert Below(a, trees[i]) && Below(b, b.trees[i]);
        }
      case _ =>
    }
  }

  /** Different trees of a regular closed set have different bytes. */
  lemma {:induction false} BytesInjective(all: set<Tree>, t: Tree, u: Tree)
    requires Closed(all) && Regular(all) && t in all && u in all && TreeBytes(t) == TreeBytes(u)
    ensures t == u
    decreases t
  {
    hide ArgumentPiece, PiecesBytes;
    var ps, qs := ArgumentPieces(t.arguments), ArgumentPieces(u.arguments);
    TreeWrites(t);
    TreeWrites(u);
    NodeCut(t.tag, ps, u.tag, qs);
    forall k | 0 <= k < |t.arguments| ensures t.arguments[k] == u.arguments[k] {
      assert ps[k] == qs[k];
      forall c, d | Below(t.arguments[k], c) && Below(u.arguments[k], d) && TreeBytes(c) == TreeBytes(d)
        ensures c == d
      {
        assert ChildOf(t, c) && ChildOf(u, d);
        ChildSmaller(t, k, c);
        BytesInjective(all, c, d);
      }
      ArgumentsAlike(t.arguments[k], u.arguments[k]);
    }
  }

  lemma ChildSmaller(t: Tree, k: nat, c: Tree)
    requires k < |t.arguments| && Below(t.arguments[k], c)
    ensures t decreases to c
  {
    assert t decreases to t.arguments[k];
  }
}
