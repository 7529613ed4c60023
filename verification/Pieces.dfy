/**
 The pieces canonical bytes are made of. Each piece is written so that it can be cut off the front of
 any byte string again: equal bytes are written by equal pieces.
 */
module Pieces {
  import opened Bytes
  import opened Varint
  import opened Structure

  // ---------- Cutting a prefix ----------

  lemma LebCut(m: nat, n: nat, x: seq<byte>, y: seq<byte>)
    requires Leb(m) + x == Leb(n) + y
    ensures m == n && x == y
  {
    LebHeads(m, n, x, y);
    LexEqual(Leb(m) + x, Leb(n) + y);
    LexEqual(Leb(m), Leb(n));
    assert x == (Leb(m) + x)[|Leb(m)|..] && y == (Leb(n) + y)[|Leb(n)|..];
  }

  lemma FrameCut(p: seq<byte>, q: seq<byte>, x: seq<byte>, y: seq<byte>)
    requires Frame(p) + x == Frame(q) + y
    ensures p == q && x == y
  {
    AppendAssociative(Leb(|p|), p, x);
    AppendAssociative(Leb(|q|), q, y);
    LebCut(|p|, |q|, p + x, q + y);
    assert p == (p + x)[..|p|] && q == (q + y)[..|q|];
    assert x == (p + x)[|p|..] && y == (q + y)[|q|..];
  }

  lemma MarkCut(m: byte, n: byte, p: seq<byte>, q: seq<byte>)
    requires [m] + p == [n] + q
    ensures m == n && p == q
  {
    assert ([m] + p)[0] == m && ([n] + q)[0] == n;
    assert p == ([m] + p)[1..] && q == ([n] + q)[1..];
  }

  /** A list of byte strings, each framed behind a mark. */
  function Framed(mark: seq<byte>, items: seq<seq<byte>>): seq<byte> {
    if items == [] then [] else mark + Frame(items[0]) + Framed(mark, items[1..])
  }

  lemma {:induction false} FramedCut(mark: seq<byte>, p: seq<seq<byte>>, q: seq<seq<byte>>, x: seq<byte>, y: seq<byte>)
    requires |p| == |q| && Framed(mark, p) + x == Framed(mark, q) + y
    ensures p == q && x == y
    decreases |p|
  {
    if p == [] {
      assert Framed(mark, p) + x == x && Framed(mark, q) + y == y;
    } else {
      var u, v := Framed(mark, p[1..]) + x, Framed(mark, q[1..]) + y;
      assert Framed(mark, p) + x == mark + (Frame(p[0]) + u);
      assert Framed(mark, q) + y == mark + (Frame(q[0]) + v);
      assert Frame(p[0]) + u == (mark + (Frame(p[0]) + u))[|mark|..];
      assert Frame(q[0]) + v == (mark + (Frame(q[0]) + v))[|mark|..];
      FrameCut(p[0], q[0], u, v);
      FramedCut(mark, p[1..], q[1..], x, y);
    }
  }

  // ---------- Pieces ----------

  /** One constructor argument with its children already serialized. */
  datatype Piece =
    | AbsentPiece
    | ChildPiece(bytes: seq<byte>)
    | TextPiece(content: seq<byte>)
    | RawPiece(content: seq<byte>)
    | IntegerPiece(value: nat)
    | EnumPiece(content: seq<byte>)
    | SetPiece(items: seq<seq<byte>>)
    | SequencePiece(items: seq<seq<byte>>)

  function Marker(p: Piece): byte {
    match p
    case AbsentPiece => 0
    case ChildPiece(_) => 1
    case TextPiece(_) => 2
    case RawPiece(_) => 3
    case IntegerPiece(_) => 4
    case EnumPiece(_) => 5
    case SetPiece(_) => 6
    case SequencePiece(_) => 7
  }

  /** Everything behind the marker. */
  function Payload(p: Piece): seq<byte> {
    match p
    case AbsentPiece => []
    case ChildPiece(bytes) => Frame(bytes)
    case TextPiece(content) => Frame(content)
    case RawPiece(content) => Frame(content)
    case IntegerPiece(value) => Leb(value)
    case EnumPiece(content) => Frame(content)
    case SetPiece(items) => Leb(|items|) + Framed([], items)
    case SequencePiece(items) => Leb(|items|) + Framed([1], items)
  }

  function PieceBytes(p: Piece): seq<byte> {
    [Marker(p)] + Payload(p)
  }

  function PiecesBytes(ps: seq<Piece>): seq<byte> {
    if ps == [] then [] else PieceBytes(ps[0]) + PiecesBytes(ps[1..])
  }

  lemma ListCut(mark: seq<byte>, p: seq<seq<byte>>, q: seq<seq<byte>>, x: seq<byte>, y: seq<byte>)
    requires Leb(|p|) + Framed(mark, p) + x == Leb(|q|) + Framed(mark, q) + y
    ensures p == q && x == y
  {
    AppendAssociative(Leb(|p|), Framed(mark, p), x);
    AppendAssociative(Leb(|q|), Framed(mark, q), y);
    LebCut(|p|, |q|, Framed(mark, p) + x, Framed(mark, q) + y);
    FramedCut(mark, p, q, x, y);
  }

  lemma PayloadCut(p: Piece, q: Piece, x: seq<byte>, y: seq<byte>)
    requires Marker(p) == Marker(q) && Payload(p) + x == Payload(q) + y
    ensures p == q && x == y
  {
    hide Leb, Frame, Framed;
    match p {
      case AbsentPiece => assert Payload(p) + x == x && Payload(q) + y == y;
      case ChildPiece(bytes) => FrameCut(bytes, q.bytes, x, y);
      case IntegerPiece(value) => LebCut(value, q.value, x, y);
      case SetPiece(items) => ListCut([], items, q.items, x, y);
      case SequencePiece(items) => ListCut([1], items, q.items, x, y);
      case _ => FrameCut(p.content, q.content, x, y);
    }
  }

  /** Pieces that write the same front are the same. */
  lemma PieceCut(p: Piece, q: Piece, x: seq<byte>, y: seq<byte>)
    requires PieceBytes(p) + x == PieceBytes(q) + y
    ensures p == q && x == y
  {
    hide Payload, Marker;
    AppendAssociative([Marker(p)], Payload(p), x);
    AppendAssociative([Marker(q)], Payload(q), y);
    MarkCut(Marker(p), Marker(q), Payload(p) + x, Payload(q) + y);
    PayloadCut(p, q, x, y);
  }

  lemma {:induction false} PiecesCut(ps: seq<Piece>, qs: seq<Piece>)
    requires |ps| == |qs| && PiecesBytes(ps) == PiecesBytes(qs)
    ensures ps == qs
    decreases |ps|
  {
    hide PieceBytes;
    if ps != [] {
      PieceCut(ps[0], qs[0], PiecesBytes(ps[1..]), PiecesBytes(qs[1..]));
      PiecesCut(ps[1..], qs[1..]);
      assert ps == [ps[0]] + ps[1..] && qs == [qs[0]] + qs[1..];
    }
  }

  /** A tag and as many pieces as the tag allows can be read back. */
  lemma NodeCut(tag: nat, ps: seq<Piece>, other: nat, qs: seq<Piece>)
    requires Leb(tag) + PiecesBytes(ps) == Leb(other) + PiecesBytes(qs) && (tag == other ==> |ps| == |qs|)
    ensures tag == other && ps == qs
  {
    LebCut(tag, other, PiecesBytes(ps), PiecesBytes(qs));
    PiecesCut(ps, qs);
  }

  // ---------- The pieces of a field ----------

  /** The rows a list of references picks from a table. */
  ghost function Picks(items: seq<nat>, sers: seq<seq<byte>>): seq<seq<byte>>
    requires Within(items, |sers|)
  {
    seq(|items|, i requires 0 <= i < |items| => sers[items[i]])
  }

  ghost function FieldPiece(f: Field, sers: seq<seq<byte>>): Piece
    requires Within(Refs(f), |sers|)
  {
    match f
    case Absent => AbsentPiece
    case Child(node) => assert node == Refs(f)[0]; ChildPiece(sers[node])
    case Text(content) => TextPiece(content)
    case Raw(content) => RawPiece(content)
    case Integer(value) => IntegerPiece(value)
    case Enum(content) => EnumPiece(content)
    case SetOf(items) => SetPiece(Picks(items, sers))
    case SequenceOf(items) => SequencePiece(Picks(items, sers))
  }

  lemma {:induction false} FramedPicks(items: seq<nat>, sers: seq<seq<byte>>)
    requires Within(items, |sers|)
    ensures SetBytes(items, sers) == Framed([], Picks(items, sers))
    ensures SequenceBytes(items, sers) == Framed([1], Picks(items, sers))
    decreases |items|
  {
    if items != [] {
      FramedPicks(items[1..], sers);
      assert Picks(items, sers)[1..] == Picks(items[1..], sers);
      assert [] + Frame(sers[items[0]]) == Frame(sers[items[0]]);
    }
  }

  lemma FieldWrites(f: Field, sers: seq<seq<byte>>)
    requires Within(Refs(f), |sers|)
    ensures FieldBytes(f, sers) == PieceBytes(FieldPiece(f, sers))
  {
    hide Leb, Frame, SetBytes, SequenceBytes, Framed;
    match f {
      case SetOf(items) =>
        FramedPicks(items, sers);
        AppendAssociative([6], Leb(|items|), SetBytes(items, sers));
      case SequenceOf(items) =>
        FramedPicks(items, sers);
        AppendAssociative([7], Leb(|items|), SequenceBytes(items, sers));
      case _ =>
    }
  }

  ghost function FieldPieces(fields: seq<Field>, sers: seq<seq<byte>>): (ps: seq<Piece>)
    requires Bounded(fields, |sers|)
    ensures |ps| == |fields|
  {
    seq(|fields|, k requires 0 <= k < |fields| => FieldPiece(fields[k], sers))
  }

  /** The fields of a node write exactly their pieces. */
  lemma {:induction false} FieldsWrite(fields: seq<Field>, sers: seq<seq<byte>>)
    requires Bounded(fields, |sers|)
    ensures FieldsBytes(fields, sers) == PiecesBytes(FieldPieces(fields, sers))
    decreases |fields|
  {
    hide FieldBytes, FieldPiece, PieceBytes;
    if fields != [] {
      FieldWrites(fields[0], sers);
      FieldsWrite(fields[1..], sers);
      assert FieldPieces(fields, sers)[1..] == FieldPieces(fields[1..], sers);
    }
  }
}
