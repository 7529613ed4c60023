/** Bytes, byte strings and their lexicographic order: the order in which canonical model bytes are ranked. */
module Bytes {
  import Sorting

  type byte = b: int | 0 <= b < 256

  /** Exclusive upper bound of `u64`, which is also that of `usize` on a 64-bit platform. */
  const U64_LIMIT: int := 0x1_0000_0000_0000_0000

  /** Exclusive upper bound of `u32`. */
  const U32_LIMIT: int := 0x1_0000_0000

  datatype Ordering = Less | Equal | Greater

  function Compare(a: int, b: int): Ordering {
    if a < b then Less else if a == b then Equal else Greater
  }

  /** Lexicographic comparison of byte strings; a proper prefix is smaller. */
  function Lex(a: seq<byte>, b: seq<byte>): Ordering {
    if a == [] && b == [] then Equal
    else if a == [] then Less
    else if b == [] then Greater
    else if a[0] != b[0] then Compare(a[0], b[0])
    else Lex(a[1..], b[1..])
  }

  lemma {:induction false} LexEqual(a: seq<byte>, b: seq<byte>)
    ensures Lex(a, b) == Equal <==> a == b
  {
    if a != [] && b != [] && a[0] == b[0] {
      LexEqual(a[1..], b[1..]);
      assert a == [a[0]] + a[1..] && b == [b[0]] + b[1..];
    }
  }

  lemma {:induction false} LexAntisymmetric(a: seq<byte>, b: seq<byte>)
    ensures Lex(a, b) == Less <==> Lex(b, a) == Greater
  {
    if a != [] && b != [] && a[0] == b[0] {
      LexAntisymmetric(a[1..], b[1..]);
    }
  }

  lemma {:induction false} LexTransitive(a: seq<byte>, b: seq<byte>, c: seq<byte>)
    requires Lex(a, b) == Less && Lex(b, c) == Less
    ensures Lex(a, c) == Less
  {
    if a != [] && a[0] == b[0] && b[0] == c[0] {
      LexTransitive(a[1..], b[1..], c[1..]);
    }
  }

  /** A common prefix does not change the comparison. */
  lemma {:induction false} LexSamePrefix(p: seq<byte>, a: seq<byte>, b: seq<byte>)
    ensures Lex(p + a, p + b) == Lex(a, b)
  {
    if p == [] {
      assert p + a == a && p + b == b;
    } else {
      assert (p + a)[1..] == p[1..] + a && (p + b)[1..] == p[1..] + b;
      LexSamePrefix(p[1..], a, b);
    }
  }

  /** Two heads neither of which is a prefix of the other decide the comparison on their own. */
  lemma {:induction false} LexHeads(a: seq<byte>, b: seq<byte>, x: seq<byte>, y: seq<byte>)
    requires !(a <= b) && !(b <= a)
    ensures Lex(a, b) != Equal
    ensures Lex(a + x, b + y) == Lex(a, b)
  {
    if a[0] == b[0] {
      assert (a + x)[1..] == a[1..] + x && (b + y)[1..] == b[1..] + y;
      assert a == [a[0]] + a[1..] && b == [b[0]] + b[1..];
      assert a[1..] <= b[1..] ==> a <= b;
      assert b[1..] <= a[1..] ==> b <= a;
      LexHeads(a[1..], b[1..], x, y);
    }
  }

  /** A proper prefix is smaller. */
  lemma LexProperPrefix(a: seq<byte>, b: seq<byte>)
    requires a < b
    ensures Lex(a, b) == Less && Lex(b, a) == Greater
  {
    LexSamePrefix(a, [], b[|a|..]);
    LexSamePrefix(a, b[|a|..], []);
    assert a == a + [] && b == a + b[|a|..];
  }

  /** The first position where two strings differ decides. */
  lemma LexDiffersAt(a: seq<byte>, b: seq<byte>, k: nat)
    requires k < |a| && k < |b| && a[..k] == b[..k] && a[k] != b[k]
    ensures Lex(a, b) == Compare(a[k], b[k])
  {
    LexSamePrefix(a[..k], a[k..], b[k..]);
    assert a == a[..k] + a[k..] && b == b[..k] + b[k..];
  }

  lemma AppendAssociative<T>(a: seq<T>, b: seq<T>, c: seq<T>)
    ensures a + b + c == a + (b + c)
  {
  }

  ghost predicate Ascending(rows: seq<seq<byte>>) {
    forall i, j :: 0 <= i < j < |rows| ==> Lex(rows[i], rows[j]) == Less
  }

  ghost predicate Rises(rows: seq<seq<byte>>, k: nat)
    requires 1 <= k < |rows|
  {
    Lex(rows[k - 1], rows[k]) == Less
  }

  lemma AscentRises(rows: seq<seq<byte>>, k: nat)
    requires Ascending(rows) && 1 <= k < |rows|
    ensures Rises(rows, k)
  {
  }

  /** Neighbour-by-neighbour ascent is ascent. */
  lemma {:induction false} NeighboursAscend(rows: seq<seq<byte>>)
    requires forall k :: 1 <= k < |rows| ==> Rises(rows, k)
    ensures Ascending(rows)
  {
    forall i, j | 0 <= i < j < |rows| ensures Lex(rows[i], rows[j]) == Less {
      NeighboursAscendPair(rows, i, j);
    }
  }

  lemma {:induction false} NeighboursAscendPair(rows: seq<seq<byte>>, i: nat, j: nat)
    requires i < j < |rows|
    requires forall k :: 1 <= k < |rows| ==> Rises(rows, k)
    ensures Lex(rows[i], rows[j]) == Less
    decreases j
  {
    assert Rises(rows, j);
    if i + 1 < j {
      NeighboursAscendPair(rows, i, j - 1);
      LexTransitive(rows[i], rows[j - 1], rows[j]);
    }
  }

  /** A strictly ascending sequence is determined by the set of its elements. */
  lemma AscendingUnique(a: seq<seq<byte>>, b: seq<seq<byte>>)
    requires Ascending(a) && Ascending(b)
    requires forall x :: x in a <==> x in b
    ensures a == b
  {
    var lower := (x: seq<byte>, y: seq<byte>) => Lex(x, y) == Less;
    forall x, y | lower(x, y) ensures !lower(y, x) {
      LexAntisymmetric(x, y);
    }
    Sorting.OrderedUnique(lower, a, b);
  }
}
