/**
 Unsigned LEB128 as the canonical model uses it, on `u64` values and on minimal little-endian
 integers of any length. `Leb` is the reference coding; the byte-at-a-time readers below it are
 the ones the validator uses, because it never materialises a code.
 */
module Varint {
  import opened Bytes

  // ---------- The reference coding (section 7.6 of DWARF 5) ----------

  /** Seven-bit groups, least significant first; every byte but the last has its high bit set. */
  function Leb(n: nat): (code: seq<byte>)
    ensures |code| >= 1
  {
    if n < 128 then [n] else [n % 128 + 128] + Leb(n / 128)
  }

  /** The value a group sequence denotes, ignoring continuation bits. */
  function LebValue(code: seq<byte>): nat {
    if code == [] then 0 else code[0] % 128 + 128 * LebValue(code[1..])
  }

  /** The groups sum to the value, and only the last byte lacks the continuation bit. */
  lemma {:induction false} LebDenotes(n: nat)
    ensures LebValue(Leb(n)) == n
    ensures forall i :: 0 <= i < |Leb(n)| ==> (Leb(n)[i] < 128 <==> i == |Leb(n)| - 1)
  {
    if n >= 128 {
      LebDenotes(n / 128);
      var rest := Leb(n / 128);
      var code := Leb(n);
      assert code[1..] == rest;
      assert (n % 128 + 128) % 128 == n % 128;
      forall i | 0 <= i < |code| ensures code[i] < 128 <==> i == |code| - 1 {
        assert i == 0 || code[i] == rest[i - 1];
      }
    } else {
      assert LebValue(Leb(n)[1..]) == 0;
    }
  }

  /** No code is a prefix of another one. */
  lemma LebPrefixFree(m: nat, n: nat)
    ensures Leb(m) <= Leb(n) <==> m == n
  {
    LebDenotes(m);
    LebDenotes(n);
    if Leb(m) <= Leb(n) {
      var last := |Leb(m)| - 1;
      assert Leb(m)[last] == Leb(n)[last];
      assert Leb(m) == Leb(n);
    }
  }

  /** A self-delimiting head that differs decides the comparison; an equal one can be cut off. */
  lemma LebHeads(m: nat, n: nat, x: seq<byte>, y: seq<byte>)
    ensures Lex(Leb(m), Leb(n)) == Equal <==> m == n
    ensures Lex(Leb(m) + x, Leb(n) + y) == if m == n then Lex(x, y) else Lex(Leb(m), Leb(n))
  {
    LexEqual(Leb(m), Leb(n));
    LebPrefixFree(m, n);
    LebPrefixFree(n, m);
    if m == n {
      LexSamePrefix(Leb(m), x, y);
    } else {
      LexHeads(Leb(m), Leb(n), x, y);
    }
  }

  // ---------- Shifts and bit lengths ----------

  /** Logical shift right. */
  function Shr(n: nat, k: nat): nat
    decreases k
  {
    if k == 0 then n else Shr(n / 2, k - 1)
  }

  lemma {:induction false} ShrAdd(n: nat, j: nat, k: nat)
    ensures Shr(n, j + k) == Shr(Shr(n, j), k)
    decreases j
  {
    if j > 0 {
      ShrAdd(n / 2, j - 1, k);
    }
  }

  lemma ShrSeven(n: nat)
    ensures Shr(n, 7) == n / 128
  {
    assert Shr(n, 7) == Shr(n / 2, 6) == Shr(n / 2 / 2, 5) == Shr(n / 2 / 2 / 2, 4);
    var m := n / 2 / 2 / 2;
    assert Shr(m, 4) == Shr(m / 2, 3) == Shr(m / 2 / 2, 2) == Shr(m / 2 / 2 / 2, 1) == m / 2 / 2 / 2 / 2;
  }

  lemma ShrEight(n: nat)
    ensures Shr(n, 8) == n / 256
  {
    ShrAdd(n, 7, 1);
    ShrSeven(n);
    assert Shr(n / 128, 1) == Shr(n / 128 / 2, 0);
  }

  /** Position of the highest set bit, plus one: the word width less the leading zeros. */
  function BitLength(n: nat): nat {
    if n == 0 then 0 else 1 + BitLength(n / 2)
  }

  lemma {:induction false} BitLengthShr(n: nat, k: nat)
    requires Shr(n, k) > 0
    ensures BitLength(n) == k + BitLength(Shr(n, k))
    decreases k
  {
    if k > 0 {
      if n == 0 {
        ShrZero(k);
        assert false;
      }
      BitLengthShr(n / 2, k - 1);
    }
  }

  lemma {:induction false} ShrZero(k: nat)
    ensures Shr(0, k) == 0
  {
    if k > 0 { ShrZero(k - 1); }
  }

  /** Width of a code of `bits` significant bits: `bits.div_ceil(7).max(1)`. */
  function GroupCount(bits: nat): nat {
    if bits == 0 then 1 else (bits + 6) / 7
  }

  // ---------- u64 values ----------

  function VarintWidth(value: nat): nat {
    GroupCount(BitLength(value))
  }

  function VarintByte(value: nat, index: nat, width: nat): byte {
    var group := Shr(value, index * 7) % 128;
    if index + 1 < width then group + 128 else group
  }

  lemma {:induction false} VarintWidthIsLength(n: nat)
    ensures VarintWidth(n) == |Leb(n)|
  {
    if n >= 128 {
      ShrSeven(n);
      BitLengthShr(n, 7);
      VarintWidthIsLength(n / 128);
    } else {
      SmallBitLength(n);
    }
  }

  lemma SmallBitLength(n: nat)
    requires n < 128
    ensures BitLength(n) <= 7
  {
    BitLengthBound(n, 7);
  }

  lemma {:induction false} BitLengthBound(n: nat, k: nat)
    requires Shr(n, k) == 0
    ensures BitLength(n) <= k
    decreases k
  {
    if n > 0 {
      BitLengthBound(n / 2, k - 1);
    }
  }

  /** Each byte read by shifting is the byte of the reference code. */
  lemma {:induction false} VarintByteIsLeb(n: nat, index: nat)
    requires index < |Leb(n)|
    ensures VarintByte(n, index, |Leb(n)|) == Leb(n)[index]
    decreases index
  {
    if index > 0 {
      VarintByteIsLeb(n / 128, index - 1);
      ShrSeven(n);
      ShrAdd(n, 7, (index - 1) * 7);
      assert index * 7 == 7 + (index - 1) * 7;
    }
  }

  /** Byte-wise comparison of two `u64` codes without materialising them. */
  method CompareVarints(left: nat, right: nat) returns (ordering: Ordering)
    ensures ordering == Lex(Leb(left), Leb(right))
  {
    var leftWidth, rightWidth := VarintWidth(left), VarintWidth(right);
    ghost var l, r := Leb(left), Leb(right);
    VarintWidthIsLength(left);
    VarintWidthIsLength(right);
    var index := 0;
    var limit := if leftWidth < rightWidth then rightWidth else leftWidth;
    while index < limit
      invariant 0 <= index <= limit
      invariant |l| == leftWidth && |r| == rightWidth
      invariant index <= |l| && index <= |r| && forall k :: 0 <= k < index ==> l[k] == r[k]
    {
      if index < leftWidth && index < rightWidth {
        VarintByteIsLeb(left, index);
        VarintByteIsLeb(right, index);
        var leftByte, rightByte := VarintByte(left, index, leftWidth), VarintByte(right, index, rightWidth);
        if leftByte != rightByte {
          LexDiffersAt(l, r, index);
          return Compare(leftByte, rightByte);
        }
      } else if index < leftWidth {
        assert index == |r|;
        LexProperPrefix(r, l);
        return Greater;
      } else {
        assert index == |l|;
        LexProperPrefix(l, r);
        return Less;
      }
      index := index + 1;
    }
    assert l == r;
    LexEqual(l, r);
    return Equal;
  }

  // ---------- Integers of any length, stored little-endian ----------

  function LittleEndian(bytes: seq<byte>): nat {
    if bytes == [] then 0 else bytes[0] + 256 * LittleEndian(bytes[1..])
  }

  /** Nonempty, and no redundant high zero byte. */
  predicate Minimal(bytes: seq<byte>) {
    |bytes| >= 1 && (|bytes| > 1 ==> bytes[|bytes| - 1] != 0)
  }

  lemma {:induction false} MinimalPositive(bytes: seq<byte>)
    requires Minimal(bytes) && |bytes| > 1
    ensures LittleEndian(bytes) >= 256
  {
    if |bytes| > 2 {
      MinimalPositive(bytes[1..]);
    } else {
      assert bytes[1..][1..] == [];
      assert LittleEndian(bytes[1..]) == bytes[1];
    }
  }

  /** A value has one minimal representation. */
  lemma {:induction false} MinimalUnique(a: seq<byte>, b: seq<byte>)
    requires Minimal(a) && Minimal(b) && LittleEndian(a) == LittleEndian(b)
    ensures a == b
  {
    if |a| > 1 { MinimalPositive(a); } else { assert a[1..] == [] && LittleEndian(a) == a[0]; }
    if |b| > 1 { MinimalPositive(b); } else { assert b[1..] == [] && LittleEndian(b) == b[0]; }
    if |a| > 1 {
      MinimalUnique(a[1..], b[1..]);
      assert a == [a[0]] + a[1..] && b == [b[0]] + b[1..];
    }
  }

  /** Dropping low bytes is shifting right by eight bits each. */
  lemma {:induction false} LittleEndianDrop(bytes: seq<byte>, k: nat)
    requires k <= |bytes|
    ensures Shr(LittleEndian(bytes), 8 * k) == LittleEndian(bytes[k..])
  {
    if k == 0 {
      assert bytes[0..] == bytes;
    } else {
      LittleEndianDrop(bytes[1..], k - 1);
      ShrEight(LittleEndian(bytes));
      ShrAdd(LittleEndian(bytes), 8, 8 * (k - 1));
      assert bytes[1..][k - 1..] == bytes[k..];
    }
  }

  /** Bit length from the payload length and the high byte alone. */
  function IntegerBits(bytes: seq<byte>): nat
    requires |bytes| >= 1
  {
    (|bytes| - 1) * 8 + BitLength(bytes[|bytes| - 1])
  }

  function IntegerWidth(bytes: seq<byte>): nat
    requires |bytes| >= 1
  {
    GroupCount(IntegerBits(bytes))
  }

  lemma IntegerWidthIsLength(bytes: seq<byte>)
    requires Minimal(bytes)
    ensures IntegerWidth(bytes) == |Leb(LittleEndian(bytes))|
  {
    var last := |bytes| - 1;
    VarintWidthIsLength(LittleEndian(bytes));
    LittleEndianDrop(bytes, last);
    assert bytes[last..] == [bytes[last]];
    assert LittleEndian(bytes[last..]) == bytes[last];
    if |bytes| > 1 {
      BitLengthShr(LittleEndian(bytes), 8 * last);
    }
  }

  /** Two raised to `k`, for the shift distances that occur inside one byte. */
  function Pow2(k: nat): (p: nat)
    requires k <= 8
    ensures p > 0
  {
    if k == 0 then 1 else 2 * Pow2(k - 1)
  }

  /**
   One byte of the code, cut from a two-byte window of the payload. `window >> shift` is division,
   the disjoint `|` of the next byte shifted left is addition, and `& 0x7f` is the remainder.
   */
  function IntegerByte(bytes: seq<byte>, index: nat, width: nat): byte
    requires index * 7 / 8 < |bytes|
  {
    var group := WindowBits(bytes, index * 7 / 8, index * 7 % 8);
    if index + 1 < width then group + 128 else group
  }

  lemma ShrOne(n: nat, k: nat)
    ensures Shr(n, k + 1) == Shr(n, k) / 2
  {
    ShrAdd(n, k, 1);
    assert Shr(Shr(n, k), 1) == Shr(Shr(n, k) / 2, 0);
  }

  lemma PowTable()
    ensures Pow2(0) == 1 && Pow2(1) == 2 && Pow2(2) == 4 && Pow2(3) == 8 && Pow2(4) == 16
    ensures Pow2(5) == 32 && Pow2(6) == 64 && Pow2(7) == 128 && Pow2(8) == 256
  {
    assert Pow2(2) == 2 * Pow2(1) && Pow2(4) == 2 * Pow2(3) && Pow2(6) == 2 * Pow2(5);
  }

  lemma ShrTable(n: nat)
    ensures Shr(n, 0) == n && Shr(n, 1) == n / 2 && Shr(n, 2) == n / 4 && Shr(n, 3) == n / 8
    ensures Shr(n, 4) == n / 16 && Shr(n, 5) == n / 32 && Shr(n, 6) == n / 64 && Shr(n, 7) == n / 128
  {
    ShrOne(n, 0);
    ShrOne(n, 1);
    ShrOne(n, 2);
    ShrOne(n, 3);
    ShrOne(n, 4);
    ShrOne(n, 5);
    ShrOne(n, 6);
  }

  /** The two-byte window holds the same seven bits as the whole shifted tail. */
  lemma WindowGroup(b0: byte, b1: byte, rest: nat, shift: nat)
    requires shift < 8
    ensures Pow2(shift) > 0
    ensures Shr(b0 + 256 * (b1 + 256 * rest), shift) % 128
         == (b0 / Pow2(shift) + (if shift != 0 then b1 * Pow2(8 - shift) else 0)) % 128
  {
    hide Shr, Pow2;
    PowTable();
    ShrTable(b0 + 256 * (b1 + 256 * rest));
    if {
      case shift == 0 => Window0(b0, b1, rest);
      case shift == 1 => Window1(b0, b1, rest);
      case shift == 2 => Window2(b0, b1, rest);
      case shift == 3 => Window3(b0, b1, rest);
      case shift == 4 => Window4(b0, b1, rest);
      case shift == 5 => Window5(b0, b1, rest);
      case shift == 6 => Window6(b0, b1, rest);
      case shift == 7 => Window7(b0, b1, rest);
    }
  }

  lemma DropGroups(x: nat, y: nat)
    ensures (x + 128 * y) % 128 == x % 128
  {
    var q, r := x / 128, x % 128;
    assert x + 128 * y == 128 * (q + y) + r;
  }

  lemma Window0(b0: byte, b1: byte, rest: nat)
    ensures (b0 + 256 * (b1 + 256 * rest)) % 128 == b0 % 128
  {
    DropGroups(b0, 2 * (b1 + 256 * rest));
  }

  lemma Window1(b0: byte, b1: byte, rest: nat)
    ensures (b0 + 256 * (b1 + 256 * rest)) / 2 % 128 == (b0 / 2 + b1 * 128) % 128
  {
    var n := b0 + 256 * (b1 + 256 * rest);
    var q := b0 / 2 + b1 * 128 + 128 * (256 * rest);
    assert n == 2 * q + b0 % 2;
    assert n / 2 == q;
    DropGroups(b0 / 2 + b1 * 128, 256 * rest);
  }

  lemma Window2(b0: byte, b1: byte, rest: nat)
    ensures (b0 + 256 * (b1 + 256 * rest)) / 4 % 128 == (b0 / 4 + b1 * 64) % 128
  {
    var n := b0 + 256 * (b1 + 256 * rest);
    var q := b0 / 4 + b1 * 64 + 128 * (128 * rest);
    assert n == 4 * q + b0 % 4;
    assert n / 4 == q;
    DropGroups(b0 / 4 + b1 * 64, 128 * rest);
  }

  lemma Window3(b0: byte, b1: byte, rest: nat)
    ensures (b0 + 256 * (b1 + 256 * rest)) / 8 % 128 == (b0 / 8 + b1 * 32) % 128
  {
    var n := b0 + 256 * (b1 + 256 * rest);
    var q := b0 / 8 + b1 * 32 + 128 * (64 * rest);
    assert n == 8 * q + b0 % 8;
    assert n / 8 == q;
    DropGroups(b0 / 8 + b1 * 32, 64 * rest);
  }

  lemma Window4(b0: byte, b1: byte, rest: nat)
    ensures (b0 + 256 * (b1 + 256 * rest)) / 16 % 128 == (b0 / 16 + b1 * 16) % 128
  {
    var n := b0 + 256 * (b1 + 256 * rest);
    var q := b0 / 16 + b1 * 16 + 128 * (32 * rest);
    assert n == 16 * q + b0 % 16;
    assert n / 16 == q;
    DropGroups(b0 / 16 + b1 * 16, 32 * rest);
  }

  lemma Window5(b0: byte, b1: byte, rest: nat)
    ensures (b0 + 256 * (b1 + 256 * rest)) / 32 % 128 == (b0 / 32 + b1 * 8) % 128
  {
    var n := b0 + 256 * (b1 + 256 * rest);
    var q := b0 / 32 + b1 * 8 + 128 * (16 * rest);
    assert n == 32 * q + b0 % 32;
    assert n / 32 == q;
    DropGroups(b0 / 32 + b1 * 8, 16 * rest);
  }

  lemma Window6(b0: byte, b1: byte, rest: nat)
    ensures (b0 + 256 * (b1 + 256 * rest)) / 64 % 128 == (b0 / 64 + b1 * 4) % 128
  {
    var n := b0 + 256 * (b1 + 256 * rest);
    var q := b0 / 64 + b1 * 4 + 128 * (8 * rest);
    assert n == 64 * q + b0 % 64;
    assert n / 64 == q;
    DropGroups(b0 / 64 + b1 * 4, 8 * rest);
  }

  lemma Window7(b0: byte, b1: byte, rest: nat)
    ensures (b0 + 256 * (b1 + 256 * rest)) / 128 % 128 == (b0 / 128 + b1 * 2) % 128
  {
    var n := b0 + 256 * (b1 + 256 * rest);
    var q := b0 / 128 + b1 * 2 + 128 * (4 * rest);
    assert n == 128 * q + b0 % 128;
    assert n / 128 == q;
    DropGroups(b0 / 128 + b1 * 2, 4 * rest);
  }

  /** The seven bits at `source` bytes plus `shift` bits, as the reader cuts them. */
  function WindowBits(bytes: seq<byte>, source: nat, shift: nat): nat
    requires source < |bytes| && shift < 8
  {
    var low := bytes[source] / Pow2(shift);
    (if shift != 0 && source + 1 < |bytes| then low + bytes[source + 1] * Pow2(8 - shift) else low) % 128
  }

  lemma WindowOfTail(bytes: seq<byte>, source: nat, shift: nat)
    requires source < |bytes| && shift < 8
    ensures WindowBits(bytes, source, shift) == Shr(LittleEndian(bytes[source..]), shift) % 128
  {
    assert bytes[source..][1..] == bytes[source + 1..];
    if source + 1 < |bytes| {
      assert bytes[source + 1..][1..] == bytes[source + 2..];
      WindowGroup(bytes[source], bytes[source + 1], LittleEndian(bytes[source + 2..]), shift);
    } else {
      assert bytes[source + 1..] == [];
      WindowGroup(bytes[source], 0, 0, shift);
    }
  }

  lemma IndexInPayload(bytes: seq<byte>, index: nat)
    requires Minimal(bytes) && index < |Leb(LittleEndian(bytes))|
    ensures index * 7 / 8 < |bytes|
  {
    var high := bytes[|bytes| - 1];
    IntegerWidthIsLength(bytes);
    ShrEight(high);
    BitLengthBound(high, 8);
  }

  /** The window reader yields the bytes of the reference code, for integers of any length. */
  lemma IntegerByteIsLeb(bytes: seq<byte>, index: nat)
    requires Minimal(bytes) && index < |Leb(LittleEndian(bytes))|
    ensures index * 7 / 8 < |bytes|
    ensures IntegerByte(bytes, index, |Leb(LittleEndian(bytes))|) == Leb(LittleEndian(bytes))[index]
  {
    var n, source, shift := LittleEndian(bytes), index * 7 / 8, index * 7 % 8;
    IndexInPayload(bytes, index);
    VarintByteIsLeb(n, index);
    LittleEndianDrop(bytes, source);
    ShrAdd(n, 8 * source, shift);
    assert 8 * source + shift == index * 7;
    WindowOfTail(bytes, source, shift);
  }

  /** Byte-wise comparison of two integer codes. */
  method CompareIntegers(left: seq<byte>, right: seq<byte>) returns (ordering: Ordering)
    requires Minimal(left) && Minimal(right)
    ensures ordering == Lex(Leb(LittleEndian(left)), Leb(LittleEndian(right)))
  {
    var leftWidth, rightWidth := IntegerWidth(left), IntegerWidth(right);
    ghost var l, r := Leb(LittleEndian(left)), Leb(LittleEndian(right));
    IntegerWidthIsLength(left);
    IntegerWidthIsLength(right);
    var index := 0;
    var compared := if leftWidth < rightWidth then rightWidth else leftWidth;
    while index < compared
      invariant 0 <= index <= compared
      invariant |l| == leftWidth && |r| == rightWidth
      invariant index <= |l| && index <= |r| && forall k :: 0 <= k < index ==> l[k] == r[k]
    {
      if index < leftWidth && index < rightWidth {
        IntegerByteIsLeb(left, index);
        IntegerByteIsLeb(right, index);
        var leftByte, rightByte := IntegerByte(left, index, leftWidth), IntegerByte(right, index, rightWidth);
        if leftByte != rightByte {
          LexDiffersAt(l, r, index);
          return Compare(leftByte, rightByte);
        }
      } else if index < leftWidth {
        assert index == |r|;
        LexProperPrefix(r, l);
        return Greater;
      } else {
        assert index == |l|;
        LexProperPrefix(l, r);
        return Less;
      }
      index := index + 1;
    }
    assert l == r;
    LexEqual(l, r);
    return Equal;
  }
}
