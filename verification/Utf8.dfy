/** The hand-written UTF-8 recogniser, judged against the encoding of Unicode scalar values (RFC 3629). */
module Utf8 {
  import opened Bytes

  /** Code points that are not surrogates (section 3 of RFC 3629). */
  type Scalar = v: int | 0 <= v < 0xD800 || 0xE000 <= v < 0x110000

  function EncodeScalar(v: Scalar): (code: seq<byte>)
    ensures 1 <= |code| <= 4
  {
    if v < 0x80 then [v]
    else if v < 0x800 then [0xC0 + v / 64, 0x80 + v % 64]
    else if v < 0x10000 then [0xE0 + v / 4096, 0x80 + v / 64 % 64, 0x80 + v % 64]
    else [0xF0 + v / 262144, 0x80 + v / 4096 % 64, 0x80 + v / 64 % 64, 0x80 + v % 64]
  }

  function Encode(text: seq<Scalar>): seq<byte> {
    if text == [] then [] else EncodeScalar(text[0]) + Encode(text[1..])
  }

  ghost predicate WellFormed(s: seq<byte>) {
    exists text: seq<Scalar> :: Encode(text) == s
  }

  predicate Continuation(b: byte) { 0x80 <= b <= 0xBF }

  /** Number of continuation bytes a lead byte announces, if it is a lead byte at all. */
  function Following(first: byte): (k: int)
    ensures -1 <= k <= 3
  {
    if first <= 0x7F then 0
    else if 0xC2 <= first <= 0xDF then 1
    else if 0xE0 <= first <= 0xEF then 2
    else if 0xF0 <= first <= 0xF4 then 3
    else -1
  }

  /** Bounds on the second byte that exclude overlong forms, surrogates and values past U+10FFFF. */
  predicate SecondAllowed(first: byte, second: byte) {
    if first == 0xE0 then 0xA0 <= second <= 0xBF
    else if first == 0xED then 0x80 <= second <= 0x9F
    else if first == 0xF0 then 0x90 <= second <= 0xBF
    else if first == 0xF4 then 0x80 <= second <= 0x8F
    else Continuation(second)
  }

  /** Length of the one character at the front of `s`, or 0 when there is none. */
  function HeadLength(s: seq<byte>): nat
    requires s != []
  {
    var k := Following(s[0]);
    if k == 0 then 1
    else if k < 0 || |s| <= k || !SecondAllowed(s[0], s[1]) then 0
    else if k >= 2 && !Continuation(s[2]) then 0
    else if k >= 3 && !Continuation(s[3]) then 0
    else k + 1
  }

  /** Appends the six bits of a continuation byte. */
  function Join(high: int, b: byte): int {
    high * 64 + (b - 0x80)
  }

  lemma JoinSplits(high: int, b: byte)
    requires high >= 0 && Continuation(b)
    ensures Join(high, b) / 64 == high && Join(high, b) % 64 == b - 0x80
    ensures Join(high, b) / 4096 == high / 64 && Join(high, b) / 262144 == high / 4096
  {
    assert 0 <= b - 0x80 < 64;
  }

  function DecodeTwo(a: byte, b: byte): (v: Scalar)
    requires Following(a) == 1 && Continuation(b)
    ensures EncodeScalar(v) == [a, b]
  {
    JoinSplits(a - 0xC0, b);
    Join(a - 0xC0, b)
  }

  function DecodeThree(a: byte, b: byte, c: byte): (v: Scalar)
    requires Following(a) == 2 && SecondAllowed(a, b) && Continuation(c)
    ensures EncodeScalar(v) == [a, b, c]
  {
    JoinSplits(a - 0xE0, b);
    JoinSplits(Join(a - 0xE0, b), c);
    Join(Join(a - 0xE0, b), c)
  }

  function DecodeFour(a: byte, b: byte, c: byte, d: byte): (v: Scalar)
    requires Following(a) == 3 && SecondAllowed(a, b) && Continuation(c) && Continuation(d)
    ensures EncodeScalar(v) == [a, b, c, d]
  {
    JoinSplits(a - 0xF0, b);
    JoinSplits(Join(a - 0xF0, b), c);
    JoinSplits(Join(Join(a - 0xF0, b), c), d);
    Join(Join(Join(a - 0xF0, b), c), d)
  }

  /** The scalar value coded by the character at the front of `s`. */
  lemma DecodeHead(s: seq<byte>) returns (v: Scalar)
    requires s != [] && HeadLength(s) > 0
    ensures EncodeScalar(v) == s[..HeadLength(s)]
  {
    hide EncodeScalar, DecodeTwo, DecodeThree, DecodeFour, SecondAllowed, Continuation;
    match HeadLength(s)
    case 1 =>
      v := s[0];
      OneByte(v);
    case 2 =>
      SecondContinues(s[0], s[1]);
      v := DecodeTwo(s[0], s[1]);
    case 3 =>
      v := DecodeThree(s[0], s[1], s[2]);
    case _ =>
      v := DecodeFour(s[0], s[1], s[2], s[3]);
  }

  lemma OneByte(v: Scalar)
    requires v < 0x80
    ensures EncodeScalar(v) == [v]
  {
  }

  lemma SecondContinues(first: byte, second: byte)
    requires Following(first) == 1 && SecondAllowed(first, second)
    ensures Continuation(second)
  {
  }

  /** The code of any scalar value at the front of `s` is the character the recogniser sees there. */
  lemma HeadOfCode(v: Scalar, s: seq<byte>)
    requires EncodeScalar(v) <= s
    ensures s != [] && HeadLength(s) == |EncodeScalar(v)|
  {
    var code := EncodeScalar(v);
    assert forall i :: 0 <= i < |code| ==> s[i] == code[i];
  }

  /** The number that the payload bits of a code spell. */
  function CodeValue(code: seq<byte>): int
    requires 1 <= |code| <= 4
  {
    var lead: int := code[0];
    if |code| == 1 then lead
    else if |code| == 2 then Join(lead - 0xC0, code[1])
    else if |code| == 3 then Join(Join(lead - 0xE0, code[1]), code[2])
    else Join(Join(Join(lead - 0xF0, code[1]), code[2]), code[3])
  }

  lemma Sixes(v: nat)
    ensures v / 64 / 64 == v / 4096 && v / 4096 / 64 == v / 262144
    ensures v / 64 * 64 + v % 64 == v && v / 4096 * 64 + v / 64 % 64 == v / 64
    ensures v / 262144 * 64 + v / 4096 % 64 == v / 4096
  {
  }

  lemma CodeSpells(v: Scalar)
    ensures CodeValue(EncodeScalar(v)) == v
  {
    Sixes(v);
  }

  lemma ScalarOfCode(v: Scalar, w: Scalar)
    requires EncodeScalar(v) == EncodeScalar(w)
    ensures v == w
  {
    hide EncodeScalar, CodeValue;
    CodeSpells(v);
    CodeSpells(w);
  }

  /** No two texts have the same encoding. */
  lemma {:induction false} EncodeInjective(a: seq<Scalar>, b: seq<Scalar>)
    requires Encode(a) == Encode(b)
    ensures a == b
  {
    if a != [] && b != [] {
      var s := Encode(a);
      assert EncodeScalar(a[0]) <= s && EncodeScalar(b[0]) <= s;
      HeadOfCode(a[0], s);
      HeadOfCode(b[0], s);
      assert EncodeScalar(a[0]) == s[..HeadLength(s)] && EncodeScalar(b[0]) == s[..HeadLength(s)];
      ScalarOfCode(a[0], b[0]);
      assert Encode(a[1..]) == s[HeadLength(s)..] && Encode(b[1..]) == s[HeadLength(s)..];
      EncodeInjective(a[1..], b[1..]);
      assert a == [a[0]] + a[1..] && b == [b[0]] + b[1..];
    }
  }

  /** The text that bytes encode. */
  ghost function Decode(s: seq<byte>): (text: seq<Scalar>)
    requires WellFormed(s)
    ensures Encode(text) == s
  {
    var text: seq<Scalar> :| Encode(text) == s;
    text
  }

  lemma DecodeEncode(text: seq<Scalar>)
    ensures WellFormed(Encode(text)) && Decode(Encode(text)) == text
  {
    EncodeInjective(Decode(Encode(text)), text);
  }

  /** Well-formedness is decided character by character. */
  lemma WellFormedStep(s: seq<byte>)
    requires s != []
    ensures WellFormed(s) <==> HeadLength(s) > 0 && WellFormed(s[HeadLength(s)..])
  {
    if WellFormed(s) {
      var text: seq<Scalar> :| Encode(text) == s;
      HeadOfCode(text[0], s);
      assert Encode(text[1..]) == s[HeadLength(s)..];
    }
    if HeadLength(s) > 0 && WellFormed(s[HeadLength(s)..]) {
      var text: seq<Scalar> :| Encode(text) == s[HeadLength(s)..];
      var v := DecodeHead(s);
      assert ([v] + text)[1..] == text;
      assert Encode([v] + text) == s;
    }
  }

  /** Reads the byte at the cursor, or fails at the end of the range. */
  method NextTextByte(bytes: seq<byte>, cursor: nat, end: nat) returns (ok: bool, value: byte, next: nat)
    requires cursor <= end <= |bytes|
    ensures ok <==> cursor < end
    ensures ok ==> value == bytes[cursor] && next == cursor + 1
    ensures !ok ==> next == cursor
  {
    if cursor >= end {
      return false, 0, cursor;
    }
    return true, bytes[cursor], cursor + 1;
  }

  method RequireContinuation(bytes: seq<byte>, cursor: nat, end: nat) returns (ok: bool, next: nat)
    requires cursor <= end <= |bytes|
    ensures ok <==> cursor < end && Continuation(bytes[cursor])
    ensures ok ==> next == cursor + 1
  {
    var present, value, after := NextTextByte(bytes, cursor, end);
    return present && Continuation(value), after;
  }

  /** Reads the restricted second byte of the lead bytes that have one. */
  method RequireSecond(bytes: seq<byte>, first: byte, cursor: nat, end: nat) returns (ok: bool, next: nat)
    requires cursor <= end <= |bytes|
    ensures ok <==> cursor < end && SecondAllowed(first, bytes[cursor])
    ensures ok ==> next == cursor + 1
  {
    var present, value, after := NextTextByte(bytes, cursor, end);
    return present && SecondAllowed(first, value), after;
  }

  /** Accepts a byte range exactly when it encodes some sequence of scalar values. */
  method ValidateUtf8(bytes: seq<byte>, start: nat, end: nat) returns (ok: bool)
    requires start <= end <= |bytes|
    ensures ok <==> WellFormed(bytes[start..end])
  {
    var cursor := start;
    while cursor < end
      invariant start <= cursor <= end
      invariant WellFormed(bytes[start..end]) <==> WellFormed(bytes[cursor..end])
    {
      ghost var rest := bytes[cursor..end];
      WellFormedStep(rest);
      ghost var lead := cursor;
      var first := bytes[cursor];
      cursor := cursor + 1;
      var following := Following(first);
      if following < 0 {
        return false;
      }
      if following >= 1 {
        ok, cursor := RequireSecond(bytes, first, cursor, end);
        if !ok { return false; }
      }
      if following >= 2 {
        ok, cursor := RequireContinuation(bytes, cursor, end);
        if !ok { return false; }
      }
      if following >= 3 {
        ok, cursor := RequireContinuation(bytes, cursor, end);
        if !ok { return false; }
      }
      assert HeadLength(rest) == cursor - lead;
      assert rest[HeadLength(rest)..] == bytes[cursor..end];
    }
    assert bytes[cursor..end] == [] == Encode([]);
    return true;
  }
}
