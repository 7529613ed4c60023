/** Rewriting a positive decimal numeral into the form Python prints for the same float. */
module Decimal {
  import opened Programs

  const I32_LIMIT := 0x8000_0000

  // ---------- Powers of ten ----------

  /** `x` times ten to the power `e`. */
  ghost function Scale(x: real, e: int): real
    decreases if e < 0 then -e else e
  {
    if e == 0 then x else if e > 0 then Scale(x * 10.0, e - 1) else Scale(x / 10.0, e + 1)
  }

  lemma {:induction false} ScaleTen(x: real, e: int)
    ensures Scale(x * 10.0, e) == Scale(x, e + 1)
    decreases if e < 0 then -e else e
  {
    if e > 0 {
      ScaleTen(x * 10.0, e - 1);
    } else if e < -1 {
      ScaleTen(x / 10.0, e + 1);
      assert x * 10.0 / 10.0 == x / 10.0 * 10.0;
    } else if e == -1 {
      assert Scale(x * 10.0, -1) == Scale(x * 10.0 / 10.0, 0);
    }
  }

  lemma {:induction false} ScaleOrder(x: real, y: real, e: int)
    requires x < y
    ensures Scale(x, e) < Scale(y, e)
    decreases if e < 0 then -e else e
  {
    if e > 0 {
      ScaleOrder(x * 10.0, y * 10.0, e - 1);
    } else if e < 0 {
      ScaleOrder(x / 10.0, y / 10.0, e + 1);
    }
  }

  lemma {:induction false} PowersRise(low: int, high: int)
    requires low <= high
    ensures Scale(1.0, low) <= Scale(1.0, high)
    decreases high - low
  {
    if low < high {
      PowersRise(low, high - 1);
      ScaleTen(1.0, high - 1);
      ScaleOrder(1.0, 10.0, high - 1);
    }
  }

  lemma {:induction false} ScaleSum(x: real, a: nat, b: int)
    ensures Scale(Scale(x, a), b) == Scale(x, a + b)
    decreases a
  {
    if a > 0 {
      ScaleSum(x * 10.0, a - 1, b);
      ScaleTen(x, a - 1 + b);
    }
  }

  // ---------- Digits ----------

  predicate IsDigit(c: char) { '0' <= c <= '9' }

  predicate Digits(s: string) {
    forall k :: 0 <= k < |s| ==> IsDigit(s[k])
  }

  function Number(s: string): nat
    requires Digits(s)
  {
    if s == [] then 0 else 10 * Number(s[..|s| - 1]) + (s[|s| - 1] - '0') as nat
  }

  lemma {:induction false} NumberLeadingZero(s: string)
    requires Digits(s) && s != [] && s[0] == '0'
    ensures Number(s) == Number(s[1..])
  {
    if |s| > 1 {
      NumberLeadingZero(s[..|s| - 1]);
      assert s[..|s| - 1][1..] == s[1..][..|s[1..]| - 1];
    }
  }

  lemma {:induction false} NumberLeadingZeros(s: string, n: nat)
    requires Digits(s) && n <= |s| && forall k :: 0 <= k < n ==> s[k] == '0'
    ensures Number(s) == Number(s[n..])
    decreases n
  {
    if n == 0 {
      assert s[0..] == s;
    } else {
      NumberLeadingZero(s);
      NumberLeadingZeros(s[1..], n - 1);
      assert s[1..][n - 1..] == s[n..];
    }
  }

  function Zeros(n: nat): (s: string)
    ensures |s| == n && Digits(s) && forall k :: 0 <= k < n ==> s[k] == '0'
  {
    seq(n, _ => '0')
  }

  lemma NumberThenZero(s: string, e: int)
    requires Digits(s)
    ensures Digits(s + "0") && Scale(Number(s + "0") as real, e - 1) == Scale(Number(s) as real, e)
  {
    hide Scale;
    assert (s + "0")[..|s|] == s;
    assert Number(s + "0") as real == Number(s) as real * 10.0;
    ScaleTen(Number(s) as real, e - 1);
  }

  /** Trailing zeros scale the number. */
  lemma {:induction false} NumberTrailingZeros(s: string, n: nat, e: int)
    requires Digits(s)
    ensures Digits(s + Zeros(n)) && Scale(Number(s + Zeros(n)) as real, e - n) == Scale(Number(s) as real, e)
    decreases n
  {
    hide Scale, Number;
    if n == 0 {
      assert s + Zeros(0) == s;
    } else {
      NumberTrailingZeros(s, n - 1, e);
      NumberThenZero(s + Zeros(n - 1), e - (n - 1));
      assert s + Zeros(n) == (s + Zeros(n - 1)) + "0";
      assert e - (n - 1) - 1 == e - n;
    }
  }

  /** A number without leading zero lies between two powers of ten. */
  lemma {:induction false} NumberSize(s: string)
    requires Digits(s) && s != [] && s[0] != '0'
    ensures Scale(1.0, |s| - 1) <= Number(s) as real && Number(s) as real + 1.0 <= Scale(1.0, |s|)
  {
    ScaleTen(1.0, |s| - 1);
    TenTimes(|s| - 1);
    if |s| == 1 {
      assert Number(s[..0]) == 0;
    } else {
      NumberSize(s[..|s| - 1]);
      TenTimes(|s| - 2);
    }
  }

  lemma {:induction false} TenTimes(n: nat)
    ensures Scale(1.0, n + 1) == 10.0 * Scale(1.0, n)
  {
    TenTimesOf(1.0, n);
  }

  lemma {:induction false} TenTimesOf(x: real, n: nat)
    ensures Scale(x, n + 1) == 10.0 * Scale(x, n)
    decreases n
  {
    if n > 0 { TenTimesOf(x * 10.0, n - 1); }
  }

  /** The usual decimal notation of a number. */
  function Notation(n: nat): (s: string)
    ensures Digits(s) && s != [] && Number(s) == n && (|s| > 1 ==> s[0] != '0')
    ensures |s| > 1 <==> n >= 10
  {
    var last := [('0' as int + n % 10) as char];
    if n < 10 then
      assert last[..0] == [];
      last
    else
      var front := Notation(n / 10);
      assert (front + last)[..|front|] == front;
      front + last
  }

  // ---------- What a numeral denotes ----------

  /** Index of the first exponent mark, or the length. */
  function FindMark(s: string): (i: nat)
    ensures i <= |s| && (i < |s| ==> s[i] == 'e' || s[i] == 'E') && forall k :: 0 <= k < i ==>
      s[k] != 'e' && s[k] != 'E'
  {
    if s == [] || s[0] == 'e' || s[0] == 'E' then 0 else 1 + FindMark(s[1..])
  }

  /** Index of the first decimal point, or the length. */
  function FindPoint(s: string): (i: nat)
    ensures i <= |s| && (i < |s| ==> s[i] == '.') && forall k :: 0 <= k < i ==> s[k] != '.'
  {
    if s == [] || s[0] == '.' then 0 else 1 + FindPoint(s[1..])
  }

  /** A signed integer of 32 bits. */
  function ParseExponent(s: string): Option<int> {
    var signed := s != [] && (s[0] == '+' || s[0] == '-');
    var ds := if signed then s[1..] else s;
    if ds == [] || !Digits(ds) then None
    else
      var e: int := if signed && s[0] == '-' then -(Number(ds) as int) else Number(ds);
      if -I32_LIMIT <= e < I32_LIMIT then Some(e) else None
  }

  function MantissaDigits(m: string): string {
    var i := FindPoint(m);
    if i == |m| then m else m[..i] + m[i + 1..]
  }

  predicate Mantissa(m: string) {
    MantissaDigits(m) != [] && Digits(MantissaDigits(m))
  }

  /** Digits with at most one decimal point, and possibly an exponent. */
  predicate Numeral(s: string) {
    Mantissa(s[..FindMark(s)]) && Exponent(s).Some?
  }

  predicate HasExponent(s: string) { FindMark(s) < |s| }

  function Exponent(s: string): Option<int> {
    if HasExponent(s) then ParseExponent(s[FindMark(s) + 1..]) else Some(0)
  }

  ghost function Value(s: string): real
    requires Numeral(s)
  {
    var m := s[..FindMark(s)];
    Scale(Number(MantissaDigits(m)) as real, Exponent(s).value - (|MantissaDigits(m)| - FindPoint(m)))
  }

  // ---------- Significant digits ----------

  /** Digits that neither begin nor end with a zero. */
  predicate Significant(ds: string) {
    ds != [] && Digits(ds) && ds[0] != '0' && ds[|ds| - 1] != '0'
  }

  /** The value whose significant digits are `ds` and whose first digit stands for ten to the power `e`. */
  ghost function Scientific(ds: string, e: int): real
    requires Digits(ds)
  {
    Scale(Number(ds) as real, e + 1 - |ds|)
  }

  /** The decimal exponent is the order of magnitude. */
  lemma Magnitude(ds: string, e: int)
    requires Significant(ds)
    ensures Scale(1.0, e) <= Scientific(ds, e) < Scale(1.0, e + 1)
  {
    hide Scale, Number;
    NumberSize(ds);
    var low, n, high, k := Scale(1.0, |ds| - 1), Number(ds) as real, Scale(1.0, |ds|), e + 1 - |ds|;
    ScaleSum(1.0, |ds| - 1, k);
    ScaleSum(1.0, |ds|, k);
    ScaleOrder(n, high, k);
    if low < n { ScaleOrder(low, n, k); }
    assert |ds| - 1 + k == e && |ds| + k == e + 1;
  }

  /** So the value alone decides whether the exponent is below -4 or at least 16. */
  lemma MagnitudeDecides(ds: string, e: int)
    requires Significant(ds)
    ensures e < -4 <==> Scientific(ds, e) < Scale(1.0, -4)
    ensures e >= 16 <==> Scientific(ds, e) >= Scale(1.0, 16)
  {
    hide Scale, Scientific;
    Magnitude(ds, e);
    if e < -4 { PowersRise(e + 1, -4); } else { PowersRise(-4, e); }
    if e >= 16 { PowersRise(16, e); } else { PowersRise(e + 1, 16); }
  }

  // ---------- The two forms ----------

  function ExponentText(e: int): string {
    var magnitude: nat := if e < 0 then -e else e;
    [if e < 0 then '-' else '+'] + (if magnitude < 10 then "0" else "") + Notation(magnitude)
  }

  /** The first digit, then the others behind a point. */
  function LeadingForm(ds: string): string
    requires ds != []
  {
    if |ds| > 1 then [ds[0]] + "." + ds[1..] else [ds[0]]
  }

  function ExponentForm(ds: string, e: int): string
    requires ds != []
  {
    LeadingForm(ds) + "e" + ExponentText(e)
  }

  function PositionalForm(ds: string, e: int): string {
    var point := e + 1;
    if point <= 0 then "0." + Zeros(-point) + ds
    else if point >= |ds| then ds + Zeros(point - |ds|) + ".0"
    else ds[..point] + "." + ds[point..]
  }

  lemma PointAt(s: string, i: nat)
    requires i < |s| && Digits(s[..i]) && s[i] == '.'
    ensures FindPoint(s) == i && MantissaDigits(s) == s[..i] + s[i + 1..]
  {
    assert forall k :: 0 <= k < i ==> IsDigit(s[..i][k]) && s[k] == s[..i][k];
  }

  lemma NoPoint(s: string)
    requires Digits(s)
    ensures FindPoint(s) == |s| && MantissaDigits(s) == s
  {
    assert forall k :: 0 <= k < |s| ==> IsDigit(s[k]) && s[k] != '.';
  }

  predicate Plain(s: string) {
    forall k :: 0 <= k < |s| ==> IsDigit(s[k]) || s[k] == '.'
  }

  lemma MarkAfter(m: string, rest: string)
    requires Plain(m)
    ensures FindMark(m) == |m|
    ensures FindMark(m + "e" + rest) == |m| && (m + "e" + rest)[..|m|] == m && (m + "e" + rest)[|m| + 1..] == rest
  {
    var s := m + "e" + rest;
    assert s[|m|] == 'e';
    assert forall k :: 0 <= k < |m| ==> s[k] == m[k] && m[k] != 'e' && m[k] != 'E';
  }

  lemma ExponentTextParses(e: int)
    requires -I32_LIMIT <= e < I32_LIMIT
    ensures ParseExponent(ExponentText(e)) == Some(e)
    ensures |ExponentText(e)| >= 3 && (|ExponentText(e)| > 3 ==> ExponentText(e)[1] != '0')
  {
    hide Number;
    var magnitude: nat := if e < 0 then -e else e;
    var text, padded := ExponentText(e), (if magnitude < 10 then "0" else "") + Notation(magnitude);
    assert text[1..] == padded;
    if magnitude < 10 {
      NumberLeadingZero(padded);
      assert padded[1..] == Notation(magnitude);
    } else {
      assert padded == Notation(magnitude);
    }
  }

  /** No digit of the mantissa and no digit of the exponent could be left out. */
  ghost predicate TidyExponent(s: string) {
    var m := s[..FindMark(s)];
    && m != [] && m[0] != '0' && IsDigit(m[0]) && (|m| > 1 ==> |m| > 2 && m[1] == '.' && m[|m| - 1] != '0')
    && var text := s[FindMark(s)..];
    && |text| >= 4 && (text[1] == '+' || text[1] == '-') && (|text| > 4 ==> text[2] != '0')
  }

  /** A point with digits on both sides, and no zero that could be left out but a lone one. */
  ghost predicate TidyPositional(s: string) {
    var i := FindPoint(s);
    && 0 < i < |s| - 1
    && (s[0] == '0' ==> i == 1)
    && (s[|s| - 1] == '0' ==> i == |s| - 2)
  }

  lemma ExponentFormMeans(ds: string, e: int)
    requires Significant(ds) && -I32_LIMIT <= e < I32_LIMIT
    ensures
      var s := ExponentForm(ds, e);
      Numeral(s) && HasExponent(s) && Value(s) == Scientific(ds, e) && TidyExponent(s)
  {
    hide Scale, Number, ParseExponent, ExponentText, FindMark, FindPoint, MantissaDigits, Plain;
    var s, m := ExponentForm(ds, e), LeadingForm(ds);
    assert s == m + "e" + ExponentText(e);
    assert Plain(m) by { LeadingPlain(ds); }
    MarkAfter(m, ExponentText(e));
    ExponentTextParses(e);
    TextSigned(e);
    assert s[|m|..] == "e" + ExponentText(e);
    assert s[|m|..][1..] == ExponentText(e);
    LeadingMeans(ds);
  }

  lemma LeadingPlain(ds: string)
    requires ds != [] && Digits(ds)
    ensures Plain(LeadingForm(ds))
  {
  }

  lemma LeadingMeans(ds: string)
    requires Significant(ds)
    ensures MantissaDigits(LeadingForm(ds)) == ds && FindPoint(LeadingForm(ds)) == 1
  {
    var m := LeadingForm(ds);
    if |ds| > 1 {
      PointAt(m, 1);
      assert m[..1] + m[2..] == ds;
    } else {
      NoPoint(m);
      assert m == ds;
    }
  }

  lemma TextSigned(e: int)
    ensures ExponentText(e) != [] && (ExponentText(e)[0] == '+' || ExponentText(e)[0] == '-')
  {
  }

  /** A plain text whose digits scale to the value, with its point where the form puts it. */
  lemma PlainMeans(s: string, point: nat, ds: string, e: int)
    requires point < |s| && Digits(s[..point]) && s[point] == '.' && Digits(s[point + 1..]) && |s| > 1
    requires Digits(ds) && Scale(Number(s[..point] + s[point + 1..]) as real, -(|s| - point - 1)) == Scientific(ds, e)
    ensures Numeral(s) && !HasExponent(s) && FindPoint(s) == point && Value(s) == Scientific(ds, e)
  {
    hide Scale, Number, Scientific, FindMark, FindPoint, MantissaDigits, Plain;
    PlainParts(s, point);
    MarkAfter(s, "");
    assert s[..|s|] == s;
    PointAt(s, point);
  }

  lemma PlainParts(s: string, point: nat)
    requires point < |s| && Digits(s[..point]) && s[point] == '.' && Digits(s[point + 1..])
    ensures Plain(s) && Digits(s[..point] + s[point + 1..])
  {
    forall k | 0 <= k < |s| && k != point ensures IsDigit(s[k]) {
      assert s[k] == if k < point then s[..point][k] else s[point + 1..][k - point - 1];
    }
  }

  lemma SmallMeans(ds: string, zeros: nat)
    requires Significant(ds)
    ensures var s := "0." + Zeros(zeros) + ds;
      Numeral(s) && !HasExponent(s) && Value(s) == Scientific(ds, -1 - zeros) && TidyPositional(s)
  {
    hide Scale, Number, Value;
    var s := "0." + Zeros(zeros) + ds;
    var all := s[..1] + s[2..];
    assert all == Zeros(zeros + 1) + ds;
    NumberLeadingZeros(all, zeros + 1);
    assert all[zeros + 1..] == ds;
    PlainMeans(s, 1, ds, -1 - zeros);
  }

  lemma WholeMeans(ds: string, zeros: nat)
    requires Significant(ds)
    ensures
      var s := ds + Zeros(zeros) + ".0";
      Numeral(s) && !HasExponent(s) && Value(s) == Scientific(ds, |ds| + zeros - 1) && TidyPositional(s)
  {
    hide Scale, Number, Value;
    var s, point := ds + Zeros(zeros) + ".0", |ds| + zeros;
    assert s[..point] == ds + Zeros(zeros) && s[point + 1..] == "0";
    assert s[..point] + s[point + 1..] == ds + Zeros(zeros + 1);
    NumberTrailingZeros(ds, zeros + 1, zeros);
    PlainMeans(s, point, ds, |ds| + zeros - 1);
  }

  lemma SplitMeans(ds: string, point: nat)
    requires Significant(ds) && 0 < point < |ds|
    ensures
      var s := ds[..point] + "." + ds[point..];
      Numeral(s) && !HasExponent(s) && Value(s) == Scientific(ds, point - 1) && TidyPositional(s)
  {
    hide Scale, Number, Value;
    var s := ds[..point] + "." + ds[point..];
    assert s[..point] == ds[..point] && s[point + 1..] == ds[point..];
    assert s[..point] + s[point + 1..] == ds;
    PlainMeans(s, point, ds, point - 1);
  }

  lemma PositionalFormMeans(ds: string, e: int)
    requires Significant(ds)
    ensures
      var s := PositionalForm(ds, e);
      Numeral(s) && !HasExponent(s) && Value(s) == Scientific(ds, e) && TidyPositional(s)
  {
    hide Numeral, HasExponent, Value, Scientific, TidyPositional;
    var point := e + 1;
    if point <= 0 {
      SmallMeans(ds, -point);
    } else if point >= |ds| {
      WholeMeans(ds, point - |ds|);
    } else {
      SplitMeans(ds, point);
    }
  }

  // ---------- The rewriting ----------

  /** The digits without trailing zeros, but never none. */
  method TrimTrailingZeros(all: string) returns (digits: string)
    requires all != [] && Digits(all)
    ensures digits != [] && |digits| <= |all| && Digits(digits) && all == digits + Zeros(|all| - |digits|)
    ensures |digits| > 1 ==> digits[|digits| - 1] != '0'
  {
    digits := all;
    while |digits| > 1 && digits[|digits| - 1] == '0'
      invariant 0 < |digits| <= |all| && Digits(digits) && all == digits + Zeros(|all| - |digits|)
    {
      digits := digits[..|digits| - 1];
    }
  }

  method FirstNonzero(digits: string) returns (lead: nat)
    ensures lead <= |digits| && (lead < |digits| ==> digits[lead] != '0') && forall k :: 0 <= k < lead ==>
      digits[k] == '0'
  {
    lead := 0;
    while lead < |digits| && digits[lead] == '0'
      invariant lead <= |digits| && forall k :: 0 <= k < lead ==> digits[k] == '0'
    {
      lead := lead + 1;
    }
  }

  /** A numeral is its significant digits at some exponent. */
  lemma Normalizes(s: string, digits: string, lead: nat)
    requires Numeral(s)
    requires var all := MantissaDigits(s[..FindMark(s)]);
      digits != [] && |digits| <= |all| && Digits(digits) && all == digits + Zeros(|all| - |digits|)
    requires lead <= |digits| && forall k :: 0 <= k < lead ==> digits[k] == '0'
    ensures Value(s) == Scientific(digits[lead..], FindPoint(s[..FindMark(s)]) - lead - 1 + Exponent(s).value)
  {
    hide Scale, Number, FindMark, FindPoint, ParseExponent;
    var m := s[..FindMark(s)];
    var all, e := MantissaDigits(m), Exponent(s).value;
    var k := |all| - |digits|;
    NumberTrailingZeros(digits, k, e - (|digits| - FindPoint(m)));
    NumberLeadingZeros(digits, lead);
  }

  /** The form Python prints. The refusals are a numeral of value zero and an exponent that leaves 32 bits. */
  method PythonFloatToken(s: string) returns (r: Option<string>)
    requires Numeral(s)
    ensures r.Some? ==> Numeral(r.value) && Value(r.value) == Value(s) && Value(s) > 0.0
    ensures r.Some? ==> (HasExponent(r.value) <==> Value(s) < Scale(1.0, -4) || Value(s) >= Scale(1.0, 16))
    ensures r.Some? ==> if HasExponent(r.value) then TidyExponent(r.value) else TidyPositional(r.value)
    ensures |s| < I32_LIMIT ==>
      (r.None? <==> Value(s) == 0.0 || !(Scale(1.0, -I32_LIMIT) <= Value(s) < Scale(1.0, I32_LIMIT)))
  {
    hide Scale, Number, ParseExponent, TidyExponent, TidyPositional, Scientific, Value, ExponentForm, PositionalForm;
    var m := s[..FindMark(s)];
    var index, all := FindPoint(m), MantissaDigits(m);
    var digits := TrimTrailingZeros(all);
    var lead := FirstNonzero(digits);
    Normalizes(s, digits, lead);
    var e := index - lead - 1 + Exponent(s).value;
    var ds := digits[lead..];
    if lead == |digits| {
      ZeroValue(e);
      assert ds == "";
      return None;
    }
    assert Significant(ds);
    Magnitude(ds, e);
    PowerPositive(e);
    if index >= I32_LIMIT || lead >= I32_LIMIT {
      return None;
    }
    if !(-I32_LIMIT <= e < I32_LIMIT) {
      if e < -I32_LIMIT { PowersRise(e + 1, -I32_LIMIT); } else { PowersRise(I32_LIMIT, e); }
      return None;
    }
    PowersRise(-I32_LIMIT, e);
    PowersRise(e + 1, I32_LIMIT);
    MagnitudeDecides(ds, e);
    if e < -4 || e >= 16 {
      ExponentFormMeans(ds, e);
      return Some(ExponentForm(ds, e));
    }
    PositionalFormMeans(ds, e);
    return Some(PositionalForm(ds, e));
  }

  lemma {:induction false} ScaleZero(e: int)
    ensures Scale(0.0, e) == 0.0
    decreases if e < 0 then -e else e
  {
    if e > 0 { ScaleZero(e - 1); } else if e < 0 { ScaleZero(e + 1); }
  }

  lemma ZeroValue(e: int)
    ensures Scientific("", e) == 0.0
  {
    ScaleZero(e + 1);
  }

  lemma PowerPositive(e: int)
    ensures Scale(1.0, e) > 0.0
  {
    ScaleZero(e);
    ScaleOrder(0.0, 1.0, e);
  }
}
