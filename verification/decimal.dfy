/** Decimal text of numbers: Python's `int(val)` and `float(val)` on a
    number lexeme (app.py:204) and `str(v)` on an int (app.py:310). */
module Decimal {
  import opened Syntax

  predicate IsDigit(c: char) {
    '0' <= c <= '9'
  }

  predicate AllDigits(s: string) {
    forall k :: 0 <= k < |s| ==> IsDigit(s[k])
  }

  function DigitChar(d: nat): (c: char)
    requires d < 10
    ensures IsDigit(c) && DigitVal(c) == d
  {
    (('0' as int) + d) as char
  }

  function DigitVal(c: char): nat {
    if IsDigit(c) then (c as int) - ('0' as int) else 0
  }

  /** The value of a run of decimal digits (most significant first). */
  function DigitsValue(s: string): nat {
    if s == [] then 0 else 10 * DigitsValue(s[..|s| - 1]) + DigitVal(s[|s| - 1])
  }

  function ShowNat(n: nat): (s: string)
    ensures |s| >= 1 && AllDigits(s)
  {
    if n < 10 then [DigitChar(n)] else ShowNat(n / 10) + [DigitChar(n % 10)]
  }

  /** `str(i)` of a Python int. */
  function ShowInt(i: int): (s: string)
    ensures |s| >= 1 && (s[0] == '-' || IsDigit(s[0]))
    ensures forall k :: 0 < k < |s| ==> IsDigit(s[k])
  {
    if i < 0 then "-" + ShowNat(-i) else ShowNat(i)
  }

  /** `int(s)` on text of the form `-?digits`. */
  function ParseInt(s: string): int {
    if |s| > 0 && s[0] == '-' then -(DigitsValue(s[1..]) as int) else DigitsValue(s)
  }

  /** Signed exponent text `[+-]?digits`. */
  function ParseExponent(s: string): int {
    if |s| > 0 && s[0] == '+' then DigitsValue(s[1..]) else ParseInt(s)
  }

  /** Index of the first `e` or `E`, or |s| when there is none. */
  function ExpIndex(s: string): (k: nat)
    ensures k <= |s|
    ensures k < |s| ==> s[k] == 'e' || s[k] == 'E'
  {
    if s == [] then 0
    else if s[0] == 'e' || s[0] == 'E' then 0
    else 1 + ExpIndex(s[1..])
  }

  /** No `e` or `E` comes before ExpIndex: it is the first one. */
  lemma {:induction false} ExpIndexFirst(s: string)
    ensures forall j :: 0 <= j < ExpIndex(s) ==> s[j] != 'e' && s[j] != 'E'
  {
    if s != [] && s[0] != 'e' && s[0] != 'E' {
      ExpIndexFirst(s[1..]);
      assert forall j :: 1 <= j < ExpIndex(s) ==> s[j] == s[1..][j - 1];
    }
  }

  /** The text with every `.` removed. */
  function WithoutDot(s: string): string {
    if s == [] then [] else (if s[0] == '.' then [] else [s[0]]) + WithoutDot(s[1..])
  }

  /** Number of characters after the first `.` (0 when there is none). */
  function FractionLength(s: string): nat {
    if s == [] then 0 else if s[0] == '.' then |s| - 1 else FractionLength(s[1..])
  }

  /** `float(s)` on a number lexeme, as an exact decimal. */
  function ParseFloat(s: string): (v: Value)
    ensures v.Float?
  {
    var neg := |s| > 0 && s[0] == '-';
    var body := if neg then s[1..] else s;
    var k := ExpIndex(body);
    var mant := body[..k];
    var e := if k < |body| then ParseExponent(body[k + 1..]) else 0;
    var m: int := DigitsValue(WithoutDot(mant));
    Float(if neg then -m else m, e - FractionLength(mant))
  }

  predicate LooksLikeFloat(s: string) {
    exists k :: 0 <= k < |s| && (s[k] == '.' || s[k] == 'e' || s[k] == 'E')
  }

  /** The literal's value: a float when the lexeme holds `.`, `e` or `E`,
      an int otherwise. */
  function ParseNumber(s: string): (v: Value)
    ensures IsNum(v)
    ensures v.Float? <==> LooksLikeFloat(s)
  {
    if LooksLikeFloat(s) then ParseFloat(s) else Int(ParseInt(s))
  }

  /** Exact text of a decimal float, `<mant>e<exp>`. */
  function ShowFloat(mant: int, exp: int): (s: string)
    ensures LooksLikeFloat(s)
  {
    var s := ShowInt(mant) + "e" + ShowInt(exp);
    assert s[|ShowInt(mant)|] == 'e';
    s
  }

  lemma {:induction false} DigitsValueSnoc(s: string, c: char)
    ensures DigitsValue(s + [c]) == 10 * DigitsValue(s) + DigitVal(c)
  {
    assert (s + [c])[..|s + [c]| - 1] == s;
  }

  lemma {:induction false} ParseShowNat(n: nat)
    ensures DigitsValue(ShowNat(n)) == n
  {
    if n < 10 {
      assert ShowNat(n)[..0] == [];
    } else {
      ParseShowNat(n / 10);
      DigitsValueSnoc(ShowNat(n / 10), DigitChar(n % 10));
    }
  }

  /** `int(str(i)) == i`. */
  lemma ParseShowInt(i: int)
    ensures ParseInt(ShowInt(i)) == i
    ensures !LooksLikeFloat(ShowInt(i))
  {
    if i < 0 {
      assert ShowInt(i)[1..] == ShowNat(-i);
      ParseShowNat(-i);
    } else {
      ParseShowNat(i);
    }
  }

  lemma {:induction false} DigitsHaveNoDot(s: string)
    requires AllDigits(s)
    ensures WithoutDot(s) == s && FractionLength(s) == 0
  {
    if s != [] {
      DigitsHaveNoDot(s[1..]);
      assert [s[0]] + s[1..] == s;
    }
  }

  lemma {:induction false} ExpIndexAfterDigits(d: string, rest: string)
    requires AllDigits(d)
    ensures ExpIndex(d + "e" + rest) == |d|
  {
    if d != [] {
      assert (d + "e" + rest)[1..] == d[1..] + "e" + rest;
      ExpIndexAfterDigits(d[1..], rest);
    }
  }

  /** Where the parts of `digits e exponent` sit. */
  lemma FloatBodyParts(d: string, x: string)
    requires |d| >= 1 && AllDigits(d)
    ensures var b := d + "e" + x;
      b[0] != '-' && ExpIndex(b) == |d| && b[..|d|] == d && b[|d| + 1..] == x
  {
    var b := d + "e" + x;
    assert b[0] == d[0];
    ExpIndexAfterDigits(d, x);
    assert b[..|d|] == d;
    assert b[|d| + 1..] == x;
  }

  lemma UnsignedFloat(b: string, d: string, x: string)
    requires |b| > 0 && b[0] != '-' && ExpIndex(b) == |d| < |b| && b[..|d|] == d && b[|d| + 1..] == x
    requires WithoutDot(d) == d && FractionLength(d) == 0
    ensures ParseFloat(b) == Float(DigitsValue(d), ParseExponent(x))
  {
  }

  lemma SignedFloat(b: string, d: string, x: string)
    requires |b| > 0 && b[0] != '-' && ExpIndex(b) == |d| < |b| && b[..|d|] == d && b[|d| + 1..] == x
    requires WithoutDot(d) == d && FractionLength(d) == 0
    ensures ParseFloat("-" + b) == Float(-(DigitsValue(d) as int), ParseExponent(x))
  {
    assert ("-" + b)[1..] == b;
  }

  /** Digits, `e` and an exponent read as that decimal, with or without
      a leading `-`. */
  lemma FloatBody(d: string, x: string)
    requires |d| >= 1 && AllDigits(d)
    ensures ParseFloat(d + "e" + x) == Float(DigitsValue(d), ParseExponent(x))
    ensures ParseFloat("-" + (d + "e" + x)) == Float(-(DigitsValue(d) as int), ParseExponent(x))
  {
    FloatBodyParts(d, x);
    DigitsHaveNoDot(d);
    UnsignedFloat(d + "e" + x, d, x);
    SignedFloat(d + "e" + x, d, x);
  }

  lemma ParseShowExponent(exp: int)
    ensures ParseExponent(ShowInt(exp)) == exp
  {
    ParseShowInt(exp);
  }

  lemma ShowFloatParts(mant: int, exp: int)
    ensures mant < 0 ==> ShowFloat(mant, exp) == "-" + (ShowNat(-mant) + "e" + ShowInt(exp))
    ensures mant >= 0 ==> ShowFloat(mant, exp) == ShowNat(mant) + "e" + ShowInt(exp)
  {
  }

  /** `float(text)` recovers the decimal that ShowFloat printed. */
  lemma ParseShowFloat(mant: int, exp: int)
    ensures ParseNumber(ShowFloat(mant, exp)) == Float(mant, exp)
  {
    var n: nat := if mant < 0 then -mant else mant;
    var s := ShowFloat(mant, exp);
    assert ParseNumber(s) == ParseFloat(s);
    ShowFloatParts(mant, exp);
    FloatBody(ShowNat(n), ShowInt(exp));
    ParseShowNat(n);
    ParseShowExponent(exp);
  }
}
