/** Python's `format(v, "g")`, which `render_scalar` (app.py:311-312)
    applies to a float: six significant digits, rounded half to even;
    fixed notation when the decimal exponent x of the rounded value lies
    in -4 <= x < 6, scientific notation `d.ddddde±XX` otherwise; trailing
    zeros of the fraction dropped, and the point with them when nothing
    is left after it. The float is the exact decimal mant * 10^exp the
    parser builds. */
module FloatFormat {
  import opened Syntax
  import opened Decimal
  import opened Numbers

  /** The number of decimal digits of n. */
  function NumDigits(n: nat): (k: nat)
    ensures k >= 1
  {
    if n < 10 then 1 else 1 + NumDigits(n / 10)
  }

  /** The last k decimal digits of n, leading zeros included. */
  function FixedDigits(n: nat, k: nat): (s: string)
    ensures |s| == k && AllDigits(s)
  {
    if k == 0 then "" else FixedDigits(n / 10, k - 1) + [DigitChar(n % 10)]
  }

  /** Six significant digits and whether rounding carried into a seventh. */
  datatype Rounded = Rounded(digits: nat, carry: bool)

  /** n with its last digits dropped, d being a power of ten. */
  function Shift(n: nat, d: nat): (q: nat)
    requires d >= 1
  {
    n / d
  }

  /** The first six significant digits of n, which has len digits, rounded
      half to even. */
  function Round6(n: nat, len: nat): Rounded {
    if len <= 6 then Rounded(n * Pow10(6 - len), false)
    else
      var d := Pow10(len - 6);
      var q := Shift(n, d);
      var rem := n % d;
      var up := 2 * rem > d || (2 * rem == d && q % 2 == 1);
      var q' := if up then q + 1 else q;
      if q' == 1000000 then Rounded(100000, true) else Rounded(q', false)
  }

  /** s without its trailing zeros. */
  function StripZeros(s: string): (r: string)
    ensures |r| <= |s|
  {
    if s != [] && s[|s| - 1] == '0' then StripZeros(s[..|s| - 1]) else s
  }

  function Zeros(k: nat): string {
    if k == 0 then "" else "0" + Zeros(k - 1)
  }

  /** The fraction after the point, or nothing when it is all zeros. */
  function PointPart(frac: string): string {
    var f := StripZeros(frac);
    if f == [] then "" else "." + f
  }

  /** `format(v, "g")` for v = mant * 10^exp. */
  function FormatG(mant: int, exp: int): string {
    if mant == 0 then "0"
    else
      var n: nat := if mant < 0 then -mant else mant;
      var sign := if mant < 0 then "-" else "";
      var len := NumDigits(n);
      var r := Round6(n, len);
      var x := len - 1 + exp + (if r.carry then 1 else 0);
      var ds := FixedDigits(r.digits, 6);
      if -4 <= x < 6 then
        if x >= 0 then sign + ds[..x + 1] + PointPart(ds[x + 1..])
        else sign + "0." + Zeros(-x - 1) + StripZeros(ds)
      else
        var e: nat := if x < 0 then -x else x;
        sign + ds[..1] + PointPart(ds[1..]) + "e" + (if x < 0 then "-" else "+") +
        (if e < 10 then "0" else "") + ShowNat(e)
  }

  // ----- two floats the format changes -----

  /** `a := 1000001.0` is written `1e+06`, which reads back as 1000000:
      the seventh significant digit is lost. */
  lemma LosesDigits()
    ensures FormatG(10000010, -1) == "1e+06"
    ensures ParseNumber("1e+06") == Float(1, 6)
    ensures NumVal(Float(1, 6)) != NumVal(Float(10000010, -1))
  {
    FormatMillion();
    ReadMillion();
    assert Val(10000010, 0) == 10000010.0;
    assert Val(1, 6) == Val(10, 5) == Val(100, 4) == Val(1000, 3) == Val(10000, 2) == Val(100000, 1) == Val(1000000, 0);
  }

  /** `a := 2.0` is written `2`, which reads back as an integer. */
  lemma DropsFloat()
    ensures FormatG(20, -1) == "2"
    ensures ParseNumber("2") == Int(2)
  {
    TwoAndZeros();
    AllZerosStripped();
    assert Pow10(4) == 10000;
    assert Round6(20, 2) == Rounded(200000, false);
    assert NumDigits(20) == 2;
    var ds := "200000";
    assert ds[..1] == "2" && ds[1..] == "00000";
    assert !LooksLikeFloat("2");
    assert DigitsValue("2") == 2;
  }

  lemma FormatMillion()
    ensures FormatG(10000010, -1) == "1e+06"
  {
    OneAndZeros();
    AllZerosStripped();
    assert Pow10(2) == 100;
    assert Round6(10000010, 8) == Rounded(100000, false);
    EightDigits();
    var ds := "100000";
    assert ds[..1] == "1" && ds[1..] == "00000";
    assert ShowNat(6) == "6";
  }

  lemma ReadMillion()
    ensures ParseNumber("1e+06") == Float(1, 6)
  {
    MillionText();
    ExponentSix();
    FloatBody("1", "+06");
    assert DigitsValue("1") == 1;
  }

  lemma MillionText()
    ensures "1" + "e" + "+06" == "1e+06" && LooksLikeFloat("1e+06")
  {
    assert "1e+06"[1] == 'e';
  }

  lemma ExponentSix()
    ensures ParseExponent("+06") == 6
  {
    DigitsValueSnoc("0", '6');
    assert "0" + ['6'] == "06";
    assert "+06"[1..] == "06";
  }

  lemma EightDigits()
    ensures NumDigits(10000010) == 8
  {
    assert NumDigits(10000010) == 1 + NumDigits(1000001);
    assert NumDigits(1000001) == 1 + NumDigits(100000);
    assert NumDigits(100000) == 1 + NumDigits(10000);
    assert NumDigits(10000) == 1 + NumDigits(1000);
    assert NumDigits(1000) == 1 + NumDigits(100);
    assert NumDigits(100) == 1 + NumDigits(10);
    assert NumDigits(10) == 2;
  }

  lemma OneAndZeros()
    ensures FixedDigits(100000, 6) == "100000"
  {
    FixedSnoc(1, 1, "");
    FixedSnoc(10, 2, "1");
    FixedSnoc(100, 3, "10");
    FixedSnoc(1000, 4, "100");
    FixedSnoc(10000, 5, "1000");
    FixedSnoc(100000, 6, "10000");
  }

  lemma TwoAndZeros()
    ensures FixedDigits(200000, 6) == "200000"
  {
    FixedSnoc(2, 1, "");
    FixedSnoc(20, 2, "2");
    FixedSnoc(200, 3, "20");
    FixedSnoc(2000, 4, "200");
    FixedSnoc(20000, 5, "2000");
    FixedSnoc(200000, 6, "20000");
  }

  lemma FixedSnoc(n: nat, k: nat, s: string)
    requires k >= 1 && FixedDigits(n / 10, k - 1) == s
    ensures FixedDigits(n, k) == s + [DigitChar(n % 10)]
  {
  }

  lemma AllZerosStripped()
    ensures StripZeros("00000") == ""
  {
    StripSnoc("");
    assert "" + "0" == "0";
    StripSnoc("0");
    assert "0" + "0" == "00";
    StripSnoc("00");
    assert "00" + "0" == "000";
    StripSnoc("000");
    assert "000" + "0" == "0000";
    StripSnoc("0000");
    assert "0000" + "0" == "00000";
  }

  lemma StripSnoc(s: string)
    requires StripZeros(s) == ""
    ensures StripZeros(s + "0") == ""
  {
    assert (s + "0")[..|s|] == s;
  }
}
