/** What the lexer of app.py:16-123 guarantees about its tokens. */
module LexerProps {
  import opened Syntax
  import opened Decimal
  import opened Lexer

  // ----- the hand-written number scanner agrees with the pattern -----

  lemma DigitsSlice(text: string, j: nat)
    requires j <= |text|
    ensures AllDigits(text[j..DigitsEnd(text, j)])
  {
  }

  lemma MantissaEndSound(text: string, j: nat)
    requires j <= |text| && MantissaEnd(text, j).Some?
    ensures IsMantissa(text[j..MantissaEnd(text, j).value])
  {
    var m := MantissaEnd(text, j).value;
    var mant := text[j..m];
    if IsDigit(text[j]) {
      var k := DigitsEnd(text, j);
      var p := k - j;
      assert mant[..p] == text[j..k];
      DigitsSlice(text, j);
      if k < |text| && text[k] == '.' {
        assert mant[p] == '.';
        assert mant[p + 1..] == text[k + 1..m];
        DigitsSlice(text, k + 1);
      }
      assert 0 < p <= |mant| && AllDigits(mant[..p]) &&
             (p == |mant| || (mant[p] == '.' && AllDigits(mant[p + 1..])));
    } else {
      assert mant[1..] == text[j + 1..m];
      DigitsSlice(text, j + 1);
    }
  }

  lemma ExponentEndSound(text: string, m: nat)
    requires m <= |text|
    ensures IsExponentPart(text[m..ExponentEnd(text, m)])
  {
    var x := ExponentEnd(text, m);
    if x > m {
      var s := if m + 1 < |text| && (text[m + 1] == '+' || text[m + 1] == '-') then m + 2 else m + 1;
      var part := text[m..x];
      assert part[s - m..] == text[s..x];
      DigitsSlice(text, s);
    } else {
      assert text[m..x] == [];
    }
  }

  /** A match of the scanner is a literal of the number pattern. */
  lemma NumberEndSound(text: string, i: nat)
    requires i <= |text| && NumberEnd(text, i).Some?
    ensures IsNumberLiteral(text[i..NumberEnd(text, i).value])
  {
    var j := if i < |text| && text[i] == '-' then i + 1 else i;
    var m := MantissaEnd(text, j).value;
    MantissaEndSound(text, j);
    ExponentEndSound(text, m);
    LiteralOf(text, i, j, m, ExponentEnd(text, m));
  }

  /** An optional sign, a mantissa and an exponent part make a literal. */
  lemma LiteralOf(text: string, i: nat, j: nat, m: nat, e: nat)
    requires i <= j < m <= e <= |text|
    requires (j == i + 1 && text[i] == '-') || (j == i && text[i] != '-')
    requires IsMantissa(text[j..m]) && IsExponentPart(text[m..e])
    ensures IsNumberLiteral(text[i..e])
  {
    SignSplit(text, i, j, e);
    MantissaThenExponent(text, j, m, e);
    LiteralWitness(text[i..e], text[j..e], m - j, text[j..m], text[m..e]);
  }

  lemma SignSplit(text: string, i: nat, j: nat, e: nat)
    requires i <= j < e <= |text|
    requires (j == i + 1 && text[i] == '-') || (j == i && text[i] != '-')
    ensures var s := text[i..e];
      text[j..e] == if |s| > 0 && s[0] == '-' then s[1..] else s
  {
    var s := text[i..e];
    assert s[0] == text[i];
    if j == i + 1 {
      assert s[1..] == text[j..e];
    }
  }

  lemma MantissaThenExponent(text: string, j: nat, m: nat, e: nat)
    requires j <= m <= e <= |text|
    ensures text[j..e][..m - j] == text[j..m] && text[j..e][m - j..] == text[m..e]
  {
  }

  lemma LiteralWitness(s: string, t: string, k: nat, mant: string, x: string)
    requires t == if |s| > 0 && s[0] == '-' then s[1..] else s
    requires k <= |t| && t[..k] == mant && t[k..] == x
    requires IsMantissa(mant) && IsExponentPart(x)
    ensures IsNumberLiteral(s)
  {
  }

  /** A run of digits reaches at least as far as any stretch of digits
      that starts where it does, and stops exactly where the stretch
      stops when the next character is not a digit. */
  lemma DigitsReach(text: string, j: nat, m: nat)
    requires j <= m <= |text|
    requires forall q :: j <= q < m ==> IsDigit(text[q])
    ensures m <= DigitsEnd(text, j)
    ensures (m == |text| || !IsDigit(text[m])) ==> DigitsEnd(text, j) == m
  {
  }

  /** The scanner's mantissa reaches at least as far as any mantissa that
      starts at j, and ends exactly where it ends when the next character
      can neither extend the digits nor start a fraction. */
  lemma MantissaLongest(text: string, j: nat, m: nat)
    requires j <= m <= |text| && IsMantissa(text[j..m])
    ensures MantissaEnd(text, j).Some? && m <= MantissaEnd(text, j).value
    ensures m < |text| && !IsDigit(text[m]) && text[m] != '.' ==> MantissaEnd(text, j).value == m
  {
    var mant := text[j..m];
    if p :| 0 < p <= |mant| && AllDigits(mant[..p]) &&
            (p == |mant| || (mant[p] == '.' && AllDigits(mant[p + 1..]))) {
      IntegerMantissa(text, j, m, p);
    } else {
      FractionMantissa(text, j, m);
    }
  }

  /** The first form of a mantissa: digits, then maybe a dot and digits. */
  lemma IntegerMantissa(text: string, j: nat, m: nat, p: nat)
    requires j <= m <= |text|
    requires var mant := text[j..m];
      0 < p <= |mant| && AllDigits(mant[..p]) &&
      (p == |mant| || (mant[p] == '.' && AllDigits(mant[p + 1..])))
    ensures MantissaEnd(text, j).Some? && m <= MantissaEnd(text, j).value
    ensures m < |text| && !IsDigit(text[m]) && text[m] != '.' ==> MantissaEnd(text, j).value == m
  {
    var mant := text[j..m];
    assert forall q :: j <= q < j + p ==> text[q] == mant[..p][q - j];
    DigitsReach(text, j, j + p);
    if p == |mant| {
      DigitsReach(text, j, m);
    } else {
      assert text[j + p] == mant[p];
      assert forall q :: j + p + 1 <= q < m ==> text[q] == mant[p + 1..][q - (j + p + 1)];
      DigitsReach(text, j + p + 1, m);
    }
  }

  /** The second form of a mantissa: a dot and at least one digit. */
  lemma FractionMantissa(text: string, j: nat, m: nat)
    requires j <= m <= |text|
    requires var mant := text[j..m]; |mant| >= 2 && mant[0] == '.' && AllDigits(mant[1..])
    ensures MantissaEnd(text, j).Some? && m <= MantissaEnd(text, j).value
    ensures m < |text| && !IsDigit(text[m]) && text[m] != '.' ==> MantissaEnd(text, j).value == m
  {
    var mant := text[j..m];
    assert text[j] == mant[0] && text[j + 1] == mant[1..][0];
    assert forall q :: j + 1 <= q < m ==> text[q] == mant[1..][q - (j + 1)];
    DigitsReach(text, j + 1, m);
  }

  /** The scanner's exponent reaches at least as far as any exponent part
      that starts at m. */
  lemma ExponentLongest(text: string, m: nat, e: nat)
    requires m <= e <= |text| && IsExponentPart(text[m..e])
    ensures e <= ExponentEnd(text, m)
  {
    var x := text[m..e];
    if x != [] {
      assert x[0] == text[m] && x[1] == text[m + 1];
      var s := if text[m + 1] == '+' || text[m + 1] == '-' then m + 2 else m + 1;
      var d := x[s - m..];
      assert d == text[s..e];
      ExponentDigits(text, s, e, d);
    }
  }

  lemma ExponentDigits(text: string, s: nat, e: nat, d: string)
    requires s < e <= |text| && d == text[s..e] && AllDigits(d)
    ensures IsDigit(text[s]) && e <= DigitsEnd(text, s)
  {
    assert forall q :: s <= q < e ==> text[q] == d[q - s];
    DigitsReach(text, s, e);
  }

  /** A literal that starts at i splits into its sign, a mantissa
      text[j..m] and an exponent part text[m..e]. */
  lemma LiteralParts(text: string, i: nat, e: nat) returns (j: nat, m: nat)
    requires i < e <= |text| && IsNumberLiteral(text[i..e])
    ensures j == if text[i] == '-' then i + 1 else i
    ensures j <= m <= e && IsMantissa(text[j..m]) && IsExponentPart(text[m..e])
  {
    var s := text[i..e];
    var t := if |s| > 0 && s[0] == '-' then s[1..] else s;
    j := if text[i] == '-' then i + 1 else i;
    assert s[0] == text[i];
    assert t == text[j..e];
    var k :| 0 <= k <= |t| && IsMantissa(t[..k]) && IsExponentPart(t[k..]);
    m := j + k;
    assert t[..k] == text[j..m] && t[k..] == text[m..e];
  }

  /** The scanner takes the longest literal of the number pattern that
      starts at i, as the backtracking `NUMBER_RE.match` does: whenever
      some literal starts there, the scanner finds a number at least as
      long. */
  lemma NumberEndLongest(text: string, i: nat, e: nat)
    requires i < e <= |text| && IsNumberLiteral(text[i..e])
    ensures NumberEnd(text, i).Some? && e <= NumberEnd(text, i).value
  {
    var j, m := LiteralParts(text, i, e);
    MantissaLongest(text, j, m);
    ExponentLongest(text, m, e);
    if m < e {
      assert text[m..e][0] == text[m];
    }
  }

  /** No literal of the pattern that starts at i is longer than the
      scanner's match, and none starts there when the scanner finds no
      match. */
  lemma NothingLonger(text: string, i: nat)
    requires i <= |text|
    ensures NumberEnd(text, i).Some? ==>
      forall e :: NumberEnd(text, i).value < e <= |text| ==> !IsNumberLiteral(text[i..e])
    ensures NumberEnd(text, i).None? ==>
      forall e :: i < e <= |text| ==> !IsNumberLiteral(text[i..e])
  {
    forall e | i < e <= |text| && IsNumberLiteral(text[i..e])
      ensures NumberEnd(text, i).Some? && e <= NumberEnd(text, i).value
    {
      NumberEndLongest(text, i, e);
    }
  }

  // ----- token-level facts -----

  /** `-` followed by `>` is the arrow; otherwise a `-` starts one number
      token holding the whole (longest) match of the pattern when the
      pattern matches there, and is the minus operator when it does not. */
  lemma DashToken(text: string, i: nat, line: nat, col: nat)
    requires i < |text| && text[i] == '-'
    ensures i + 1 < |text| && text[i + 1] == '>' ==>
      LexStep(text, i, line, col) == Emit(Token(Arrow, "->", line, col), i + 2, line, col + 2)
    ensures !(i + 1 < |text| && text[i + 1] == '>') && NumberEnd(text, i).Some? ==>
      var e := NumberEnd(text, i).value;
      LexStep(text, i, line, col) == Emit(Token(Number, text[i..e], line, col), e, line, col + (e - i)) &&
      IsNumberLiteral(text[i..e]) &&
      forall e' :: e < e' <= |text| ==> !IsNumberLiteral(text[i..e'])
    ensures !(i + 1 < |text| && text[i + 1] == '>') && NumberEnd(text, i).None? ==>
      LexStep(text, i, line, col) == Emit(Token(Minus, "-", line, col), i + 1, line, col + 1) &&
      forall e :: i < e <= |text| ==> !IsNumberLiteral(text[i..e])
  {
    NothingLonger(text, i);
    if NumberEnd(text, i).Some? {
      NumberEndSound(text, i);
    }
  }

  /** A digit or a dot starts one number token holding the longest match
      of the pattern, and is a malformed-number error when the pattern
      does not match there. */
  lemma DigitToken(text: string, i: nat, line: nat, col: nat)
    requires i < |text| && (IsDigit(text[i]) || text[i] == '.')
    ensures NumberEnd(text, i).Some? ==>
      var e := NumberEnd(text, i).value;
      LexStep(text, i, line, col) == Emit(Token(Number, text[i..e], line, col), e, line, col + (e - i)) &&
      IsNumberLiteral(text[i..e]) &&
      forall e' :: e < e' <= |text| ==> !IsNumberLiteral(text[i..e'])
    ensures NumberEnd(text, i).None? ==>
      LexStep(text, i, line, col) == Fail(MalformedNumber(line, col)) &&
      forall e :: i < e <= |text| ==> !IsNumberLiteral(text[i..e])
  {
    NothingLonger(text, i);
    if NumberEnd(text, i).Some? {
      NumberEndSound(text, i);
    }
  }

  /** The characters that have a rule of their own (`:` only starts `:=`). */
  predicate Recognised(c: char) {
    IsBlank(c) || c == '\n' || c == '#' || c == '-' || IsPunct(c) ||
    c == '+' || IsDigit(c) || c == '.' || IsAlpha(c) || c == '_'
  }

  /** `:` followed by `=`, the only use of `:`. */
  predicate StartsAssign(text: string, k: nat) {
    k + 1 < |text| && text[k] == ':' && text[k + 1] == '='
  }

  /** A character with no rule of its own, and not the `:` of `:=`, is the
      unexpected-character error at the line and column where it stands:
      the step fails there, and so does the rest of the run. */
  lemma UnrecognisedFails(text: string, i: nat, line: nat, col: nat)
    requires i < |text| && !Recognised(text[i]) && !StartsAssign(text, i)
    ensures LexStep(text, i, line, col) == Fail(UnexpectedChar(text[i], line, col))
    ensures LexFrom(text, i, line, col) == Err(UnexpectedChar(text[i], line, col))
  {
  }

  // ----- where each index of the text lies -----

  /** A line and a column, both counted from 1. */
  datatype Place = Place(line: nat, col: nat)

  /** The line and column of index k: one line further for every newline
      before k, and the column counted from the last of them. */
  function PlaceAt(text: string, k: nat): Place
    requires k <= |text|
  {
    if k == 0 then Place(1, 1)
    else
      var p := PlaceAt(text, k - 1);
      if text[k - 1] == '\n' then Place(p.line + 1, 1) else Place(p.line, p.col + 1)
  }

  /** Over a stretch without a newline the column grows by its length. */
  lemma {:induction false} SameLine(text: string, i: nat, j: nat)
    requires i <= j <= |text|
    requires forall m :: i <= m < j ==> text[m] != '\n'
    ensures PlaceAt(text, j) == Place(PlaceAt(text, i).line, PlaceAt(text, i).col + (j - i))
    decreases j
  {
    if i < j {
      SameLine(text, i, j - 1);
    }
  }

  /** A number literal lies on one line. */
  lemma NumberOnOneLine(text: string, i: nat)
    requires i <= |text| && NumberEnd(text, i).Some?
    ensures forall m :: i <= m < NumberEnd(text, i).value ==> text[m] != '\n'
  {
    var j := if i < |text| && text[i] == '-' then i + 1 else i;
    MantissaOnOneLine(text, j);
    ExponentOnOneLine(text, MantissaEnd(text, j).value);
  }

  lemma MantissaOnOneLine(text: string, j: nat)
    requires j <= |text| && MantissaEnd(text, j).Some?
    ensures forall m :: j <= m < MantissaEnd(text, j).value ==> text[m] != '\n'
  {
    if j < |text| && IsDigit(text[j]) {
      var d := DigitsEnd(text, j);
      if d < |text| && text[d] == '.' {
        var d' := DigitsEnd(text, d + 1);
      }
    } else {
      var d := DigitsEnd(text, j + 1);
    }
  }

  lemma ExponentOnOneLine(text: string, k: nat)
    requires k <= |text|
    ensures forall m :: k <= m < ExponentEnd(text, k) ==> text[m] != '\n'
  {
    if k < |text| && (text[k] == 'e' || text[k] == 'E') {
      var s := if k + 1 < |text| && (text[k + 1] == '+' || text[k + 1] == '-') then k + 2 else k + 1;
      if s < |text| && IsDigit(text[s]) {
        var d := DigitsEnd(text, s);
      }
    }
  }

  /** A comment runs up to the newline that ends it, not past it. */
  lemma {:induction false} CommentOnOneLine(text: string, j: nat)
    requires j <= |text|
    ensures forall m :: j <= m < CommentEnd(text, j) ==> text[m] != '\n'
    decreases |text| - j
  {
    if j < |text| && text[j] != '\n' {
      CommentOnOneLine(text, j + 1);
    }
  }

  /** Every step other than a newline stays on its line: no newline lies
      between its index and the next. */
  lemma StepOnOneLine(text: string, i: nat, line: nat, col: nat)
    requires i < |text| && text[i] != '\n' && !LexStep(text, i, line, col).Fail?
    ensures forall m :: i <= m < LexStep(text, i, line, col).next ==> text[m] != '\n'
  {
    var ch := text[i];
    if ch == '#' {
      CommentOnOneLine(text, i + 1);
    } else if (ch == '-' || IsDigit(ch) || ch == '.') && NumberEnd(text, i).Some? {
      NumberOnOneLine(text, i);
    }
  }

  /** The place a step ends at: a newline starts the next line; any other
      step moves along its line by the length it covers. */
  lemma StepMoves(text: string, i: nat, line: nat, col: nat)
    requires i < |text| && !LexStep(text, i, line, col).Fail?
    ensures var s := LexStep(text, i, line, col);
      (text[i] == '\n' ==> s.next == i + 1 && s.line == line + 1 && s.col == 1) &&
      (text[i] != '\n' ==> s.line == line && s.col == col + (s.next - i))
  {
  }

  /** The lexer keeps the line and column of its index: a step that starts
      at the place of i ends at the place of the index it moves to. */
  lemma StepPlace(text: string, i: nat, line: nat, col: nat)
    requires i < |text| && Place(line, col) == PlaceAt(text, i)
    requires !LexStep(text, i, line, col).Fail?
    ensures Place(LexStep(text, i, line, col).line, LexStep(text, i, line, col).col) ==
            PlaceAt(text, LexStep(text, i, line, col).next)
  {
    StepMoves(text, i, line, col);
    if text[i] != '\n' {
      StepOnOneLine(text, i, line, col);
      SameLine(text, i, LexStep(text, i, line, col).next);
    }
  }

  /** A lex error is a malformed number or a character of the text that
      has no rule of its own, and no other error comes out of the lexer.
      Each names the index k where it arises; when the run starts at the
      place of its first index, the error carries the line and column of
      k. */
  lemma {:induction false} LexErrors(text: string, i: nat, line: nat, col: nat)
    requires i <= |text|
    ensures LexFrom(text, i, line, col).Err? ==>
      match LexFrom(text, i, line, col).error
      case UnexpectedChar(c, l, cl) =>
        exists k :: i <= k < |text| && text[k] == c && !Recognised(c) && !StartsAssign(text, k) &&
          (Place(line, col) == PlaceAt(text, i) ==> Place(l, cl) == PlaceAt(text, k))
      case MalformedNumber(l, cl) =>
        exists k :: i <= k < |text| && (IsDigit(text[k]) || text[k] == '.') && NumberEnd(text, k).None? &&
          (Place(line, col) == PlaceAt(text, i) ==> Place(l, cl) == PlaceAt(text, k))
      case _ => false
    decreases |text| - i
  {
    if i < |text| {
      if Place(line, col) == PlaceAt(text, i) && !LexStep(text, i, line, col).Fail? {
        StepPlace(text, i, line, col);
      }
      match LexStep(text, i, line, col)
      case Skip(j, l, c) =>
        LexErrors(text, j, l, c);
      case Emit(t, j, l, c) =>
        LexErrors(text, j, l, c);
      case Fail(_) =>
    }
  }

  /** For `lex` itself, which starts at line 1, column 1: the error of a
      failed run carries the line and column of the index it arises at. */
  lemma LexErrorPlace(text: string)
    ensures LexFrom(text, 0, 1, 1).Err? ==>
      match LexFrom(text, 0, 1, 1).error
      case UnexpectedChar(c, l, cl) =>
        exists k :: 0 <= k < |text| && text[k] == c && !Recognised(c) && !StartsAssign(text, k) &&
          Place(l, cl) == PlaceAt(text, k)
      case MalformedNumber(l, cl) =>
        exists k :: 0 <= k < |text| && (IsDigit(text[k]) || text[k] == '.') && NumberEnd(text, k).None? &&
          Place(l, cl) == PlaceAt(text, k)
      case _ => false
  {
    LexErrors(text, 0, 1, 1);
  }

  lemma WordIsIdentifier(text: string, i: nat)
    requires i < |text| && (IsAlpha(text[i]) || text[i] == '_')
    ensures IsIdentifier(text[i..WordEnd(text, i)])
  {
    var w := text[i..WordEnd(text, i)];
    assert w[0] == text[i];
  }

  /** Every token the lexer emits at i is well formed. */
  lemma StepWellFormed(text: string, i: nat, line: nat, col: nat)
    requires i < |text| && LexStep(text, i, line, col).Emit?
    ensures WellFormed(LexStep(text, i, line, col).tok)
  {
    var ch := text[i];
    if ch == '-' || IsDigit(ch) || ch == '.' {
      if NumberEnd(text, i).Some? {
        NumberEndSound(text, i);
      }
    } else if IsAlpha(ch) || ch == '_' {
      WordIsIdentifier(text, i);
    }
  }

  /** Every token of a successful run agrees with its kind: numbers match
      the number pattern, identifiers are words other than `begin` and
      `end`, and punctuation carries its own character. */
  lemma {:induction false} LexWellFormed(text: string, i: nat, line: nat, col: nat)
    requires i <= |text|
    ensures LexFrom(text, i, line, col).Ok? ==>
      forall k :: 0 <= k < |LexFrom(text, i, line, col).value| ==> WellFormed(LexFrom(text, i, line, col).value[k])
    decreases |text| - i
  {
    if i < |text| {
      match LexStep(text, i, line, col)
      case Skip(j, l, c) =>
        LexWellFormed(text, j, l, c);
      case Emit(t, j, l, c) =>
        LexWellFormed(text, j, l, c);
        StepWellFormed(text, i, line, col);
        var rest := LexFrom(text, j, l, c);
        if rest.Ok? {
          var ts := [t] + rest.value;
          assert forall k :: 1 <= k < |ts| ==> ts[k] == rest.value[k - 1];
        }
      case Fail(_) =>
    }
  }
}
