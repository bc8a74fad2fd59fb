/** The lexer of app.py:16-123: a single pass over the text that keeps the
    index, line and column and appends tokens, ending with one EOF token. */
module Lexer {
  import opened Syntax
  import opened Decimal

  predicate IsBlank(c: char) {
    c == ' ' || c == '\t' || c == '\r'
  }

  predicate IsAlpha(c: char) {
    'a' <= c <= 'z' || 'A' <= c <= 'Z'
  }

  predicate IsWordChar(c: char) {
    IsAlpha(c) || IsDigit(c) || c == '_'
  }

  predicate IsPunct(c: char) {
    c == '[' || c == ']' || c == '{' || c == '}' || c == '@' || c == ';'
  }

  function PunctKind(c: char): Kind
    requires IsPunct(c)
  {
    match c
    case '[' => LBracket
    case ']' => RBracket
    case '{' => LBrace
    case '}' => RBrace
    case '@' => At
    case ';' => Semicolon
  }

  /** The kind of a word: the two reserved words, or an identifier. */
  function WordKind(w: string): (k: Kind)
    ensures k == Begin <==> w == "begin"
    ensures k == End <==> w == "end"
    ensures k == Ident <==> w != "begin" && w != "end"
  {
    if w == "begin" then Begin else if w == "end" then End else Ident
  }

  // ----- NUMBER_RE = -?(?:\d+(?:\.\d*)?|\.\d+)(?:[eE][-+]?\d+)? -----

  /** What the pattern accepts as a whole, written as a grammar. */
  predicate IsNumberLiteral(s: string) {
    var t := if |s| > 0 && s[0] == '-' then s[1..] else s;
    exists k :: 0 <= k <= |t| && IsMantissa(t[..k]) && IsExponentPart(t[k..])
  }

  predicate IsMantissa(m: string) {
    (exists p :: 0 < p <= |m| && AllDigits(m[..p]) &&
                 (p == |m| || (m[p] == '.' && AllDigits(m[p + 1..])))) ||
    (|m| >= 2 && m[0] == '.' && AllDigits(m[1..]))
  }

  predicate IsExponentPart(x: string) {
    x == [] ||
    (|x| >= 2 && (x[0] == 'e' || x[0] == 'E') &&
     var d := if x[1] == '+' || x[1] == '-' then x[2..] else x[1..];
     |d| >= 1 && AllDigits(d))
  }

  /** End of the run of digits that starts at j. */
  function DigitsEnd(text: string, j: nat): (k: nat)
    requires j <= |text|
    ensures j <= k <= |text|
    ensures forall m :: j <= m < k ==> IsDigit(text[m])
    ensures k < |text| ==> !IsDigit(text[k])
    decreases |text| - j
  {
    if j < |text| && IsDigit(text[j]) then DigitsEnd(text, j + 1) else j
  }

  /** End of the optional exponent `[eE][-+]?\d+` that may start at m. */
  function ExponentEnd(text: string, m: nat): (r: nat)
    requires m <= |text|
    ensures m <= r <= |text|
  {
    if m < |text| && (text[m] == 'e' || text[m] == 'E') then
      var s := if m + 1 < |text| && (text[m + 1] == '+' || text[m + 1] == '-') then m + 2 else m + 1;
      if s < |text| && IsDigit(text[s]) then DigitsEnd(text, s) else m
    else
      m
  }

  /** End of the mantissa `\d+(?:\.\d*)?|\.\d+` that may start at j. */
  function MantissaEnd(text: string, j: nat): (r: Option<nat>)
    requires j <= |text|
    ensures r.Some? ==> j < r.value <= |text|
  {
    if j < |text| && IsDigit(text[j]) then
      var k := DigitsEnd(text, j);
      Some(if k < |text| && text[k] == '.' then DigitsEnd(text, k + 1) else k)
    else if j + 1 < |text| && text[j] == '.' && IsDigit(text[j + 1]) then
      Some(DigitsEnd(text, j + 1))
    else
      None
  }

  /** `NUMBER_RE.match(text, i)`: the end of the match, if any. The
      backtracking matcher takes the greedy path here, because every
      optional part either matches in full or is skipped. */
  function NumberEnd(text: string, i: nat): (r: Option<nat>)
    requires i <= |text|
    ensures r.Some? ==> i < r.value <= |text|
  {
    var j := if i < |text| && text[i] == '-' then i + 1 else i;
    match MantissaEnd(text, j)
    case Some(m) => Some(ExponentEnd(text, m))
    case None => None
  }

  /** Index of the newline that ends a comment (or the end of the text). */
  function CommentEnd(text: string, j: nat): (k: nat)
    requires j <= |text|
    ensures j <= k <= |text|
    decreases |text| - j
  {
    if j < |text| && text[j] != '\n' then CommentEnd(text, j + 1) else j
  }

  /** End of the identifier characters that start at j. */
  function WordEnd(text: string, j: nat): (k: nat)
    requires j <= |text|
    ensures j <= k <= |text|
    ensures forall m :: j <= m < k ==> IsWordChar(text[m])
    decreases |text| - j
  {
    if j < |text| && IsWordChar(text[j]) then WordEnd(text, j + 1) else j
  }

  predicate IsIdentifier(w: string) {
    |w| >= 1 && (IsAlpha(w[0]) || w[0] == '_') &&
    forall k :: 0 <= k < |w| ==> IsWordChar(w[k])
  }

  /** The lexeme of every token agrees with its kind. */
  predicate WellFormed(t: Token) {
    match t.kind
    case Assign => t.lexeme == ":="
    case Arrow => t.lexeme == "->"
    case LBracket => t.lexeme == "["
    case RBracket => t.lexeme == "]"
    case LBrace => t.lexeme == "{"
    case RBrace => t.lexeme == "}"
    case At => t.lexeme == "@"
    case Semicolon => t.lexeme == ";"
    case Plus => t.lexeme == "+"
    case Minus => t.lexeme == "-"
    case Number => IsNumberLiteral(t.lexeme)
    case Ident => IsIdentifier(t.lexeme) && t.lexeme != "begin" && t.lexeme != "end"
    case Begin => t.lexeme == "begin"
    case End => t.lexeme == "end"
    case Eof => t.lexeme == ""
  }

  /** What one turn of the lexer loop does at index i. */
  datatype Step =
    | Skip(next: nat, line: nat, col: nat)
    | Emit(tok: Token, next: nat, line: nat, col: nat)
    | Fail(error: Error)

  function LexStep(text: string, i: nat, line: nat, col: nat): (s: Step)
    requires i < |text|
    ensures !s.Fail? ==> i < s.next <= |text|
    ensures s.Emit? ==> s.tok.kind != Eof && s.tok.line == line && s.tok.col == col
  {
    var ch := text[i];
    if IsBlank(ch) then Skip(i + 1, line, col + 1)
    else if ch == '\n' then Skip(i + 1, line + 1, 1)
    else if ch == '#' then
      var j := CommentEnd(text, i + 1);
      Skip(j, line, col + (j - i))
    else if ch == ':' && i + 1 < |text| && text[i + 1] == '=' then
      Emit(Token(Assign, ":=", line, col), i + 2, line, col + 2)
    else if ch == '-' && i + 1 < |text| && text[i + 1] == '>' then
      Emit(Token(Arrow, "->", line, col), i + 2, line, col + 2)
    else if IsPunct(ch) then
      Emit(Token(PunctKind(ch), [ch], line, col), i + 1, line, col + 1)
    else if ch == '+' then
      Emit(Token(Plus, "+", line, col), i + 1, line, col + 1)
    else if ch == '-' then
      match NumberEnd(text, i)
      case Some(e) => Emit(Token(Number, text[i..e], line, col), e, line, col + (e - i))
      case None => Emit(Token(Minus, "-", line, col), i + 1, line, col + 1)
    else if IsDigit(ch) || ch == '.' then
      match NumberEnd(text, i)
      case Some(e) => Emit(Token(Number, text[i..e], line, col), e, line, col + (e - i))
      case None => Fail(MalformedNumber(line, col))
    else if IsAlpha(ch) || ch == '_' then
      var e := WordEnd(text, i);
      Emit(Token(WordKind(text[i..e]), text[i..e], line, col), e, line, col + (e - i))
    else
      Fail(UnexpectedChar(ch, line, col))
  }

  function Cons(t: Token, rest: Result<seq<Token>>): Result<seq<Token>> {
    match rest
    case Ok(ts) => Ok([t] + ts)
    case Err(e) => Err(e)
  }

  function Prepend(ts: seq<Token>, rest: Result<seq<Token>>): Result<seq<Token>> {
    match rest
    case Ok(us) => Ok(ts + us)
    case Err(e) => Err(e)
  }

  /** The tokens of text[i..], given the line and column at i. */
  function LexFrom(text: string, i: nat, line: nat, col: nat): Result<seq<Token>>
    requires i <= |text|
    decreases |text| - i
  {
    if i == |text| then
      Ok([Token(Eof, "", line, col)])
    else
      match LexStep(text, i, line, col)
      case Skip(j, l, c) => LexFrom(text, j, l, c)
      case Emit(t, j, l, c) => Cons(t, LexFrom(text, j, l, c))
      case Fail(e) => Err(e)
  }

  predicate EofTerminated(ts: seq<Token>) {
    |ts| >= 1 && ts[|ts| - 1].kind == Eof &&
    forall k :: 0 <= k < |ts| - 1 ==> ts[k].kind != Eof
  }

  lemma PrependCons(ts: seq<Token>, t: Token, rest: Result<seq<Token>>)
    ensures Prepend(ts, Cons(t, rest)) == Prepend(ts + [t], rest)
  {
    if rest.Ok? {
      assert ts + ([t] + rest.value) == (ts + [t]) + rest.value;
    }
  }

  lemma PrependNil(rest: Result<seq<Token>>)
    ensures Prepend([], rest) == rest
  {
    if rest.Ok? {
      assert [] + rest.value == rest.value;
    }
  }

  /** One turn of the loop of `lex`: skips blanks, a newline or a comment,
      or scans one token, or fails. */
  method Scan(text: string, i: nat, line: nat, col: nat) returns (s: Step)
    requires i < |text|
    ensures s == LexStep(text, i, line, col)
  {
    var n := |text|;
    var ch := text[i];
    if IsBlank(ch) {
      return Skip(i + 1, line, col + 1);
    }
    if ch == '\n' {
      return Skip(i + 1, line + 1, 1);
    }
    if ch == '#' {
      var j, c := i, col;
      while j < n && text[j] != '\n'
        invariant i <= j <= n
        invariant c == col + (j - i)
        invariant j > i ==> CommentEnd(text, i + 1) == CommentEnd(text, j)
        decreases n - j
      {
        j, c := j + 1, c + 1;
      }
      return Skip(j, line, c);
    }
    if ch == ':' && i + 1 < n && text[i + 1] == '=' {
      return Emit(Token(Assign, ":=", line, col), i + 2, line, col + 2);
    }
    if ch == '-' && i + 1 < n && text[i + 1] == '>' {
      return Emit(Token(Arrow, "->", line, col), i + 2, line, col + 2);
    }
    if IsPunct(ch) {
      return Emit(Token(PunctKind(ch), [ch], line, col), i + 1, line, col + 1);
    }
    if ch == '+' {
      return Emit(Token(Plus, "+", line, col), i + 1, line, col + 1);
    }
    if ch == '-' {
      var m := NumberEnd(text, i);
      if m.Some? {
        var lexeme := text[i..m.value];
        return Emit(Token(Number, lexeme, line, col), i + |lexeme|, line, col + |lexeme|);
      }
      return Emit(Token(Minus, "-", line, col), i + 1, line, col + 1);
    }
    if IsDigit(ch) || ch == '.' {
      var m := NumberEnd(text, i);
      if m.None? {
        return Fail(MalformedNumber(line, col));
      }
      var lexeme := text[i..m.value];
      return Emit(Token(Number, lexeme, line, col), i + |lexeme|, line, col + |lexeme|);
    }
    if IsAlpha(ch) || ch == '_' {
      var j, c := i, col;
      while j < n && (IsAlpha(text[j]) || IsDigit(text[j]) || text[j] == '_')
        invariant i <= j <= n
        invariant c == col + (j - i)
        invariant WordEnd(text, i) == WordEnd(text, j)
        decreases n - j
      {
        j, c := j + 1, c + 1;
      }
      var word := text[i..j];
      return Emit(Token(WordKind(word), word, line, col), j, line, c);
    }
    return Fail(UnexpectedChar(ch, line, col));
  }

  /** `lex(text)`: the token list, ending with the EOF token. */
  method Lex(text: string) returns (r: Result<seq<Token>>)
    ensures r == LexFrom(text, 0, 1, 1)
    ensures r.Ok? ==> EofTerminated(r.value)
  {
    var toks: seq<Token> := [];
    var line: nat, col: nat, i: nat := 1, 1, 0;
    PrependNil(LexFrom(text, 0, 1, 1));
    while i < |text|
      invariant i <= |text|
      invariant LexFrom(text, 0, 1, 1) == Prepend(toks, LexFrom(text, i, line, col))
      decreases |text| - i
    {
      var s := Scan(text, i, line, col);
      match s
      case Skip(j, l, c) =>
        i, line, col := j, l, c;
      case Emit(t, j, l, c) =>
        PrependCons(toks, t, LexFrom(text, j, l, c));
        toks := toks + [t];
        i, line, col := j, l, c;
      case Fail(e) =>
        return Err(e);
    }
    r := Ok(toks + [Token(Eof, "", line, col)]);
    LexEofTerminated(text, 0, 1, 1);
  }

  /** Every successful run ends with exactly one EOF token. */
  lemma {:induction false} LexEofTerminated(text: string, i: nat, line: nat, col: nat)
    requires i <= |text|
    ensures LexFrom(text, i, line, col).Ok? ==> EofTerminated(LexFrom(text, i, line, col).value)
    decreases |text| - i
  {
    if i < |text| {
      match LexStep(text, i, line, col)
      case Skip(j, l, c) =>
        LexEofTerminated(text, j, l, c);
      case Emit(t, j, l, c) =>
        LexEofTerminated(text, j, l, c);
        var rest := LexFrom(text, j, l, c);
        if rest.Ok? {
          var ts := [t] + rest.value;
          assert forall k :: 1 <= k < |ts| ==> ts[k] == rest.value[k - 1];
        }
      case Fail(_) =>
    }
  }
}
