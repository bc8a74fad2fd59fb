/** Shared vocabulary of the translator: tokens, values, errors and the
    result type that replaces the exceptions of app.py. */
module Syntax {

  /** Token kinds produced by the lexer (app.py:16-123). There is no kind
      for strings: the lexer has no rule that produces one. */
  datatype Kind =
    | Assign | Arrow
    | LBracket | RBracket | LBrace | RBrace | At | Semicolon
    | Plus | Minus
    | Number | Ident | Begin | End
    | Eof

  /** A token `(type, value, line, col)`. */
  datatype Token = Token(kind: Kind, lexeme: string, line: nat, col: nat)

  /** A configuration value. Python's int, float, str, bool, list and dict.
      A float is kept as the exact decimal `mant * 10^exp`. A table is an
      insertion-ordered dictionary: a sequence of entries. */
  datatype Value =
    | Int(i: int)
    | Float(mant: int, exp: int)
    | Str(s: string)
    | Bool(b: bool)
    | Arr(items: seq<Value>)
    | Table(entries: seq<Entry>)

  datatype Entry = Entry(key: string, val: Value)

  predicate IsNum(v: Value) {
    v.Int? || v.Float?
  }

  predicate AllNum(s: seq<Value>) {
    forall k :: 0 <= k < |s| ==> IsNum(s[k])
  }

  /** The keys of an ordered dictionary, in order. */
  function Keys(es: seq<Entry>): (ks: seq<string>)
    ensures |ks| == |es|
    ensures forall k :: 0 <= k < |es| ==> ks[k] == es[k].key
  {
    if es == [] then [] else [es[0].key] + Keys(es[1..])
  }

  predicate HasKey(es: seq<Entry>, key: string) {
    exists k :: 0 <= k < |es| && es[k].key == key
  }

  /** No key occurs twice. */
  predicate UniqueKeys(es: seq<Entry>) {
    forall j, k :: 0 <= j < k < |es| ==> es[j].key != es[k].key
  }

  /** The arithmetic operators of the constant-expression language. */
  datatype Op = AddOp | SubOp | MinOp

  /** One constructor per exception raised in app.py; each keeps the
      position data its message carries. */
  datatype Error =
    | MalformedNumber(line: nat, col: nat)
    | UnexpectedChar(ch: char, line: nat, col: nat)
    | Expected(kind: Kind, found: Token)
    | ValueExpected(line: nat, col: nat)
    | DuplicateConstant(name: string, line: nat, col: nat)
    | UnknownConstant(name: string, line: nat, col: nat)
    | DuplicateKey(key: string)
    | NotNumeric(op: Op, line: nat, col: nat)
    | NotAnArray(line: nat, col: nat)
    | Uncomparable(line: nat, col: nat)

  /** Fail-fast results: the first error aborts the conversion. */
  datatype Result<+T> = Ok(value: T) | Err(error: Error) {
    predicate IsFailure() {
      Err?
    }

    function PropagateFailure<U>(): Result<U>
      requires Err?
    {
      Err(error)
    }

    function Extract(): T
      requires Ok?
    {
      value
    }
  }

  datatype Option<+T> = None | Some(value: T)

  /** A parse result together with the cursor position after it. */
  datatype Parsed<+T> = Parsed(val: T, next: nat)
}
