/** The recursive-descent parser of app.py:127-302.

    The grammar is first written as pure functions over the token list, a
    constant table and a cursor; each returns the parsed thing together
    with the cursor after it, or the first error. The class `Parser` then
    holds the module state of app.py:9-12 (tokens, pos, consts, config) and
    its methods advance `pos` and fill the tables as the Python functions
    do; each method is proved to agree with its function. */
module Parser {
  import opened Syntax
  import opened Decimal
  import opened Numbers
  import opened Lexer

  /** The token list ends with the EOF sentinel, so the cursor never has
      to look past it. */
  predicate Terminated(toks: seq<Token>) {
    |toks| >= 1 && toks[|toks| - 1].kind == Eof
  }

  /** A value holds numbers, arrays and tables only, and every table key
      is an identifier: the lexer has no string or boolean literal, so the
      parser never builds one, and a dictionary key is always an `ID`
      token. */
  predicate Plain(v: Value) {
    match v
    case Int(_) => true
    case Float(_, _) => true
    case Str(_) => false
    case Bool(_) => false
    case Arr(items) => forall k :: 0 <= k < |items| ==> Plain(items[k])
    case Table(es) => forall k :: 0 <= k < |es| ==> IsIdentifier(es[k].key) && Plain(es[k].val)
  }

  predicate PlainConsts(consts: map<string, Value>) {
    forall name :: name in consts ==> Plain(consts[name])
  }

  /** The first value stored under key, as `d[key]` reads it. */
  function Lookup(es: seq<Entry>, key: string): (r: Option<Value>)
    ensures r.Some? <==> HasKey(es, key)
  {
    if es == [] then None
    else if es[0].key == key then Some(es[0].val)
    else
      var r := Lookup(es[1..], key);
      assert HasKey(es[1..], key) ==> HasKey(es, key) by {
        if HasKey(es[1..], key) {
          var k :| 0 <= k < |es[1..]| && es[1..][k].key == key;
          assert es[k + 1].key == key;
        }
      }
      r
  }

  /** `d[key] = v` on an insertion-ordered dictionary: an existing key
      keeps its place and takes the new value, a new key goes last. */
  function Upsert(es: seq<Entry>, key: string, v: Value): (r: seq<Entry>)
    ensures HasKey(es, key) ==> Keys(r) == Keys(es)
    ensures !HasKey(es, key) ==> Keys(r) == Keys(es) + [key]
  {
    if es == [] then [Entry(key, v)]
    else if es[0].key == key then [Entry(key, v)] + es[1..]
    else [es[0]] + Upsert(es[1..], key, v)
  }

  // ----- the grammar as functions -----

  /** The value of a Result without the cursor. */
  function Dropped<T>(s: Result<Parsed<T>>): Result<T> {
    match s
    case Ok(p) => Ok(p.val)
    case Err(e) => Err(e)
  }

  /** `parse_value` (app.py:197-225) at cursor p. */
  function ValueF(toks: seq<Token>, consts: map<string, Value>, p: nat): (r: Result<Parsed<Value>>)
    requires Terminated(toks) && p < |toks|
    ensures r.Ok? ==> p < r.value.next < |toks|
    decreases |toks| - p, 1
  {
    var t := toks[p];
    match t.kind
    case Number => Ok(Parsed(ParseNumber(t.lexeme), p + 1))
    case LBracket => ArrayF(toks, consts, p)
    case Begin => DictF(toks, consts, p)
    case At => ConstExprF(toks, consts, p)
    case Ident =>
      if t.lexeme in consts then Ok(Parsed(consts[t.lexeme], p + 1))
      else Err(UnknownConstant(t.lexeme, t.line, t.col))
    case _ => Err(ValueExpected(t.line, t.col))
  }

  /** `parse_array` (app.py:227-237) at cursor p. */
  function ArrayF(toks: seq<Token>, consts: map<string, Value>, p: nat): (r: Result<Parsed<Value>>)
    requires Terminated(toks) && p < |toks|
    ensures r.Ok? ==> p < r.value.next < |toks|
    decreases |toks| - p, 0
  {
    if toks[p].kind != LBracket then Err(Expected(LBracket, toks[p]))
    else if toks[p + 1].kind == RBracket then Ok(Parsed(Arr([]), p + 2))
    else
      var first :- ValueF(toks, consts, p + 1);
      ArrayRestF(toks, consts, first.next, [first.val])
  }

  /** The loop of `parse_array` after the elements `items`, with the cursor
      p just after the last of them. */
  function ArrayRestF(toks: seq<Token>, consts: map<string, Value>, p: nat, items: seq<Value>): (r: Result<Parsed<Value>>)
    requires Terminated(toks) && p < |toks|
    ensures r.Ok? ==> p < r.value.next < |toks|
    decreases |toks| - p, 0
  {
    if toks[p].kind == Semicolon then
      if toks[p + 1].kind == RBracket then Ok(Parsed(Arr(items), p + 2))
      else
        var v :- ValueF(toks, consts, p + 1);
        ArrayRestF(toks, consts, v.next, items + [v.val])
    else if toks[p].kind == RBracket then Ok(Parsed(Arr(items), p + 1))
    else Err(Expected(RBracket, toks[p]))
  }

  /** `parse_dict` (app.py:240-252) at cursor p. */
  function DictF(toks: seq<Token>, consts: map<string, Value>, p: nat): (r: Result<Parsed<Value>>)
    requires Terminated(toks) && p < |toks|
    ensures r.Ok? ==> p < r.value.next < |toks|
    decreases |toks| - p, 0
  {
    if toks[p].kind != Begin then Err(Expected(Begin, toks[p]))
    else DictRestF(toks, consts, p + 1, [])
  }

  /** The loop of `parse_dict` after the entries `d`, with the cursor p at
      the start of the next entry or at `end`. */
  function DictRestF(toks: seq<Token>, consts: map<string, Value>, p: nat, d: seq<Entry>): (r: Result<Parsed<Value>>)
    requires Terminated(toks) && p < |toks|
    ensures r.Ok? ==> p < r.value.next < |toks|
    decreases |toks| - p, 0
  {
    var t := toks[p];
    if t.kind == End then Ok(Parsed(Table(d), p + 1))
    else if t.kind != Ident then Err(Expected(Ident, t))
    else if toks[p + 1].kind != Assign then Err(Expected(Assign, toks[p + 1]))
    else
      var v :- ValueF(toks, consts, p + 2);
      if toks[v.next].kind != Semicolon then Err(Expected(Semicolon, toks[v.next]))
      else if HasKey(d, t.lexeme) then Err(DuplicateKey(t.lexeme))
      else DictRestF(toks, consts, v.next + 1, d + [Entry(t.lexeme, v.val)])
  }

  /** One entry of the loop of `parse_dict`, as DictRestF takes it. */
  lemma DictRestStep(toks: seq<Token>, consts: map<string, Value>, p: nat, d: seq<Entry>)
    requires Terminated(toks) && p < |toks| && toks[p].kind != End
    ensures toks[p].kind != Ident ==> DictRestF(toks, consts, p, d) == Err(Expected(Ident, toks[p]))
    ensures toks[p].kind == Ident && toks[p + 1].kind != Assign ==>
      DictRestF(toks, consts, p, d) == Err(Expected(Assign, toks[p + 1]))
    ensures toks[p].kind == Ident && toks[p + 1].kind == Assign ==>
      DictRestF(toks, consts, p, d) ==
        match ValueF(toks, consts, p + 2)
        case Err(e) => Err(e)
        case Ok(v) =>
          if toks[v.next].kind != Semicolon then Err(Expected(Semicolon, toks[v.next]))
          else if HasKey(d, toks[p].lexeme) then Err(DuplicateKey(toks[p].lexeme))
          else DictRestF(toks, consts, v.next + 1, d + [Entry(toks[p].lexeme, v.val)])
  {
  }

  /** `parse_constexpr` (app.py:256-261) at cursor p. */
  function ConstExprF(toks: seq<Token>, consts: map<string, Value>, p: nat): (r: Result<Parsed<Value>>)
    requires Terminated(toks) && p < |toks|
    ensures r.Ok? ==> p < r.value.next < |toks|
    decreases |toks| - p, 0
  {
    if toks[p].kind != At then Err(Expected(At, toks[p]))
    else if toks[p + 1].kind != LBrace then Err(Expected(LBrace, toks[p + 1]))
    else
      var v :- ExprF(toks, consts, p + 2);
      if toks[v.next].kind != RBrace then Err(Expected(RBrace, toks[v.next]))
      else Ok(Parsed(v.val, v.next + 1))
  }

  /** `parse_expr` (app.py:264-302) at cursor p: a prefix operator or
      function, or else a plain value. */
  function ExprF(toks: seq<Token>, consts: map<string, Value>, p: nat): (r: Result<Parsed<Value>>)
    requires Terminated(toks) && p < |toks|
    ensures r.Ok? ==> p < r.value.next < |toks|
    decreases |toks| - p, 2
  {
    var t := toks[p];
    if t.kind == Plus || t.kind == Minus then
      var a :- ExprF(toks, consts, p + 1);
      var b :- ExprF(toks, consts, a.next);
      var v :- ApplyBinary(if t.kind == Plus then AddOp else SubOp, a.val, b.val, t.line, t.col);
      Ok(Parsed(v, b.next))
    else if t.kind == Ident && t.lexeme == "min" then
      var a :- ExprF(toks, consts, p + 1);
      var b :- ExprF(toks, consts, a.next);
      MinArgsRest(toks, consts, b.next, [a.val, b.val], t.line, t.col)
    else if t.kind == Ident && t.lexeme == "sort" then
      var a :- ExprF(toks, consts, p + 1);
      var v :- ApplySort(a.val, t.line, t.col);
      Ok(Parsed(v, a.next))
    else
      ValueF(toks, consts, p)
  }

  /** The argument loop of `min` (app.py:283-288) after the arguments
      `args`; it stops in front of `}`. */
  function MinArgsRest(toks: seq<Token>, consts: map<string, Value>, p: nat, args: seq<Value>, line: nat, col: nat): (r: Result<Parsed<Value>>)
    requires Terminated(toks) && p < |toks| && |args| >= 2
    ensures r.Ok? ==> p <= r.value.next < |toks| && toks[r.value.next].kind == RBrace
    decreases |toks| - p, 3
  {
    if toks[p].kind == RBrace then
      var v :- ApplyMin(args, line, col);
      Ok(Parsed(v, p))
    else
      var x :- ExprF(toks, consts, p);
      MinArgsRest(toks, consts, x.next, args + [x.val], line, col)
  }

  /** The cursor after a run of `;` (app.py:159-160). */
  function SkipSemis(toks: seq<Token>, p: nat): (q: nat)
    requires Terminated(toks) && p < |toks|
    ensures p <= q < |toks| && toks[q].kind != Semicolon
    ensures forall k :: p <= k < q ==> toks[k].kind == Semicolon
    decreases |toks| - p
  {
    if toks[p].kind == Semicolon then SkipSemis(toks, p + 1) else p
  }

  /** `parse_assignment` (app.py:175-180): the entry it stores in the root
      mapping, and the cursor after its optional `;`. */
  function AssignmentF(toks: seq<Token>, consts: map<string, Value>, p: nat): (r: Result<Parsed<Entry>>)
    requires Terminated(toks) && p < |toks|
    ensures r.Ok? ==> p < r.value.next < |toks| && r.value.val.key == toks[p].lexeme
  {
    if toks[p].kind != Ident then Err(Expected(Ident, toks[p]))
    else if toks[p + 1].kind != Assign then Err(Expected(Assign, toks[p + 1]))
    else
      var v :- ValueF(toks, consts, p + 2);
      Ok(Parsed(Entry(toks[p].lexeme, v.val), if toks[v.next].kind == Semicolon then v.next + 1 else v.next))
  }

  /** `parse_const` (app.py:183-193): the constant it declares, and the
      cursor after its optional `;`. */
  function ConstDeclF(toks: seq<Token>, consts: map<string, Value>, p: nat): (r: Result<Parsed<Entry>>)
    requires Terminated(toks) && p < |toks|
    ensures r.Ok? ==> p < r.value.next < |toks| && r.value.val.key !in consts
  {
    var v :- ValueF(toks, consts, p);
    if toks[v.next].kind != Arrow then Err(Expected(Arrow, toks[v.next]))
    else if toks[v.next + 1].kind != Ident then Err(Expected(Ident, toks[v.next + 1]))
    else
      var name := toks[v.next + 1];
      if name.lexeme in consts then Err(DuplicateConstant(name.lexeme, name.line, name.col))
      else Ok(Parsed(Entry(name.lexeme, v.val), if toks[v.next + 2].kind == Semicolon then v.next + 3 else v.next + 2))
  }

  /** What a parse of the whole file leaves behind: the constant table and
      the root mapping. */
  datatype Tables = Tables(consts: map<string, Value>, config: seq<Entry>)

  /** One statement of `parse_file` (app.py:162-170) at cursor q, after
      the semicolons: an assignment when a name is followed by `:=`, a
      constant declaration otherwise. It gives the tables after the
      statement and the cursor past it. */
  function StatementF(toks: seq<Token>, consts: map<string, Value>, config: seq<Entry>, q: nat): (r: Result<Parsed<Tables>>)
    requires Terminated(toks) && q < |toks|
    ensures r.Ok? ==> q < r.value.next < |toks|
  {
    if toks[q].kind == Ident && toks[q + 1].kind == Assign then
      var a :- AssignmentF(toks, consts, q);
      Ok(Parsed(Tables(consts, Upsert(config, a.val.key, a.val.val)), a.next))
    else
      var c :- ConstDeclF(toks, consts, q);
      Ok(Parsed(Tables(consts[c.val.key := c.val.val], config), c.next))
  }

  /** The statement loop of `parse_file` (app.py:157-170) from cursor p,
      with the tables filled so far. */
  function FileF(toks: seq<Token>, consts: map<string, Value>, config: seq<Entry>, p: nat): (r: Result<Tables>)
    requires Terminated(toks) && p < |toks|
    decreases |toks| - p
  {
    var q := SkipSemis(toks, p);
    if toks[q].kind == Eof then Ok(Tables(consts, config))
    else
      var s :- StatementF(toks, consts, config, q);
      FileF(toks, s.val.consts, s.val.config, s.next)
  }

  /** One turn of the statement loop, as FileF takes it. */
  lemma FileStep(toks: seq<Token>, consts: map<string, Value>, config: seq<Entry>, p: nat)
    requires Terminated(toks) && p < |toks|
    ensures var q := SkipSemis(toks, p);
      FileF(toks, consts, config, p) ==
        if toks[q].kind == Eof then Ok(Tables(consts, config))
        else match StatementF(toks, consts, config, q)
          case Err(e) => Err(e)
          case Ok(s) => FileF(toks, s.val.consts, s.val.config, s.next)
  {
  }

  // ----- the parser state and its methods -----

  /** The module state of app.py:9-12 once `lex` has run. */
  class Parser {
    const tokens: seq<Token>
    var pos: nat
    var consts: map<string, Value>
    var config: seq<Entry>

    predicate Valid()
      reads this
    {
      Terminated(tokens) && pos < |tokens|
    }

    /** The state `convert` starts from: a fresh token list and an empty
        constant table (app.py:393-394). */
    constructor (toks: seq<Token>)
      requires Terminated(toks)
      ensures Valid()
      ensures tokens == toks && pos == 0 && consts == map[] && config == []
    {
      tokens := toks;
      pos := 0;
      consts := map[];
      config := [];
    }

    /** `peek` (app.py:127-128). */
    function Peek(): (t: Token)
      reads this
      requires Valid()
      ensures t in tokens
      ensures pos == |tokens| - 1 ==> t.kind == Eof
    {
      tokens[pos]
    }

    /** `match` (app.py:130-135): steps over one token of the given kind. */
    method Match(kind: Kind) returns (b: bool)
      requires Valid() && kind != Eof
      modifies this`pos
      ensures Valid()
      ensures b <==> old(tokens[pos]).kind == kind
      ensures pos == if b then old(pos) + 1 else old(pos)
    {
      if tokens[pos].kind == kind {
        pos := pos + 1;
        return true;
      }
      return false;
    }

    /** `consume` (app.py:137-145): steps over a token of the given kind or
        reports what it found instead. */
    method Consume(kind: Kind) returns (r: Result<Token>)
      requires Valid() && kind != Eof
      modifies this`pos
      ensures Valid()
      ensures r.Ok? <==> old(tokens[pos]).kind == kind
      ensures r.Ok? ==> r.value == old(tokens[pos]) && pos == old(pos) + 1
      ensures r.Err? ==> r.error == Expected(kind, old(tokens[pos])) && pos == old(pos)
    {
      var t := tokens[pos];
      if t.kind != kind {
        return Err(Expected(kind, t));
      }
      pos := pos + 1;
      return Ok(t);
    }

    method ParseValue() returns (r: Result<Value>)
      requires Valid()
      modifies this`pos
      ensures Valid()
      ensures r == Dropped(ValueF(tokens, consts, old(pos)))
      ensures r.Ok? ==> pos == ValueF(tokens, consts, old(pos)).value.next
      decreases |tokens| - pos, 1
    {
      var t := Peek();
      if t.kind == Number {
        var number := Consume(Number);
        return Ok(ParseNumber(t.lexeme));
      }
      if t.kind == LBracket {
        r := ParseArray();
        return;
      }
      if t.kind == Begin {
        r := ParseDict();
        return;
      }
      if t.kind == At {
        r := ParseConstExpr();
        return;
      }
      if t.kind == Ident {
        var name := Consume(Ident);
        if t.lexeme !in consts {
          return Err(UnknownConstant(t.lexeme, t.line, t.col));
        }
        return Ok(consts[t.lexeme]);
      }
      return Err(ValueExpected(t.line, t.col));
    }

    method ParseArray() returns (r: Result<Value>)
      requires Valid()
      modifies this`pos
      ensures Valid()
      ensures r == Dropped(ArrayF(tokens, consts, old(pos)))
      ensures r.Ok? ==> pos == ArrayF(tokens, consts, old(pos)).value.next
      decreases |tokens| - pos, 0
    {
      ghost var p0 := pos;
      var open :- Consume(LBracket);
      var items: seq<Value> := [];
      if Peek().kind != RBracket {
        var first :- ParseValue();
        items := [first];
        while true
          invariant Valid() && pos > p0
          invariant ArrayF(tokens, consts, p0) == ArrayRestF(tokens, consts, pos, items)
          decreases |tokens| - pos
        {
          var semi := Match(Semicolon);
          if !semi || Peek().kind == RBracket {
            break;
          }
          var v :- ParseValue();
          items := items + [v];
        }
      }
      var close :- Consume(RBracket);
      return Ok(Arr(items));
    }

    method ParseDict() returns (r: Result<Value>)
      requires Valid()
      modifies this`pos
      ensures Valid()
      ensures r == Dropped(DictF(tokens, consts, old(pos)))
      ensures r.Ok? ==> pos == DictF(tokens, consts, old(pos)).value.next
      decreases |tokens| - pos, 0
    {
      ghost var p0 := pos;
      var begin :- Consume(Begin);
      var d: seq<Entry> := [];
      while Peek().kind != End
        invariant Valid() && pos > p0
        invariant DictF(tokens, consts, p0) == DictRestF(tokens, consts, pos, d)
        decreases |tokens| - pos
      {
        DictRestStep(tokens, consts, pos, d);
        var key :- Consume(Ident);
        var assign :- Consume(Assign);
        var v :- ParseValue();
        var semi :- Consume(Semicolon);
        if HasKey(d, key.lexeme) {
          return Err(DuplicateKey(key.lexeme));
        }
        d := d + [Entry(key.lexeme, v)];
      }
      var end := Consume(End);
      return Ok(Table(d));
    }

    method ParseConstExpr() returns (r: Result<Value>)
      requires Valid()
      modifies this`pos
      ensures Valid()
      ensures r == Dropped(ConstExprF(tokens, consts, old(pos)))
      ensures r.Ok? ==> pos == ConstExprF(tokens, consts, old(pos)).value.next
      decreases |tokens| - pos, 0
    {
      var at :- Consume(At);
      var open :- Consume(LBrace);
      var v :- ParseExpr();
      var close :- Consume(RBrace);
      return Ok(v);
    }

    method ParseExpr() returns (r: Result<Value>)
      requires Valid()
      modifies this`pos
      ensures Valid()
      ensures r == Dropped(ExprF(tokens, consts, old(pos)))
      ensures r.Ok? ==> pos == ExprF(tokens, consts, old(pos)).value.next
      decreases |tokens| - pos, 2
    {
      var t := Peek();
      var plus := Match(Plus);
      if plus {
        var a :- ParseExpr();
        var b :- ParseExpr();
        r := ApplyBinary(AddOp, a, b, t.line, t.col);
        return;
      }
      var minus := Match(Minus);
      if minus {
        var a :- ParseExpr();
        var b :- ParseExpr();
        r := ApplyBinary(SubOp, a, b, t.line, t.col);
        return;
      }
      if t.kind == Ident && t.lexeme == "min" {
        var name := Consume(Ident);
        var a :- ParseExpr();
        var b :- ParseExpr();
        r := ParseMinArgs([a, b], t.line, t.col);
        return;
      }
      if t.kind == Ident && t.lexeme == "sort" {
        var name := Consume(Ident);
        var a :- ParseExpr();
        r := ApplySort(a, t.line, t.col);
        return;
      }
      r := ParseValue();
    }

    /** The argument loop of `min` (app.py:283-288): reads arguments up
        to `}` after the ones in args, then takes their minimum. */
    method ParseMinArgs(args: seq<Value>, line: nat, col: nat) returns (r: Result<Value>)
      requires Valid() && |args| >= 2
      modifies this`pos
      ensures Valid()
      ensures r == Dropped(MinArgsRest(tokens, consts, old(pos), args, line, col))
      ensures r.Ok? ==> pos == MinArgsRest(tokens, consts, old(pos), args, line, col).value.next
      decreases |tokens| - pos, 3
    {
      var xs := args;
      while Peek().kind != RBrace
        invariant Valid() && old(pos) <= pos && |xs| >= 2
        invariant MinArgsRest(tokens, consts, old(pos), args, line, col) == MinArgsRest(tokens, consts, pos, xs, line, col)
        decreases |tokens| - pos
      {
        var x :- ParseExpr();
        xs := xs + [x];
      }
      r := ApplyMin(xs, line, col);
    }

    method ParseAssignment() returns (r: Result<()>)
      requires Valid()
      modifies this`pos, this`config
      ensures Valid()
      ensures var s := AssignmentF(tokens, consts, old(pos));
        (s.Ok? ==> r.Ok? && pos == s.value.next && config == Upsert(old(config), s.value.val.key, s.value.val.val)) &&
        (s.Err? ==> r == Err(s.error))
    {
      var name :- Consume(Ident);
      var assign :- Consume(Assign);
      var v :- ParseValue();
      var semi := Match(Semicolon);
      config := Upsert(config, name.lexeme, v);
      return Ok(());
    }

    method ParseConst() returns (r: Result<()>)
      requires Valid()
      modifies this`pos, this`consts
      ensures Valid()
      ensures var s := ConstDeclF(tokens, old(consts), old(pos));
        (s.Ok? ==> r.Ok? && pos == s.value.next && consts == old(consts)[s.value.val.key := s.value.val.val]) &&
        (s.Err? ==> r == Err(s.error))
    {
      var v :- ParseValue();
      var arrow :- Consume(Arrow);
      var name :- Consume(Ident);
      if name.lexeme in consts {
        return Err(DuplicateConstant(name.lexeme, name.line, name.col));
      }
      consts := consts[name.lexeme := v];
      var semi := Match(Semicolon);
      return Ok(());
    }

    /** `parse_file` (app.py:152-172): resets the cursor and the root
        mapping and runs the statement loop; the constant table carries
        what was declared before. */
    method ParseFile() returns (r: Result<seq<Entry>>)
      requires Terminated(tokens)
      modifies this
      ensures Valid()
      ensures var s := FileF(tokens, old(consts), [], 0);
        (s.Ok? ==> r == Ok(s.value.config) && config == s.value.config && consts == s.value.consts) &&
        (s.Err? ==> r == Err(s.error))
    {
      pos := 0;
      config := [];
      while Peek().kind != Eof
        invariant Valid()
        invariant FileF(tokens, old(consts), [], 0) == FileF(tokens, consts, config, pos)
        decreases |tokens| - pos
      {
        FileStep(tokens, consts, config, pos);
        SkipSemicolons();
        if Peek().kind == Eof {
          return Ok(config);
        }
        var done := ParseStatement();
        if done.Err? {
          return Err(done.error);
        }
      }
      FileStep(tokens, consts, config, pos);
      return Ok(config);
    }

    /** The inner loop of `parse_file` (app.py:159-160): steps over a run
        of `;`. */
    method SkipSemicolons()
      requires Valid()
      modifies this`pos
      ensures Valid() && pos == SkipSemis(tokens, old(pos))
    {
      var semi := Match(Semicolon);
      while semi
        invariant Valid() && old(pos) <= pos
        invariant SkipSemis(tokens, old(pos)) == SkipSemis(tokens, pos)
        invariant !semi ==> tokens[pos].kind != Semicolon
        decreases |tokens| - pos + (if semi then 1 else 0)
      {
        semi := Match(Semicolon);
      }
    }

    /** The body of the loop of `parse_file` after the semicolons
        (app.py:165-170). */
    method ParseStatement() returns (r: Result<()>)
      requires Valid()
      modifies this`pos, this`consts, this`config
      ensures Valid()
      ensures var s := StatementF(tokens, old(consts), old(config), old(pos));
        (s.Ok? ==> r.Ok? && pos == s.value.next && consts == s.value.val.consts && config == s.value.val.config) &&
        (s.Err? ==> r == Err(s.error))
    {
      if tokens[pos].kind == Ident && tokens[pos + 1].kind == Assign {
        r := ParseAssignment();
      } else {
        r := ParseConst();
      }
    }
  }
}
