/** Properties of the grammar functions of the parser (app.py:152-302). */
module ParserProps {
  import opened Syntax
  import opened Decimal
  import opened Numbers
  import opened Lexer
  import opened Parser

  // ----- the parser builds numbers, arrays and tables only -----

  /** What the lexer hands over: every lexeme agrees with its kind. */
  predicate AllWellFormed(toks: seq<Token>) {
    forall k :: 0 <= k < |toks| ==> WellFormed(toks[k])
  }

  lemma {:induction false} ValuePlain(toks: seq<Token>, consts: map<string, Value>, p: nat)
    requires Terminated(toks) && AllWellFormed(toks) && p < |toks| && PlainConsts(consts)
    ensures ValueF(toks, consts, p).Ok? ==> Plain(ValueF(toks, consts, p).value.val)
    decreases |toks| - p, 1
  {
    match toks[p].kind
    case LBracket => ArrayPlain(toks, consts, p);
    case Begin => DictPlain(toks, consts, p);
    case At => ConstExprPlain(toks, consts, p);
    case _ =>
  }

  lemma {:induction false} ArrayPlain(toks: seq<Token>, consts: map<string, Value>, p: nat)
    requires Terminated(toks) && AllWellFormed(toks) && p < |toks| && PlainConsts(consts)
    ensures ArrayF(toks, consts, p).Ok? ==> Plain(ArrayF(toks, consts, p).value.val)
    decreases |toks| - p, 0
  {
    if toks[p].kind == LBracket && toks[p + 1].kind != RBracket {
      ValuePlain(toks, consts, p + 1);
      var first := ValueF(toks, consts, p + 1);
      if first.Ok? {
        ArrayRestPlain(toks, consts, first.value.next, [first.value.val]);
      }
    }
  }

  lemma {:induction false} ArrayRestPlain(toks: seq<Token>, consts: map<string, Value>, p: nat, items: seq<Value>)
    requires Terminated(toks) && AllWellFormed(toks) && p < |toks| && PlainConsts(consts) && Plain(Arr(items))
    ensures ArrayRestF(toks, consts, p, items).Ok? ==> Plain(ArrayRestF(toks, consts, p, items).value.val)
    decreases |toks| - p, 0
  {
    if toks[p].kind == Semicolon && toks[p + 1].kind != RBracket {
      ValuePlain(toks, consts, p + 1);
      var v := ValueF(toks, consts, p + 1);
      if v.Ok? {
        ArrayRestPlain(toks, consts, v.value.next, items + [v.value.val]);
      }
    }
  }

  lemma {:induction false} DictPlain(toks: seq<Token>, consts: map<string, Value>, p: nat)
    requires Terminated(toks) && AllWellFormed(toks) && p < |toks| && PlainConsts(consts)
    ensures DictF(toks, consts, p).Ok? ==> Plain(DictF(toks, consts, p).value.val)
    decreases |toks| - p, 0
  {
    if toks[p].kind == Begin {
      DictRestPlain(toks, consts, p + 1, []);
    }
  }

  lemma {:induction false} DictRestPlain(toks: seq<Token>, consts: map<string, Value>, p: nat, d: seq<Entry>)
    requires Terminated(toks) && AllWellFormed(toks) && p < |toks| && PlainConsts(consts) && Plain(Table(d))
    ensures DictRestF(toks, consts, p, d).Ok? ==> Plain(DictRestF(toks, consts, p, d).value.val)
    decreases |toks| - p, 0
  {
    if toks[p].kind == Ident && toks[p + 1].kind == Assign {
      ValuePlain(toks, consts, p + 2);
      var v := ValueF(toks, consts, p + 2);
      if v.Ok? && toks[v.value.next].kind == Semicolon {
        DictRestPlain(toks, consts, v.value.next + 1, d + [Entry(toks[p].lexeme, v.value.val)]);
      }
    }
  }

  lemma {:induction false} ConstExprPlain(toks: seq<Token>, consts: map<string, Value>, p: nat)
    requires Terminated(toks) && AllWellFormed(toks) && p < |toks| && PlainConsts(consts)
    ensures ConstExprF(toks, consts, p).Ok? ==> Plain(ConstExprF(toks, consts, p).value.val)
    decreases |toks| - p, 0
  {
    if toks[p].kind == At && toks[p + 1].kind == LBrace {
      ExprPlain(toks, consts, p + 2);
    }
  }

  lemma {:induction false} ExprPlain(toks: seq<Token>, consts: map<string, Value>, p: nat)
    requires Terminated(toks) && AllWellFormed(toks) && p < |toks| && PlainConsts(consts)
    ensures ExprF(toks, consts, p).Ok? ==> Plain(ExprF(toks, consts, p).value.val)
    decreases |toks| - p, 2
  {
    var t := toks[p];
    if t.kind == Plus || t.kind == Minus {
      BinaryPlain(toks, consts, p);
    } else if t.kind == Ident && t.lexeme == "min" {
      var a := ExprF(toks, consts, p + 1);
      ExprPlain(toks, consts, p + 1);
      if a.Ok? {
        var b := ExprF(toks, consts, a.value.next);
        ExprPlain(toks, consts, a.value.next);
        if b.Ok? {
          MinArgsPlain(toks, consts, b.value.next, [a.value.val, b.value.val], t.line, t.col);
        }
      }
    } else if t.kind == Ident && t.lexeme == "sort" {
      ExprPlain(toks, consts, p + 1);
      SortPlain(toks, consts, p);
    } else {
      ValuePlain(toks, consts, p);
    }
  }

  /** `+` and `-` only ever produce numbers. */
  lemma BinaryPlain(toks: seq<Token>, consts: map<string, Value>, p: nat)
    requires Terminated(toks) && p < |toks| && (toks[p].kind == Plus || toks[p].kind == Minus)
    ensures ExprF(toks, consts, p).Ok? ==> IsNum(ExprF(toks, consts, p).value.val)
  {
  }

  lemma SortPlain(toks: seq<Token>, consts: map<string, Value>, p: nat)
    requires Terminated(toks) && p < |toks| && toks[p].kind == Ident && toks[p].lexeme == "sort"
    requires ExprF(toks, consts, p + 1).Ok? ==> Plain(ExprF(toks, consts, p + 1).value.val)
    ensures ExprF(toks, consts, p).Ok? ==> Plain(ExprF(toks, consts, p).value.val)
  {
    var a := ExprF(toks, consts, p + 1);
    if a.Ok? {
      var s := ApplySort(a.value.val, toks[p].line, toks[p].col);
      if s.Ok? {
        PermutedPlain(s.value.items, a.value.val.items);
      }
    }
  }

  lemma PermutedPlain(xs: seq<Value>, ys: seq<Value>)
    requires multiset(xs) == multiset(ys) && Plain(Arr(ys))
    ensures Plain(Arr(xs))
  {
    forall k | 0 <= k < |xs|
      ensures Plain(xs[k])
    {
      assert xs[k] in multiset(ys);
      var j :| 0 <= j < |ys| && ys[j] == xs[k];
    }
  }

  lemma {:induction false} MinArgsPlain(toks: seq<Token>, consts: map<string, Value>, p: nat, args: seq<Value>, line: nat, col: nat)
    requires Terminated(toks) && AllWellFormed(toks) && p < |toks| && |args| >= 2 && PlainConsts(consts)
    requires forall k :: 0 <= k < |args| ==> Plain(args[k])
    ensures MinArgsRest(toks, consts, p, args, line, col).Ok? ==> Plain(MinArgsRest(toks, consts, p, args, line, col).value.val)
    decreases |toks| - p, 3
  {
    if toks[p].kind != RBrace {
      ExprPlain(toks, consts, p);
      var x := ExprF(toks, consts, p);
      if x.Ok? {
        MinArgsPlain(toks, consts, x.value.next, args + [x.value.val], line, col);
      }
    }
  }

  // ----- arrays and tables -----

  /** A successful array ends with `]`; so without a `]` ahead there is no
      array. */
  lemma {:induction false} ArrayRestClosed(toks: seq<Token>, consts: map<string, Value>, p: nat, items: seq<Value>)
    requires Terminated(toks) && p < |toks|
    ensures var r := ArrayRestF(toks, consts, p, items);
      r.Ok? ==> r.value.val.Arr? && toks[r.value.next - 1].kind == RBracket
    decreases |toks| - p
  {
    if toks[p].kind == Semicolon && toks[p + 1].kind != RBracket {
      var v := ValueF(toks, consts, p + 1);
      if v.Ok? {
        ArrayRestClosed(toks, consts, v.value.next, items + [v.value.val]);
      }
    }
  }

  lemma MissingBracket(toks: seq<Token>, consts: map<string, Value>, p: nat)
    requires Terminated(toks) && p < |toks|
    requires forall k :: p <= k < |toks| ==> toks[k].kind != RBracket
    ensures ArrayF(toks, consts, p).Err?
  {
    if toks[p].kind == LBracket && toks[p + 1].kind != RBracket {
      var first := ValueF(toks, consts, p + 1);
      if first.Ok? {
        ArrayRestClosed(toks, consts, first.value.next, [first.value.val]);
      }
    }
  }

  /** The shapes of array syntax: `[ ]` is the empty array, and a `;`
      right before `]` is dropped. */
  lemma ArrayEdges(toks: seq<Token>, consts: map<string, Value>, p: nat, items: seq<Value>)
    requires Terminated(toks) && p + 1 < |toks|
    ensures toks[p].kind == LBracket && toks[p + 1].kind == RBracket ==>
      ArrayF(toks, consts, p) == Ok(Parsed(Arr([]), p + 2))
    ensures toks[p].kind == Semicolon && toks[p + 1].kind == RBracket ==>
      ArrayRestF(toks, consts, p, items) == Ok(Parsed(Arr(items), p + 2))
    ensures toks[p].kind != Semicolon && toks[p].kind != RBracket ==>
      ArrayRestF(toks, consts, p, items) == Err(Expected(RBracket, toks[p]))
  {
  }

  /** The loop of `parse_dict` keeps the keys it has seen distinct, and
      only adds entries after them; a table ends with `end`. */
  lemma {:induction false} DictRestUnique(toks: seq<Token>, consts: map<string, Value>, p: nat, d: seq<Entry>)
    requires Terminated(toks) && p < |toks| && UniqueKeys(d)
    ensures var r := DictRestF(toks, consts, p, d);
      r.Ok? ==> r.value.val.Table? && UniqueKeys(r.value.val.entries) &&
                d <= r.value.val.entries && toks[r.value.next - 1].kind == End
    decreases |toks| - p
  {
    var t := toks[p];
    if t.kind == Ident && toks[p + 1].kind == Assign {
      var v := ValueF(toks, consts, p + 2);
      if v.Ok? && toks[v.value.next].kind == Semicolon && !HasKey(d, t.lexeme) {
        var d' := d + [Entry(t.lexeme, v.value.val)];
        assert UniqueKeys(d') by {
          forall j | 0 <= j < |d|
            ensures d'[j].key != t.lexeme
          {
            assert d'[j] == d[j];
          }
        }
        DictRestUnique(toks, consts, v.value.next + 1, d');
      }
    }
  }

  /** A table read by `parse_dict` never holds a key twice. */
  lemma DictUnique(toks: seq<Token>, consts: map<string, Value>, p: nat)
    requires Terminated(toks) && p < |toks|
    ensures var r := DictF(toks, consts, p);
      r.Ok? ==> r.value.val.Table? && UniqueKeys(r.value.val.entries)
  {
    if toks[p].kind == Begin {
      DictRestUnique(toks, consts, p + 1, []);
    }
  }

  /** Each entry of a table needs its `;`, and a key seen before in the
      same table is an error. */
  lemma DictEntry(toks: seq<Token>, consts: map<string, Value>, p: nat, d: seq<Entry>)
    requires Terminated(toks) && p + 1 < |toks|
    requires toks[p].kind == Ident && toks[p + 1].kind == Assign && ValueF(toks, consts, p + 2).Ok?
    ensures var v := ValueF(toks, consts, p + 2).value;
      toks[v.next].kind != Semicolon ==> DictRestF(toks, consts, p, d) == Err(Expected(Semicolon, toks[v.next]))
    ensures var v := ValueF(toks, consts, p + 2).value;
      toks[v.next].kind == Semicolon && HasKey(d, toks[p].lexeme) ==>
        DictRestF(toks, consts, p, d) == Err(DuplicateKey(toks[p].lexeme))
  {
  }

  // ----- constants and the root mapping -----

  /** A name refers to the value stored for it, and an unknown name is an
      error at the name's position. */
  lemma ConstantReference(toks: seq<Token>, consts: map<string, Value>, p: nat)
    requires Terminated(toks) && p < |toks| && toks[p].kind == Ident
    ensures var t := toks[p];
      t.lexeme in consts ==> ValueF(toks, consts, p) == Ok(Parsed(consts[t.lexeme], p + 1))
    ensures var t := toks[p];
      t.lexeme !in consts ==> ValueF(toks, consts, p) == Err(UnknownConstant(t.lexeme, t.line, t.col))
  {
  }

  /** Declaring a name that is already a constant is an error. */
  lemma ConstantRedeclared(toks: seq<Token>, consts: map<string, Value>, p: nat)
    requires Terminated(toks) && p < |toks| && ValueF(toks, consts, p).Ok?
    requires var q := ValueF(toks, consts, p).value.next;
      toks[q].kind == Arrow && toks[q + 1].kind == Ident && toks[q + 1].lexeme in consts
    ensures var name := toks[ValueF(toks, consts, p).value.next + 1];
      ConstDeclF(toks, consts, p) == Err(DuplicateConstant(name.lexeme, name.line, name.col))
  {
  }

  /** Every constant of a holds the same value in b. */
  predicate Extends(a: map<string, Value>, b: map<string, Value>) {
    forall name :: name in a ==> name in b && b[name] == a[name]
  }

  /** A statement adds a constant or none; it never changes one. */
  lemma StatementKeepsConsts(toks: seq<Token>, consts: map<string, Value>, config: seq<Entry>, q: nat)
    requires Terminated(toks) && q < |toks|
    ensures var s := StatementF(toks, consts, config, q);
      s.Ok? ==> Extends(consts, s.value.val.consts)
  {
  }

  /** Constants are written once: whatever the table holds at some point
      of the file is still there, unchanged, at the end. */
  lemma {:induction false} ConstantsWriteOnce(toks: seq<Token>, consts: map<string, Value>, config: seq<Entry>, p: nat)
    requires Terminated(toks) && p < |toks|
    ensures var r := FileF(toks, consts, config, p);
      r.Ok? ==> Extends(consts, r.value.consts)
    decreases |toks| - p
  {
    FileStep(toks, consts, config, p);
    var q := SkipSemis(toks, p);
    if toks[q].kind != Eof {
      var s := StatementF(toks, consts, config, q);
      if s.Ok? {
        StatementKeepsConsts(toks, consts, config, q);
        ConstantsWriteOnce(toks, s.value.val.consts, s.value.val.config, s.value.next);
      }
    }
  }

  lemma {:induction false} UpsertLookup(es: seq<Entry>, key: string, v: Value, other: string)
    ensures Lookup(Upsert(es, key, v), key) == Some(v)
    ensures other != key ==> Lookup(Upsert(es, key, v), other) == Lookup(es, other)
  {
    if es != [] && es[0].key != key {
      UpsertLookup(es[1..], key, v, other);
    }
  }

  lemma {:induction false} UpsertUnique(es: seq<Entry>, key: string, v: Value)
    requires UniqueKeys(es)
    ensures UniqueKeys(Upsert(es, key, v))
  {
    var r := Upsert(es, key, v);
    assert Keys(r) == Keys(es) || Keys(r) == Keys(es) + [key];
    if !HasKey(es, key) {
      forall j | 0 <= j < |es|
        ensures r[j].key != key
      {
        assert Keys(r)[j] == Keys(es)[j];
      }
    }
    forall j, k | 0 <= j < k < |r|
      ensures r[j].key != r[k].key
    {
      assert Keys(r)[j] == r[j].key && Keys(r)[k] == r[k].key;
    }
  }

  /** A statement keeps the root mapping free of repeated names. */
  lemma StatementKeepsUnique(toks: seq<Token>, consts: map<string, Value>, config: seq<Entry>, q: nat)
    requires Terminated(toks) && q < |toks| && UniqueKeys(config)
    ensures var s := StatementF(toks, consts, config, q);
      s.Ok? ==> UniqueKeys(s.value.val.config)
  {
    if toks[q].kind == Ident && toks[q + 1].kind == Assign {
      var a := AssignmentF(toks, consts, q);
      if a.Ok? {
        UpsertUnique(config, a.value.val.key, a.value.val.val);
      }
    }
  }

  /** The root mapping never holds a name twice: reassigning a name
      replaces its value in place. */
  lemma {:induction false} ConfigUnique(toks: seq<Token>, consts: map<string, Value>, config: seq<Entry>, p: nat)
    requires Terminated(toks) && p < |toks| && UniqueKeys(config)
    ensures FileF(toks, consts, config, p).Ok? ==> UniqueKeys(FileF(toks, consts, config, p).value.config)
    decreases |toks| - p
  {
    FileStep(toks, consts, config, p);
    var q := SkipSemis(toks, p);
    if toks[q].kind != Eof {
      var s := StatementF(toks, consts, config, q);
      if s.Ok? {
        StatementKeepsUnique(toks, consts, config, q);
        ConfigUnique(toks, s.value.val.consts, s.value.val.config, s.value.next);
      }
    }
  }

  lemma {:induction false} UpsertPlain(es: seq<Entry>, key: string, v: Value)
    requires Plain(Table(es)) && IsIdentifier(key) && Plain(v)
    ensures Plain(Table(Upsert(es, key, v)))
  {
    if es != [] && es[0].key != key {
      UpsertPlain(es[1..], key, v);
      assert Upsert(es, key, v) == [es[0]] + Upsert(es[1..], key, v);
    }
  }

  /** A statement stores plain values only, under identifier names. */
  lemma StatementPlain(toks: seq<Token>, consts: map<string, Value>, config: seq<Entry>, q: nat)
    requires Terminated(toks) && AllWellFormed(toks) && q < |toks|
    requires PlainConsts(consts) && Plain(Table(config))
    ensures var s := StatementF(toks, consts, config, q);
      s.Ok? ==> PlainConsts(s.value.val.consts) && Plain(Table(s.value.val.config))
  {
    if toks[q].kind == Ident && toks[q + 1].kind == Assign {
      var a := AssignmentF(toks, consts, q);
      ValuePlain(toks, consts, q + 2);
      if a.Ok? {
        assert WellFormed(toks[q]);
        UpsertPlain(config, a.value.val.key, a.value.val.val);
      }
    } else {
      ValuePlain(toks, consts, q);
    }
  }

  /** The whole file yields a root mapping of plain values under
      identifier names: no strings, no booleans, no quoted keys. */
  lemma {:induction false} FilePlain(toks: seq<Token>, consts: map<string, Value>, config: seq<Entry>, p: nat)
    requires Terminated(toks) && AllWellFormed(toks) && p < |toks|
    requires PlainConsts(consts) && Plain(Table(config))
    ensures FileF(toks, consts, config, p).Ok? ==> Plain(Table(FileF(toks, consts, config, p).value.config))
    decreases |toks| - p
  {
    FileStep(toks, consts, config, p);
    var q := SkipSemis(toks, p);
    if toks[q].kind != Eof {
      var s := StatementF(toks, consts, config, q);
      if s.Ok? {
        StatementPlain(toks, consts, config, q);
        FilePlain(toks, s.value.val.consts, s.value.val.config, s.value.next);
      }
    }
  }

  /** `min` needs two arguments: `}` right after the first is an error. */
  lemma MinNeedsTwo(toks: seq<Token>, consts: map<string, Value>, p: nat)
    requires Terminated(toks) && p < |toks| && toks[p].kind == Ident && toks[p].lexeme == "min"
    requires ExprF(toks, consts, p + 1).Ok?
    requires toks[ExprF(toks, consts, p + 1).value.next].kind == RBrace
    ensures var q := toks[ExprF(toks, consts, p + 1).value.next];
      ExprF(toks, consts, p) == Err(ValueExpected(q.line, q.col))
  {
    var q := ExprF(toks, consts, p + 1).value.next;
    assert ExprF(toks, consts, q) == ValueF(toks, consts, q);
  }
}
