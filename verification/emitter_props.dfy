/** What the TOML generator of app.py:306-389 guarantees about the text
    it writes. */
module EmitterProps {
  import opened Syntax
  import opened Decimal
  import opened Emitter

  // ----- the three groups -----

  /** Grouping keeps the order of the entries. */
  lemma {:induction false} PickConcat(a: seq<Entry>, b: seq<Entry>, g: Group)
    ensures Pick(a + b, g) == Pick(a, g) + Pick(b, g)
    decreases |b|
  {
    if b != [] {
      var init := b[..|b| - 1];
      var e := b[|b| - 1];
      assert (a + b)[..|a + b| - 1] == a + init;
      assert (a + b)[|a + b| - 1] == e;
      PickConcat(a, init, g);
    } else {
      assert a + b == a;
    }
  }

  /** Every entry lands in exactly one group: the three lists together
      are a permutation of the table. */
  lemma {:induction false} PickPartition(es: seq<Entry>)
    ensures multiset(Pick(es, Scalar)) + multiset(Pick(es, TableArray)) + multiset(Pick(es, Nested)) == multiset(es)
  {
    if es != [] {
      var init := es[..|es| - 1];
      var e := es[|es| - 1];
      PickPartition(init);
      LastOut(es);
      PickLast(es, Scalar);
      PickLast(es, TableArray);
      PickLast(es, Nested);
    }
  }

  lemma LastOut(es: seq<Entry>)
    requires es != []
    ensures multiset(es) == multiset(es[..|es| - 1]) + multiset{es[|es| - 1]}
  {
    assert es == es[..|es| - 1] + [es[|es| - 1]];
  }

  /** One step of Pick, as a multiset. */
  lemma PickLast(es: seq<Entry>, g: Group)
    requires es != []
    ensures multiset(Pick(es, g)) ==
      multiset(Pick(es[..|es| - 1], g)) + (if GroupOf(es[|es| - 1].val) == g then multiset{es[|es| - 1]} else multiset{})
  {
  }

  // ----- lines are only ever appended -----

  /** a is an initial part of b. */
  predicate Prefix(a: seq<string>, b: seq<string>) {
    |a| <= |b| && b[..|a|] == a
  }

  lemma PrefixTrans(a: seq<string>, b: seq<string>, c: seq<string>)
    requires Prefix(a, b) && Prefix(b, c)
    ensures Prefix(a, c)
  {
    assert c[..|a|] == c[..|b|][..|a|];
  }

  lemma PrefixAppend(a: seq<string>, b: seq<string>)
    ensures Prefix(a, a + b)
  {
    assert (a + b)[..|a|] == a;
  }

  lemma {:induction false} ElementsGrow(lines: seq<string>, path: string, els: seq<Value>)
    requires AllTables(els)
    ensures Prefix(lines, ElementsF(lines, path, els))
  {
    if els != [] {
      var before := ElementsF(lines, path, els[..|els| - 1]);
      ElementsGrow(lines, path, els[..|els| - 1]);
      PrefixAppend(before, Sep(before) + [ArrayHeader(path)] + EntryLines(els[|els| - 1].entries));
      assert before + Sep(before) + [ArrayHeader(path)] + EntryLines(els[|els| - 1].entries) ==
        before + (Sep(before) + [ArrayHeader(path)] + EntryLines(els[|els| - 1].entries));
      PrefixTrans(lines, before, ElementsF(lines, path, els));
    }
  }

  lemma {:induction false} ArraysGrow(lines: seq<string>, fullname: string, arrs: seq<Entry>)
    requires InGroup(arrs, TableArray)
    ensures Prefix(lines, ArraysF(lines, fullname, arrs))
  {
    if arrs != [] {
      var e := arrs[|arrs| - 1];
      var before := ArraysF(lines, fullname, arrs[..|arrs| - 1]);
      ArraysGrow(lines, fullname, arrs[..|arrs| - 1]);
      ElementsGrow(before, fullname + "." + e.key, e.val.items);
      PrefixTrans(lines, before, ArraysF(lines, fullname, arrs));
    }
  }

  /** `emit_table` only appends to the list it is given. */
  lemma {:induction false} EmitGrows(lines: seq<string>, fullname: string, d: seq<Entry>)
    ensures Prefix(lines, EmitTableF(lines, fullname, d))
    decreases d, 1
  {
    var head := lines + Sep(lines) + [Header(fullname)];
    var scalars := head + EntryLines(Pick(d, Scalar));
    var arrays := ArraysF(scalars, fullname, Pick(d, TableArray));
    assert scalars == lines + (Sep(lines) + [Header(fullname)] + EntryLines(Pick(d, Scalar)));
    PrefixAppend(lines, Sep(lines) + [Header(fullname)] + EntryLines(Pick(d, Scalar)));
    ArraysGrow(scalars, fullname, Pick(d, TableArray));
    PrefixTrans(lines, scalars, arrays);
    NestedGrows(arrays, fullname, d);
    PrefixTrans(lines, arrays, EmitTableF(lines, fullname, d));
  }

  lemma {:induction false} NestedGrows(lines: seq<string>, fullname: string, es: seq<Entry>)
    ensures Prefix(lines, NestedF(lines, fullname, es))
    decreases es, 0
  {
    if es != [] {
      var before := NestedF(lines, fullname, es[..|es| - 1]);
      var e := es[|es| - 1];
      NestedGrows(lines, fullname, es[..|es| - 1]);
      if e.val.Table? {
        EmitGrows(before, fullname + "." + e.key, e.val.entries);
        PrefixTrans(lines, before, NestedF(lines, fullname, es));
      }
    }
  }

  lemma {:induction false} RootTablesGrow(lines: seq<string>, cfg: seq<Entry>)
    ensures Prefix(lines, RootTablesF(lines, cfg))
  {
    if cfg != [] {
      var before := RootTablesF(lines, cfg[..|cfg| - 1]);
      var e := cfg[|cfg| - 1];
      RootTablesGrow(lines, cfg[..|cfg| - 1]);
      if e.val.Table? {
        EmitGrows(before, e.key, e.val.entries);
        PrefixTrans(lines, before, RootTablesF(lines, cfg));
      }
    }
  }

  // ----- the layout of a section and of the file -----

  /** A section opens with the separator and its header, followed at once
      by the `k = v` line of every plain entry in order; the blocks of its
      arrays of tables come next and its sub-tables last. */
  lemma SectionLayout(lines: seq<string>, fullname: string, d: seq<Entry>)
    ensures var scalars := lines + Sep(lines) + [Header(fullname)] + EntryLines(Pick(d, Scalar));
      var arrays := ArraysF(scalars, fullname, Pick(d, TableArray));
      Prefix(scalars, arrays) && Prefix(arrays, EmitTableF(lines, fullname, d))
  {
    var scalars := lines + Sep(lines) + [Header(fullname)] + EntryLines(Pick(d, Scalar));
    ArraysGrow(scalars, fullname, Pick(d, TableArray));
    NestedGrows(ArraysF(scalars, fullname, Pick(d, TableArray)), fullname, d);
  }

  /** The file starts with the `k = v` line of every root entry that is
      not a table, in order; the root tables follow. */
  lemma FileLayout(cfg: seq<Entry>)
    ensures Prefix(EntryLines(Inline(cfg)), TomlLines(cfg))
  {
    RootTablesGrow(EntryLines(Inline(cfg)), cfg);
  }

  // ----- blank lines -----

  /** Every blank line stands between two lines that are not blank: the
      text neither starts nor ends with one and never has two in a row. */
  predicate Tidy(lines: seq<string>) {
    forall j :: 0 <= j < |lines| && lines[j] == "" ==>
      0 < j < |lines| - 1 && lines[j - 1] != "" && lines[j + 1] != ""
  }

  predicate NoBlank(lines: seq<string>) {
    forall j :: 0 <= j < |lines| ==> lines[j] != ""
  }

  lemma {:induction false} EntryLinesNoBlank(es: seq<Entry>)
    ensures NoBlank(EntryLines(es))
  {
    if es != [] {
      var e := es[|es| - 1];
      EntryLinesNoBlank(es[..|es| - 1]);
      assert |KeyLine(e.key, e.val)| >= 3;
    }
  }

  lemma TidyAppend(a: seq<string>, b: seq<string>)
    requires Tidy(a) && NoBlank(b)
    ensures Tidy(a + b)
  {
    forall j | 0 <= j < |a + b| && (a + b)[j] == ""
      ensures 0 < j < |a + b| - 1 && (a + b)[j - 1] != "" && (a + b)[j + 1] != ""
    {
    }
  }

  /** The separator never doubles a blank line and never opens the text. */
  lemma TidySep(lines: seq<string>, header: string)
    requires Tidy(lines) && header != ""
    ensures Tidy(lines + Sep(lines) + [header])
  {
    var r := lines + Sep(lines) + [header];
    if lines != [] {
      assert lines[|lines| - 1] != "";
      assert r == lines + ["", header];
    } else {
      assert r == [header];
    }
  }

  lemma TidyEntries(lines: seq<string>, es: seq<Entry>)
    requires Tidy(lines)
    ensures Tidy(lines + EntryLines(es))
  {
    EntryLinesNoBlank(es);
    TidyAppend(lines, EntryLines(es));
  }

  lemma {:induction false} TidyElements(lines: seq<string>, path: string, els: seq<Value>)
    requires AllTables(els) && Tidy(lines)
    ensures Tidy(ElementsF(lines, path, els))
  {
    if els != [] {
      var before := ElementsF(lines, path, els[..|els| - 1]);
      TidyElements(lines, path, els[..|els| - 1]);
      TidySep(before, ArrayHeader(path));
      TidyEntries(before + Sep(before) + [ArrayHeader(path)], els[|els| - 1].entries);
    }
  }

  lemma {:induction false} TidyArrays(lines: seq<string>, fullname: string, arrs: seq<Entry>)
    requires InGroup(arrs, TableArray) && Tidy(lines)
    ensures Tidy(ArraysF(lines, fullname, arrs))
  {
    if arrs != [] {
      var e := arrs[|arrs| - 1];
      TidyArrays(lines, fullname, arrs[..|arrs| - 1]);
      TidyElements(ArraysF(lines, fullname, arrs[..|arrs| - 1]), fullname + "." + e.key, e.val.items);
    }
  }

  /** `emit_table` keeps blank lines tidy. */
  lemma {:induction false} TidyEmit(lines: seq<string>, fullname: string, d: seq<Entry>)
    requires Tidy(lines)
    ensures Tidy(EmitTableF(lines, fullname, d))
    decreases d, 1
  {
    var head := lines + Sep(lines) + [Header(fullname)];
    TidySep(lines, Header(fullname));
    TidyEntries(head, Pick(d, Scalar));
    TidyArrays(head + EntryLines(Pick(d, Scalar)), fullname, Pick(d, TableArray));
    TidyNested(ArraysF(head + EntryLines(Pick(d, Scalar)), fullname, Pick(d, TableArray)), fullname, d);
  }

  lemma {:induction false} TidyNested(lines: seq<string>, fullname: string, es: seq<Entry>)
    requires Tidy(lines)
    ensures Tidy(NestedF(lines, fullname, es))
    decreases es, 0
  {
    if es != [] {
      var e := es[|es| - 1];
      TidyNested(lines, fullname, es[..|es| - 1]);
      if e.val.Table? {
        TidyEmit(NestedF(lines, fullname, es[..|es| - 1]), fullname + "." + e.key, e.val.entries);
      }
    }
  }

  lemma {:induction false} TidyRootTables(lines: seq<string>, cfg: seq<Entry>)
    requires Tidy(lines)
    ensures Tidy(RootTablesF(lines, cfg))
  {
    if cfg != [] {
      var e := cfg[|cfg| - 1];
      TidyRootTables(lines, cfg[..|cfg| - 1]);
      if e.val.Table? {
        TidyEmit(RootTablesF(lines, cfg[..|cfg| - 1]), e.key, e.val.entries);
      }
    }
  }

  /** The generated file never starts or ends with a blank line and never
      has two blank lines in a row. */
  lemma FileTidy(cfg: seq<Entry>)
    ensures Tidy(TomlLines(cfg))
  {
    TidyEntries([], Inline(cfg));
    assert [] + EntryLines(Inline(cfg)) == EntryLines(Inline(cfg));
    TidyRootTables(EntryLines(Inline(cfg)), cfg);
  }

  // ----- the text and its lines -----

  /** The first newline at or after i, or the end of the text. */
  function LineEnd(t: string, i: nat): (k: nat)
    requires i <= |t|
    ensures i <= k <= |t| && (k < |t| ==> t[k] == '\n')
    decreases |t| - i
  {
    if i == |t| || t[i] == '\n' then i else LineEnd(t, i + 1)
  }

  /** The lines of a text, each ended by a newline (or by the end). */
  function SplitLines(t: string): seq<string>
    decreases |t|
  {
    if t == [] then []
    else
      var k := LineEnd(t, 0);
      [t[..k]] + (if k < |t| then SplitLines(t[k + 1..]) else [])
  }

  predicate NoNewline(s: string) {
    forall k :: 0 <= k < |s| ==> s[k] != '\n'
  }

  lemma {:induction false} LineEndAt(a: string, rest: string, i: nat)
    requires i <= |a| && NoNewline(a)
    ensures LineEnd(a + "\n" + rest, i) == |a|
    decreases |a| - i
  {
    var t := a + "\n" + rest;
    if i < |a| {
      assert t[i] == a[i];
      LineEndAt(a, rest, i + 1);
    }
  }

  lemma FirstLine(a: string, rest: string)
    requires NoNewline(a)
    ensures SplitLines(a + "\n" + rest) == [a] + SplitLines(rest)
  {
    var t := a + "\n" + rest;
    LineEndAt(a, rest, 0);
    assert t[..|a|] == a && t[|a| + 1..] == rest;
  }

  /** Joining lines with newlines and ending the text with one is undone
      by splitting the text into its lines. */
  lemma {:induction false} SplitJoin(lines: seq<string>)
    requires lines != []
    requires AllOneLine(lines)
    ensures SplitLines(Join(lines, "\n") + "\n") == lines
    decreases |lines|
  {
    if |lines| == 1 {
      FirstLine(lines[0], "");
      assert lines[0] + "\n" + "" == lines[0] + "\n";
    } else {
      var rest := Join(lines[1..], "\n") + "\n";
      assert Join(lines, "\n") + "\n" == lines[0] + "\n" + rest;
      FirstLine(lines[0], rest);
      SplitJoin(lines[1..]);
    }
  }

  // ----- every emitted line is one line of text -----

  /** No string and no key inside v holds a newline. */
  predicate OneLine(v: Value) {
    match v
    case Str(s) => NoNewline(s)
    case Arr(items) => forall k :: 0 <= k < |items| ==> OneLine(items[k])
    case Table(es) => forall k :: 0 <= k < |es| ==> NoNewline(es[k].key) && OneLine(es[k].val)
    case _ => true
  }

  predicate AllOneLine(lines: seq<string>) {
    forall k :: 0 <= k < |lines| ==> NoNewline(lines[k])
  }

  lemma {:induction false} EscapeOneLine(s: string)
    requires NoNewline(s)
    ensures NoNewline(Escape(s))
  {
    if s != [] {
      EscapeOneLine(s[1..]);
      var head := if s[0] == '"' then "\\\"" else [s[0]];
      assert Escape(s) == head + Escape(s[1..]);
    }
  }

  lemma {:induction false} JoinOneLine(parts: seq<string>, sep: string)
    requires NoNewline(sep) && AllOneLine(parts)
    ensures NoNewline(Join(parts, sep))
    decreases |parts|
  {
    if |parts| > 1 {
      JoinOneLine(parts[1..], sep);
    }
  }

  /** `render_scalar_or_array` writes one line. */
  lemma {:induction false} RenderOneLine(v: Value)
    requires OneLine(v)
    ensures NoNewline(RenderValue(v))
    decreases v, 2
  {
    match v
    case Arr(items) =>
      ItemTextsOneLine(items);
      JoinOneLine(ItemTexts(items), ", ");
    case Table(es) =>
      EntryLinesOneLine(es);
      JoinOneLine(EntryLines(es), ", ");
    case Str(s) =>
      EscapeOneLine(s);
    case _ =>
  }

  lemma {:induction false} ItemTextsOneLine(items: seq<Value>)
    requires forall k :: 0 <= k < |items| ==> OneLine(items[k])
    ensures AllOneLine(ItemTexts(items))
    decreases items, 1
  {
    if items != [] {
      var x := items[|items| - 1];
      ItemTextsOneLine(items[..|items| - 1]);
      RenderOneLine(x);
      assert ItemText(x) == RenderValue(x);
    }
  }

  /** Every `k = v` line of a table is one line. */
  lemma {:induction false} EntryLinesOneLine(es: seq<Entry>)
    requires OneLine(Table(es))
    ensures AllOneLine(EntryLines(es))
    decreases es, 1
  {
    if es != [] {
      var e := es[|es| - 1];
      EntryLinesOneLine(es[..|es| - 1]);
      RenderOneLine(e.val);
    }
  }

  lemma ConcatOneLine(a: seq<string>, b: seq<string>)
    requires AllOneLine(a) && AllOneLine(b)
    ensures AllOneLine(a + b)
  {
  }

  lemma HeaderOneLine(lines: seq<string>, header: string, es: seq<Entry>)
    requires AllOneLine(lines) && NoNewline(header) && OneLine(Table(es))
    ensures AllOneLine(lines + Sep(lines) + [header] + EntryLines(es))
  {
    EntryLinesOneLine(es);
  }

  lemma {:induction false} ElementsOneLine(lines: seq<string>, path: string, els: seq<Value>)
    requires AllTables(els) && AllOneLine(lines) && NoNewline(path)
    requires forall k :: 0 <= k < |els| ==> OneLine(els[k])
    ensures AllOneLine(ElementsF(lines, path, els))
  {
    if els != [] {
      ElementsOneLine(lines, path, els[..|els| - 1]);
      HeaderOneLine(ElementsF(lines, path, els[..|els| - 1]), ArrayHeader(path), els[|els| - 1].entries);
    }
  }

  /** The entries of a group keep the property of the whole table. */
  lemma PickOneLine(es: seq<Entry>, g: Group)
    requires OneLine(Table(es))
    ensures OneLine(Table(Pick(es, g)))
  {
    PickFrom(es, g);
    var r := Pick(es, g);
    forall k | 0 <= k < |r|
      ensures NoNewline(r[k].key) && OneLine(r[k].val)
    {
      var j :| 0 <= j < |es| && es[j] == r[k];
    }
  }

  lemma {:induction false} ArraysOneLine(lines: seq<string>, fullname: string, arrs: seq<Entry>)
    requires InGroup(arrs, TableArray) && AllOneLine(lines) && NoNewline(fullname) && OneLine(Table(arrs))
    ensures AllOneLine(ArraysF(lines, fullname, arrs))
  {
    if arrs != [] {
      var e := arrs[|arrs| - 1];
      ArraysOneLine(lines, fullname, arrs[..|arrs| - 1]);
      assert OneLine(e.val);
      ElementsOneLine(ArraysF(lines, fullname, arrs[..|arrs| - 1]), fullname + "." + e.key, e.val.items);
    }
  }

  /** `emit_table` adds one-line lines only. */
  lemma {:induction false} EmitOneLine(lines: seq<string>, fullname: string, d: seq<Entry>)
    requires AllOneLine(lines) && NoNewline(fullname) && OneLine(Table(d))
    ensures AllOneLine(EmitTableF(lines, fullname, d))
    decreases d, 1
  {
    var head := lines + Sep(lines) + [Header(fullname)];
    PickOneLine(d, Scalar);
    PickOneLine(d, TableArray);
    HeaderOneLine(lines, Header(fullname), Pick(d, Scalar));
    ArraysOneLine(head + EntryLines(Pick(d, Scalar)), fullname, Pick(d, TableArray));
    NestedOneLine(ArraysF(head + EntryLines(Pick(d, Scalar)), fullname, Pick(d, TableArray)), fullname, d);
  }

  lemma {:induction false} NestedOneLine(lines: seq<string>, fullname: string, es: seq<Entry>)
    requires AllOneLine(lines) && NoNewline(fullname) && OneLine(Table(es))
    ensures AllOneLine(NestedF(lines, fullname, es))
    decreases es, 0
  {
    if es != [] {
      var e := es[|es| - 1];
      NestedOneLine(lines, fullname, es[..|es| - 1]);
      if e.val.Table? {
        assert OneLine(e.val);
        EmitOneLine(NestedF(lines, fullname, es[..|es| - 1]), fullname + "." + e.key, e.val.entries);
      }
    }
  }

  lemma {:induction false} RootTablesOneLine(lines: seq<string>, cfg: seq<Entry>)
    requires AllOneLine(lines) && OneLine(Table(cfg))
    ensures AllOneLine(RootTablesF(lines, cfg))
  {
    if cfg != [] {
      var e := cfg[|cfg| - 1];
      RootTablesOneLine(lines, cfg[..|cfg| - 1]);
      if e.val.Table? {
        assert OneLine(e.val);
        EmitOneLine(RootTablesF(lines, cfg[..|cfg| - 1]), e.key, e.val.entries);
      }
    }
  }

  lemma {:induction false} InlineOneLine(cfg: seq<Entry>)
    requires OneLine(Table(cfg))
    ensures OneLine(Table(Inline(cfg)))
  {
    if cfg != [] {
      InlineOneLine(cfg[..|cfg| - 1]);
    }
  }

  /** No line `generate_toml` collects holds a newline. */
  lemma FileOneLine(cfg: seq<Entry>)
    requires OneLine(Table(cfg))
    ensures AllOneLine(TomlLines(cfg))
  {
    InlineOneLine(cfg);
    EntryLinesOneLine(Inline(cfg));
    RootTablesOneLine(EntryLines(Inline(cfg)), cfg);
  }

  /** The text of `generate_toml` is its lines, each ended by a newline;
      an empty root mapping gives a single newline. */
  lemma TomlText(cfg: seq<Entry>)
    requires OneLine(Table(cfg))
    ensures TomlLines(cfg) != [] ==> SplitLines(GenerateTomlF(cfg)) == TomlLines(cfg)
    ensures TomlLines(cfg) == [] ==> GenerateTomlF(cfg) == "\n"
  {
    FileOneLine(cfg);
    if TomlLines(cfg) != [] {
      SplitJoin(TomlLines(cfg));
    }
  }
}
