/** The TOML generator of app.py:306-389: renderers that turn a value
    into text, and the emission of the root mapping and its tables as a
    list of lines. */
module Emitter {
  import opened Syntax
  import opened Decimal

  // ----- values as text -----

  /** The types `render_scalar` accepts. */
  predicate IsScalar(v: Value) {
    v.Int? || v.Float? || v.Str? || v.Bool?
  }

  /** `s.replace('"', '\\"')`: a backslash goes before every double quote. */
  function Escape(s: string): (r: string)
    ensures |r| >= |s|
    ensures |r| > 0 ==> r[0] != '"'
    ensures forall k :: 0 <= k < |r| && r[k] == '"' ==> k > 0 && r[k - 1] == '\\'
  {
    if s == [] then []
    else
      var head := if s[0] == '"' then "\\\"" else [s[0]];
      var rest := Escape(s[1..]);
      assert forall k :: |head| <= k < |head + rest| ==> (head + rest)[k] == rest[k - |head|];
      head + rest
  }

  /** Reading a quoted string back: a backslash before a double quote
      stands for the quote. */
  function Unescape(s: string): string {
    if s == [] then []
    else if |s| >= 2 && s[0] == '\\' && s[1] == '"' then "\"" + Unescape(s[2..])
    else [s[0]] + Unescape(s[1..])
  }

  /** The quoting of `render_scalar` loses nothing. */
  lemma {:induction false} EscapeRoundTrip(s: string)
    ensures Unescape(Escape(s)) == s
  {
    if s != [] {
      var rest := Escape(s[1..]);
      EscapeRoundTrip(s[1..]);
      if s[0] == '"' {
        assert Escape(s) == "\\\"" + rest;
        assert Escape(s)[2..] == rest;
      } else {
        assert Escape(s) == [s[0]] + rest;
        assert Escape(s)[1..] == rest;
        assert |rest| > 0 ==> Escape(s)[1] == rest[0];
      }
    }
  }

  /** `render_scalar` (app.py:306-315). A number is written so that the
      number conversion of the parser reads the same value back; a float
      is written as its exact decimal `<mantissa>e<exponent>`. A string is
      quoted, and undoing the escaping gives it back. */
  function RenderScalar(v: Value): (r: string)
    requires IsScalar(v)
    ensures IsNum(v) ==> ParseNumber(r) == v
    ensures v.Str? ==> |r| >= 2 && r[0] == '"' && r[|r| - 1] == '"' && Unescape(r[1..|r| - 1]) == v.s
    ensures v.Bool? ==> (r == "true" <==> v.b) && (r == "false" <==> !v.b)
  {
    match v
    case Bool(b) => if b then "true" else "false"
    case Int(i) => ParseShowInt(i); ShowInt(i)
    case Float(m, e) => ParseShowFloat(m, e); ShowFloat(m, e)
    case Str(s) =>
      EscapeRoundTrip(s);
      var r := "\"" + Escape(s) + "\"";
      assert r[1..|r| - 1] == Escape(s);
      r
  }

  /** `sep.join(parts)`. */
  function Join(parts: seq<string>, sep: string): string {
    if parts == [] then ""
    else if |parts| == 1 then parts[0]
    else parts[0] + sep + Join(parts[1..], sep)
  }

  /** A joined text of several parts followed by a closing mark: the
      first part, `, ` and the join of the others. */
  lemma JoinMore(parts: seq<string>, close: string, rest: string)
    requires |parts| > 1
    ensures Join(parts, ", ") + close + rest == parts[0] + (", " + (Join(parts[1..], ", ") + close + rest))
  {
    var j := Join(parts[1..], ", ");
    var x := parts[0];
    var a := x + ", ";
    var c := close + rest;
    assert Join(parts, ", ") == a + j;
    Assoc(a + j, close, rest);
    Assoc(a, j, c);
    Assoc(x, ", ", j + c);
    Assoc(j, close, rest);
  }

  lemma Assoc(a: string, b: string, c: string)
    ensures a + b + c == a + (b + c)
  {
  }

  lemma JoinOne(parts: seq<string>, close: string, rest: string)
    requires |parts| == 1
    ensures Join(parts, ", ") + close + rest == parts[0] + (close + rest)
  {
  }

  /** `render_scalar_or_array` (app.py:332-339). */
  function RenderValue(v: Value): string
    decreases v, 2
  {
    match v
    case Arr(items) => ArrayText(items)
    case Table(es) => InlineText(es)
    case _ => RenderScalar(v)
  }

  /** `render_array` (app.py:318-325) as a value. */
  function ArrayText(items: seq<Value>): string
    decreases items, 2
  {
    "[" + Join(ItemTexts(items), ", ") + "]"
  }

  /** The `parts` list of `render_array`, one text per element. */
  function ItemTexts(items: seq<Value>): (r: seq<string>)
    ensures |r| == |items|
    decreases items, 1
  {
    if items == [] then []
    else ItemTexts(items[..|items| - 1]) + [ItemText(items[|items| - 1])]
  }

  /** An element of an inline array: a table goes inline, anything else
      through `render_scalar_or_array`. */
  function ItemText(x: Value): string
    decreases x, 3
  {
    if x.Table? then InlineText(x.entries) else RenderValue(x)
  }

  /** `render_inline` (app.py:328-329). */
  function InlineText(es: seq<Entry>): string
    decreases es, 2
  {
    "{ " + Join(EntryLines(es), ", ") + " }"
  }

  /** The text `k = v` of one entry. */
  function KeyLine(key: string, v: Value): string
    decreases v, 3
  {
    key + " = " + RenderValue(v)
  }

  /** `k = v` for every entry, in order. */
  function EntryLines(es: seq<Entry>): (r: seq<string>)
    ensures |r| == |es|
    decreases es, 1
  {
    if es == [] then []
    else EntryLines(es[..|es| - 1]) + [KeyLine(es[|es| - 1].key, es[|es| - 1].val)]
  }

  /** `render_array` (app.py:318-325): the loop that collects the parts. */
  method RenderArray(items: seq<Value>) returns (text: string)
    ensures text == ArrayText(items)
  {
    var parts: seq<string> := [];
    for i := 0 to |items|
      invariant parts == ItemTexts(items[..i])
    {
      assert items[..i + 1][..i] == items[..i];
      var x := items[i];
      if x.Table? {
        parts := parts + [InlineText(x.entries)];
      } else {
        parts := parts + [RenderValue(x)];
      }
    }
    assert items[..|items|] == items;
    text := "[" + Join(parts, ", ") + "]";
  }

  // ----- the three groups of a table's entries -----

  /** How `emit_table` files an entry (app.py:351-357). */
  datatype Group = Scalar | TableArray | Nested

  predicate AllTables(items: seq<Value>) {
    forall k :: 0 <= k < |items| ==> items[k].Table?
  }

  function GroupOf(v: Value): Group {
    if v.Table? then Nested
    else if v.Arr? && |v.items| > 0 && AllTables(v.items) then TableArray
    else Scalar
  }

  predicate InGroup(es: seq<Entry>, g: Group) {
    forall k :: 0 <= k < |es| ==> GroupOf(es[k].val) == g
  }

  /** The entries of group g, in their order in es. */
  function Pick(es: seq<Entry>, g: Group): (r: seq<Entry>)
    ensures |r| <= |es|
    ensures InGroup(r, g)
  {
    if es == [] then []
    else
      var e := es[|es| - 1];
      Pick(es[..|es| - 1], g) + (if GroupOf(e.val) == g then [e] else [])
  }

  // ----- emission as functions of the lines so far -----

  /** The blank line `emit_table` puts before a header when the last line
      is not blank. */
  function Sep(lines: seq<string>): (r: seq<string>)
    ensures r == [] || r == [""]
  {
    if |lines| > 0 && lines[|lines| - 1] != "" then [""] else []
  }

  function Header(fullname: string): string {
    "[" + fullname + "]"
  }

  function ArrayHeader(path: string): string {
    "[[" + path + "]]"
  }

  /** One `[[path]]` block per element of an array of tables. */
  function ElementsF(lines: seq<string>, path: string, els: seq<Value>): seq<string>
    requires AllTables(els)
  {
    if els == [] then lines
    else
      var before := ElementsF(lines, path, els[..|els| - 1]);
      before + Sep(before) + [ArrayHeader(path)] + EntryLines(els[|els| - 1].entries)
  }

  /** The arrays of tables of the table fullname, in order. */
  function ArraysF(lines: seq<string>, fullname: string, arrs: seq<Entry>): seq<string>
    requires InGroup(arrs, TableArray)
  {
    if arrs == [] then lines
    else
      var e := arrs[|arrs| - 1];
      ElementsF(ArraysF(lines, fullname, arrs[..|arrs| - 1]), fullname + "." + e.key, e.val.items)
  }

  /** `emit_table(lines, fullname, d)` (app.py:342-374): the lines after it. */
  function EmitTableF(lines: seq<string>, fullname: string, d: seq<Entry>): seq<string>
    decreases d, 1
  {
    var head := lines + Sep(lines) + [Header(fullname)];
    var scalars := head + EntryLines(Pick(d, Scalar));
    var arrays := ArraysF(scalars, fullname, Pick(d, TableArray));
    NestedF(arrays, fullname, d)
  }

  /** The sub-tables of fullname, in order: the tables among es, each
      emitted under `fullname.k`; other entries are passed over. */
  function NestedF(lines: seq<string>, fullname: string, es: seq<Entry>): seq<string>
    decreases es, 0
  {
    if es == [] then lines
    else
      var before := NestedF(lines, fullname, es[..|es| - 1]);
      var e := es[|es| - 1];
      if e.val.Table? then EmitTableF(before, fullname + "." + e.key, e.val.entries) else before
  }

  /** The entries of the root mapping that are not tables. */
  function Inline(cfg: seq<Entry>): (r: seq<Entry>)
    ensures |r| <= |cfg|
  {
    if cfg == [] then []
    else
      var e := cfg[|cfg| - 1];
      Inline(cfg[..|cfg| - 1]) + (if e.val.Table? then [] else [e])
  }

  /** The second loop of `generate_toml`: each root table emitted under
      its own key. */
  function RootTablesF(lines: seq<string>, cfg: seq<Entry>): seq<string> {
    if cfg == [] then lines
    else
      var before := RootTablesF(lines, cfg[..|cfg| - 1]);
      var e := cfg[|cfg| - 1];
      if e.val.Table? then EmitTableF(before, e.key, e.val.entries) else before
  }

  /** The lines `generate_toml` (app.py:376-389) collects. */
  function TomlLines(cfg: seq<Entry>): seq<string> {
    RootTablesF(EntryLines(Inline(cfg)), cfg)
  }

  /** The text `generate_toml` returns: never empty, and its last
      character is a newline. */
  function GenerateTomlF(cfg: seq<Entry>): (r: string)
    ensures |r| >= 1 && r[|r| - 1] == '\n'
  {
    Join(TomlLines(cfg), "\n") + "\n"
  }

  // ----- emission as in app.py: one list of lines, appended to -----

  /** The entries of d split into the three groups, in one pass
      (app.py:347-357). */
  method Partition(d: seq<Entry>) returns (scalars: seq<Entry>, arrays: seq<Entry>, nested: seq<Entry>)
    ensures scalars == Pick(d, Scalar) && arrays == Pick(d, TableArray) && nested == Pick(d, Nested)
  {
    scalars, arrays, nested := [], [], [];
    for i := 0 to |d|
      invariant scalars == Pick(d[..i], Scalar)
      invariant arrays == Pick(d[..i], TableArray)
      invariant nested == Pick(d[..i], Nested)
    {
      assert d[..i + 1][..i] == d[..i];
      var e := d[i];
      if e.val.Table? {
        nested := nested + [e];
      } else if e.val.Arr? && |e.val.items| > 0 && AllTables(e.val.items) {
        arrays := arrays + [e];
      } else {
        scalars := scalars + [e];
      }
    }
    assert d[..|d|] == d;
  }

  /** The list `lines` of `generate_toml`, which `emit_table` appends to. */
  class LineList {
    var lines: seq<string>

    constructor ()
      ensures lines == []
    {
      lines := [];
    }

    /** `lines.append(f"{k} = {...}")` for each entry, in order. */
    method AppendEntries(es: seq<Entry>)
      modifies this
      ensures lines == old(lines) + EntryLines(es)
    {
      ghost var start := lines;
      for i := 0 to |es|
        invariant lines == start + EntryLines(es[..i])
      {
        assert es[..i + 1][..i] == es[..i];
        lines := lines + [KeyLine(es[i].key, es[i].val)];
      }
      assert es[..|es|] == es;
    }

    /** The blank line before a header, when the last line is not blank. */
    method Separate()
      modifies this
      ensures lines == old(lines) + Sep(old(lines))
    {
      if |lines| > 0 && lines[|lines| - 1] != "" {
        lines := lines + [""];
      }
    }

    /** The `[[path]]` blocks of one array of tables (app.py:365-370). */
    method AppendElements(path: string, els: seq<Value>)
      requires AllTables(els)
      modifies this
      ensures lines == ElementsF(old(lines), path, els)
    {
      ghost var start := lines;
      for i := 0 to |els|
        invariant lines == ElementsF(start, path, els[..i])
      {
        ElementsStep(start, path, els, i);
        Separate();
        lines := lines + [ArrayHeader(path)];
        AppendEntries(els[i].entries);
      }
      assert els[..|els|] == els;
    }

    /** The loop over the arrays of tables (app.py:364-370). */
    method AppendArrays(fullname: string, arrs: seq<Entry>)
      requires InGroup(arrs, TableArray)
      modifies this
      ensures lines == ArraysF(old(lines), fullname, arrs)
    {
      ghost var start := lines;
      for i := 0 to |arrs|
        invariant lines == ArraysF(start, fullname, arrs[..i])
      {
        ArraysStep(start, fullname, arrs, i);
        AppendElements(fullname + "." + arrs[i].key, arrs[i].val.items);
      }
      assert arrs[..|arrs|] == arrs;
    }

    /** `emit_table(lines, fullname, d)` (app.py:342-374). */
    method EmitTable(fullname: string, d: seq<Entry>)
      modifies this
      ensures lines == EmitTableF(old(lines), fullname, d)
      decreases d, 1
    {
      ghost var l0 := lines;
      Separate();
      lines := lines + [Header(fullname)];
      var scalars, arrays, nested := Partition(d);
      AppendEntries(scalars);
      AppendArrays(fullname, arrays);
      ghost var start := lines;
      PickFrom(d, Nested);
      EmitNested(fullname, nested, d);
      NestedPick(start, fullname, d);
    }

    /** The loop over the sub-tables of fullname (app.py:373-374). */
    method EmitNested(fullname: string, nested: seq<Entry>, ghost d: seq<Entry>)
      requires InGroup(nested, Nested)
      requires forall k :: 0 <= k < |nested| ==> nested[k] in d
      modifies this
      ensures lines == NestedF(old(lines), fullname, nested)
      decreases d, 0
    {
      ghost var start := lines;
      for i := 0 to |nested|
        invariant lines == NestedF(start, fullname, nested[..i])
      {
        assert nested[..i + 1][..i] == nested[..i];
        var e := nested[i];
        assert GroupOf(e.val) == Nested;
        EmitTable(fullname + "." + e.key, e.val.entries);
      }
      assert nested[..|nested|] == nested;
    }

    /** The first loop of `generate_toml` (app.py:380-382). */
    method AppendRootValues(cfg: seq<Entry>)
      modifies this
      ensures lines == old(lines) + EntryLines(Inline(cfg))
    {
      ghost var start := lines;
      for i := 0 to |cfg|
        invariant lines == start + EntryLines(Inline(cfg[..i]))
      {
        RootValueStep(start, cfg, i);
        if !cfg[i].val.Table? {
          lines := lines + [KeyLine(cfg[i].key, cfg[i].val)];
        }
      }
      assert cfg[..|cfg|] == cfg;
    }

    /** The second loop of `generate_toml` (app.py:385-387). */
    method EmitRootTables(cfg: seq<Entry>)
      modifies this
      ensures lines == RootTablesF(old(lines), cfg)
    {
      ghost var start := lines;
      for i := 0 to |cfg|
        invariant lines == RootTablesF(start, cfg[..i])
      {
        assert cfg[..i + 1][..i] == cfg[..i];
        if cfg[i].val.Table? {
          EmitTable(cfg[i].key, cfg[i].val.entries);
        }
      }
      assert cfg[..|cfg|] == cfg;
    }
  }

  /** The entries of a group come from the table. */
  lemma {:induction false} PickFrom(es: seq<Entry>, g: Group)
    ensures forall k :: 0 <= k < |Pick(es, g)| ==> Pick(es, g)[k] in es
  {
    if es != [] {
      PickFrom(es[..|es| - 1], g);
      assert forall x :: x in es[..|es| - 1] ==> x in es;
    }
  }

  /** Passing over the other entries is the same as visiting only the
      tables that `emit_table` collected in `nested`. */
  lemma {:induction false} NestedPick(lines: seq<string>, fullname: string, es: seq<Entry>)
    ensures NestedF(lines, fullname, Pick(es, Nested)) == NestedF(lines, fullname, es)
  {
    if es != [] {
      var init := es[..|es| - 1];
      var e := es[|es| - 1];
      NestedPick(lines, fullname, init);
      var p := Pick(init, Nested);
      if e.val.Table? {
        assert (p + [e])[..|p|] == p;
      } else {
        assert Pick(es, Nested) == p;
      }
    }
  }

  /** One turn of the loop over the elements of an array of tables. */
  lemma ElementsStep(lines: seq<string>, path: string, els: seq<Value>, i: nat)
    requires AllTables(els) && i < |els|
    ensures var before := ElementsF(lines, path, els[..i]);
      ElementsF(lines, path, els[..i + 1]) == before + Sep(before) + [ArrayHeader(path)] + EntryLines(els[i].entries)
  {
    assert els[..i + 1][..i] == els[..i];
  }

  /** One turn of the loop over the arrays of tables. */
  lemma ArraysStep(lines: seq<string>, fullname: string, arrs: seq<Entry>, i: nat)
    requires InGroup(arrs, TableArray) && i < |arrs|
    ensures ArraysF(lines, fullname, arrs[..i + 1]) ==
      ElementsF(ArraysF(lines, fullname, arrs[..i]), fullname + "." + arrs[i].key, arrs[i].val.items)
  {
    assert arrs[..i + 1][..i] == arrs[..i];
  }

  /** One turn of the first loop of `generate_toml`. */
  lemma RootValueStep(start: seq<string>, cfg: seq<Entry>, i: nat)
    requires i < |cfg|
    ensures !cfg[i].val.Table? ==>
      start + EntryLines(Inline(cfg[..i + 1])) == start + EntryLines(Inline(cfg[..i])) + [KeyLine(cfg[i].key, cfg[i].val)]
    ensures cfg[i].val.Table? ==> EntryLines(Inline(cfg[..i + 1])) == EntryLines(Inline(cfg[..i]))
  {
    InlineStep(cfg, i);
    var before := Inline(cfg[..i]);
    if !cfg[i].val.Table? {
      EntryLinesSnoc(before, cfg[i]);
    } else {
      assert before + [] == before;
    }
  }

  /** One more root entry adds itself to the inline entries unless it is
      a table. */
  lemma InlineStep(cfg: seq<Entry>, i: nat)
    requires i < |cfg|
    ensures Inline(cfg[..i + 1]) == Inline(cfg[..i]) + (if cfg[i].val.Table? then [] else [cfg[i]])
  {
    var pre := cfg[..i + 1];
    assert pre[..|pre| - 1] == cfg[..i] && pre[|pre| - 1] == cfg[i];
  }

  lemma EntryLinesSnoc(es: seq<Entry>, e: Entry)
    ensures EntryLines(es + [e]) == EntryLines(es) + [KeyLine(e.key, e.val)]
  {
    assert (es + [e])[..|es|] == es;
  }

  /** `generate_toml(cfg)` (app.py:376-389). */
  method GenerateToml(cfg: seq<Entry>) returns (text: string)
    ensures text == GenerateTomlF(cfg)
  {
    var out := new LineList();
    out.AppendRootValues(cfg);
    assert out.lines == EntryLines(Inline(cfg));
    out.EmitRootTables(cfg);
    text := Join(out.lines, "\n") + "\n";
  }
}
