/** A reader of the TOML inline values the generator writes: numbers,
    arrays `[a, b]` and inline tables `{ k = v }`. It is written from the
    TOML side, independently of the renderers of app.py:306-339, and the
    lemmas below show that reading a rendered value gives the value back. */
module TomlRead {
  import opened Syntax
  import opened Decimal
  import opened Lexer
  import opened Parser
  import opened Emitter

  /** What a reading gives: the value and the text after it. */
  datatype Got<T> = Got(val: T, rest: string)

  /** The characters a TOML number is made of. */
  predicate IsNumChar(c: char) {
    IsDigit(c) || c == '-' || c == '+' || c == '.' || c == 'e' || c == 'E'
  }

  /** The end of the run of number characters from i. */
  function NumEnd(s: string, i: nat): (k: nat)
    requires i <= |s|
    ensures i <= k <= |s|
    decreases |s| - i
  {
    if i < |s| && IsNumChar(s[i]) then NumEnd(s, i + 1) else i
  }

  /** One value at the start of s, and the text after it. */
  function ReadValue(s: string): (r: Option<Got<Value>>)
    ensures r.Some? ==> |r.value.rest| < |s|
    decreases |s|, 0
  {
    if s == [] then None
    else if s[0] == '[' then
      if |s| >= 2 && s[1] == ']' then Some(Got(Arr([]), s[2..]))
      else ReadItems(s[1..], [])
    else if s[0] == '{' then
      if |s| >= 4 && s[..4] == "{  }" then Some(Got(Table([]), s[4..]))
      else if |s| >= 2 && s[1] == ' ' then ReadEntries(s[2..], [])
      else None
    else
      var k := NumEnd(s, 0);
      if k == 0 then None else Some(Got(ParseNumber(s[..k]), s[k..]))
  }

  /** The elements of an array after `[` or `, `, up to and including `]`;
      acc holds the elements read so far. */
  function ReadItems(t: string, acc: seq<Value>): (r: Option<Got<Value>>)
    ensures r.Some? ==> |r.value.rest| < |t|
    decreases |t|, 1
  {
    match ReadValue(t)
    case None => None
    case Some(g) =>
      var r := g.rest;
      if |r| >= 2 && r[..2] == ", " then ReadItems(r[2..], acc + [g.val])
      else if |r| >= 1 && r[0] == ']' then Some(Got(Arr(acc + [g.val]), r[1..]))
      else None
  }

  /** The `k = v` pairs of an inline table after `{ ` or `, `, up to and
      including ` }`; acc holds the pairs read so far. */
  function ReadEntries(t: string, acc: seq<Entry>): (r: Option<Got<Value>>)
    ensures r.Some? ==> |r.value.rest| < |t|
    decreases |t|, 1
  {
    var k := WordEnd(t, 0);
    if k == 0 || |t| < k + 3 || t[k..k + 3] != " = " then None
    else
      match ReadValue(t[k + 3..])
      case None => None
      case Some(g) =>
        var e := Entry(t[..k], g.val);
        var r := g.rest;
        if |r| >= 2 && r[..2] == ", " then ReadEntries(r[2..], acc + [e])
        else if |r| >= 2 && r[..2] == " }" then Some(Got(Table(acc + [e]), r[2..]))
        else None
  }

  // ----- reading back what the renderers write -----

  /** The text after a value: nothing, or a character that cannot
      continue a number. */
  predicate Stops(rest: string) {
    rest == [] || !IsNumChar(rest[0])
  }

  lemma {:induction false} NumEndAt(a: string, rest: string, i: nat)
    requires i <= |a| && Stops(rest) && NumChars(a)
    ensures NumEnd(a + rest, i) == |a|
    decreases |a| - i
  {
    if i < |a| {
      assert (a + rest)[i] == a[i];
      NumEndAt(a, rest, i + 1);
    } else if rest != [] {
      assert (a + rest)[|a|] == rest[0];
    }
  }

  predicate NumChars(s: string) {
    forall k :: 0 <= k < |s| ==> IsNumChar(s[k])
  }

  lemma NumCharsConcat(a: string, b: string)
    requires NumChars(a) && NumChars(b)
    ensures NumChars(a + b)
  {
  }

  lemma IntText(i: int)
    ensures |ShowInt(i)| >= 1 && NumChars(ShowInt(i))
  {
  }

  /** The text of a number is made of number characters only. */
  lemma NumberText(v: Value)
    requires IsNum(v)
    ensures |RenderValue(v)| >= 1 && NumChars(RenderValue(v))
  {
    if v.Float? {
      IntText(v.mant);
      IntText(v.exp);
      NumCharsConcat(ShowInt(v.mant), "e");
      NumCharsConcat(ShowInt(v.mant) + "e", ShowInt(v.exp));
      assert RenderValue(v) == ShowInt(v.mant) + "e" + ShowInt(v.exp);
    } else {
      IntText(v.i);
    }
  }

  lemma {:induction false} WordEndAt(w: string, rest: string, i: nat)
    requires i <= |w| && (forall k :: 0 <= k < |w| ==> IsWordChar(w[k]))
    requires rest != [] && !IsWordChar(rest[0])
    ensures WordEnd(w + rest, i) == |w|
    decreases |w| - i
  {
    if i < |w| {
      assert (w + rest)[i] == w[i];
      WordEndAt(w, rest, i + 1);
    } else {
      assert (w + rest)[|w|] == rest[0];
    }
  }

  /** `render_scalar_or_array` (app.py:332-339) loses nothing: for every
      value the parser builds, the reader takes the value back from the
      text and stops right after it. */
  lemma {:induction false} ReadBack(v: Value, rest: string)
    requires Plain(v) && Stops(rest)
    ensures ReadValue(RenderValue(v) + rest) == Some(Got(v, rest))
    decreases v, 3
  {
    if v.Int? || v.Float? {
      var a := RenderValue(v);
      var s := a + rest;
      NumberText(v);
      NumEndAt(a, rest, 0);
      assert s[..|a|] == a && s[|a|..] == rest;
    } else if v.Arr? {
      ArrayBack(v.items, rest);
    } else {
      assert v.Table?;
      TableBack(v.entries, rest);
    }
  }

  lemma ArrayBack(items: seq<Value>, rest: string)
    requires Plain(Arr(items))
    ensures ReadValue(ArrayText(items) + rest) == Some(Got(Arr(items), rest))
    decreases items, 2
  {
    var s := ArrayText(items) + rest;
    if items == [] {
      assert s == "[]" + rest;
    } else {
      var j := Join(ItemTexts(items), ", ");
      ItemsStart(items);
      assert s == "[" + (j + "]" + rest);
      ReadOpenBracket(s);
      assert s[1..] == j + "]" + rest;
      ItemsBack(items, [], rest);
      assert [] + items == items;
    }
  }

  lemma TableBack(es: seq<Entry>, rest: string)
    requires Plain(Table(es))
    ensures ReadValue(InlineText(es) + rest) == Some(Got(Table(es), rest))
    decreases es, 2
  {
    var s := InlineText(es) + rest;
    if es == [] {
      assert s == "{  }" + rest;
    } else {
      var j := Join(EntryLines(es), ", ");
      EntriesStart(es);
      assert s == "{ " + (j + " }" + rest);
      assert s[2] == j[0];
      ReadOpenBrace(s);
      assert s[2..] == j + " }" + rest;
      EntriesBack(es, [], rest);
      assert [] + es == es;
    }
  }

  /** `[` not followed by `]` opens the elements of an array. */
  lemma ReadOpenBracket(s: string)
    requires |s| >= 2 && s[0] == '[' && s[1] != ']'
    ensures ReadValue(s) == ReadItems(s[1..], [])
  {
  }

  /** `{ ` not followed by ` }` opens the pairs of an inline table. */
  lemma ReadOpenBrace(s: string)
    requires |s| >= 3 && s[0] == '{' && s[1] == ' ' && s[2] != ' '
    ensures ReadValue(s) == ReadEntries(s[2..], [])
  {
    if |s| >= 4 {
      assert s[..4][2] == s[2];
    }
  }

  /** `render_array` (app.py:318-325): the elements are read back one by
      one, each separated by `, `, up to the closing `]`. */
  lemma {:induction false} ItemsBack(items: seq<Value>, acc: seq<Value>, rest: string)
    requires |items| >= 1 && Plain(Arr(items))
    ensures ReadItems(Join(ItemTexts(items), ", ") + "]" + rest, acc) == Some(Got(Arr(acc + items), rest))
    decreases items, 1
  {
    if |items| == 1 {
      ItemOnly(items, acc, rest);
    } else {
      assert acc + [items[0]] + items[1..] == acc + items;
      assert Plain(Arr(items[1..])) by {
        assert forall k :: 0 <= k < |items[1..]| ==> items[1..][k] == items[k + 1];
      }
      ItemsBack(items[1..], acc + [items[0]], rest);
      ItemNext(items, acc, rest);
    }
  }

  /** The only element, followed by `]`. */
  lemma ItemOnly(items: seq<Value>, acc: seq<Value>, rest: string)
    requires |items| == 1 && Plain(Arr(items))
    ensures ReadItems(Join(ItemTexts(items), ", ") + "]" + rest, acc) == Some(Got(Arr(acc + items), rest))
    decreases items, 0
  {
    var x := items[0];
    assert acc + items == acc + [x];
    ReadBack(x, "]" + rest);
    ItemLast(RenderValue(x), x, rest, acc);
    ItemsText(items, rest);
  }

  /** The first of several elements: the reader goes on with the others. */
  lemma ItemNext(items: seq<Value>, acc: seq<Value>, rest: string)
    requires |items| > 1 && Plain(Arr(items))
    ensures ReadItems(Join(ItemTexts(items), ", ") + "]" + rest, acc) ==
            ReadItems(Join(ItemTexts(items[1..]), ", ") + "]" + rest, acc + [items[0]])
    decreases items, 0
  {
    var x := items[0];
    var tail := Join(ItemTexts(items[1..]), ", ") + "]" + rest;
    ReadBack(x, ", " + tail);
    ItemThen(RenderValue(x), x, tail, acc);
    ItemsText(items, rest);
  }

  /** The text of the elements: the first one, then either `]` or `, `
      and the text of the others. */
  lemma ItemsText(items: seq<Value>, rest: string)
    requires |items| >= 1
    ensures var first := RenderValue(items[0]);
      var t := Join(ItemTexts(items), ", ") + "]" + rest;
      (|items| == 1 ==> t == first + ("]" + rest)) &&
      (|items| > 1 ==> t == first + (", " + (Join(ItemTexts(items[1..]), ", ") + "]" + rest)))
  {
    ItemTextsFront(items);
    if |items| > 1 {
      JoinMore(ItemTexts(items), "]", rest);
      assert ItemTexts(items)[1..] == ItemTexts(items[1..]);
    } else {
      JoinOne(ItemTexts(items), "]", rest);
    }
  }

  /** An element followed by `, `: the reader goes on after the separator. */
  lemma ItemThen(text: string, v: Value, tail: string, acc: seq<Value>)
    requires ReadValue(text + (", " + tail)) == Some(Got(v, ", " + tail))
    ensures ReadItems(text + (", " + tail), acc) == ReadItems(tail, acc + [v])
  {
    var r := ", " + tail;
    assert r[..2] == ", " && r[2..] == tail;
  }

  /** The last element, followed by `]`: the array is complete. */
  lemma ItemLast(text: string, v: Value, rest: string, acc: seq<Value>)
    requires ReadValue(text + ("]" + rest)) == Some(Got(v, "]" + rest))
    ensures ReadItems(text + ("]" + rest), acc) == Some(Got(Arr(acc + [v]), rest))
  {
    var r := "]" + rest;
    assert r[0] == ']' && r[1..] == rest;
    assert !(|r| >= 2 && r[..2] == ", ");
  }

  /** `render_inline` (app.py:328-329): the `k = v` pairs are read back
      one by one, each separated by `, `, up to the closing ` }`. */
  lemma {:induction false} EntriesBack(es: seq<Entry>, acc: seq<Entry>, rest: string)
    requires |es| >= 1 && Plain(Table(es))
    ensures ReadEntries(Join(EntryLines(es), ", ") + " }" + rest, acc) == Some(Got(Table(acc + es), rest))
    decreases es, 1
  {
    if |es| == 1 {
      EntryLast(es, acc, rest);
    } else {
      assert acc + [es[0]] + es[1..] == acc + es;
      PlainRest(es);
      EntriesBack(es[1..], acc + [es[0]], rest);
      EntryNext(es, acc, rest);
    }
  }

  /** The only pair, followed by ` }`. */
  lemma EntryLast(es: seq<Entry>, acc: seq<Entry>, rest: string)
    requires |es| == 1 && Plain(Table(es))
    ensures ReadEntries(Join(EntryLines(es), ", ") + " }" + rest, acc) == Some(Got(Table(acc + es), rest))
    decreases es, 0
  {
    var e := es[0];
    assert acc + es == acc + [e];
    assert IsIdentifier(e.key) && Plain(e.val);
    ReadBack(e.val, " }" + rest);
    PairLast(e.key, RenderValue(e.val), e.val, rest, acc);
    EntriesText(es, rest);
  }

  /** The first of several pairs: the reader goes on with the others. */
  lemma EntryNext(es: seq<Entry>, acc: seq<Entry>, rest: string)
    requires |es| > 1 && Plain(Table(es))
    ensures ReadEntries(Join(EntryLines(es), ", ") + " }" + rest, acc) ==
            ReadEntries(Join(EntryLines(es[1..]), ", ") + " }" + rest, acc + [es[0]])
    decreases es, 0
  {
    var e := es[0];
    assert IsIdentifier(e.key) && Plain(e.val);
    EntriesText(es, rest);
    var tail := Join(EntryLines(es[1..]), ", ") + " }" + rest;
    ReadBack(e.val, ", " + tail);
    PairThen(e.key, RenderValue(e.val), e.val, tail, acc);
  }

  /** The pairs after the first of a plain table make a plain table. */
  lemma PlainRest(es: seq<Entry>)
    requires |es| >= 1 && Plain(Table(es))
    ensures Plain(Table(es[1..]))
  {
    assert forall k :: 0 <= k < |es[1..]| ==> es[1..][k] == es[k + 1];
  }

  /** The text of the pairs: the first pair, then either ` }` or `, ` and
      the text of the others. */
  lemma EntriesText(es: seq<Entry>, rest: string)
    requires |es| >= 1
    ensures var first := es[0].key + " = " + RenderValue(es[0].val);
      var t := Join(EntryLines(es), ", ") + " }" + rest;
      (|es| == 1 ==> t == first + (" }" + rest)) &&
      (|es| > 1 ==> t == first + (", " + (Join(EntryLines(es[1..]), ", ") + " }" + rest)))
  {
    EntryLinesFront(es);
    if |es| > 1 {
      JoinMore(EntryLines(es), " }", rest);
      assert EntryLines(es)[1..] == EntryLines(es[1..]);
    } else {
      JoinOne(EntryLines(es), " }", rest);
    }
  }

  /** A pair followed by `, `: the reader goes on after the separator. */
  lemma PairThen(key: string, text: string, v: Value, tail: string, acc: seq<Entry>)
    requires IsIdentifier(key) && ReadValue(text + (", " + tail)) == Some(Got(v, ", " + tail))
    ensures ReadEntries(key + " = " + text + (", " + tail), acc) == ReadEntries(tail, acc + [Entry(key, v)])
  {
    var after := ", " + tail;
    var t := key + " = " + text + after;
    PairName(key, text, after);
    var k := |key|;
    assert ReadValue(t[k + 3..]) == Some(Got(v, after));
    assert t[..k] == key;
    assert after[..2] == ", " && after[2..] == tail;
  }

  /** The last pair, followed by ` }`: the table is complete. */
  lemma PairLast(key: string, text: string, v: Value, rest: string, acc: seq<Entry>)
    requires IsIdentifier(key) && ReadValue(text + (" }" + rest)) == Some(Got(v, " }" + rest))
    ensures ReadEntries(key + " = " + text + (" }" + rest), acc) == Some(Got(Table(acc + [Entry(key, v)]), rest))
  {
    var after := " }" + rest;
    var t := key + " = " + text + after;
    PairName(key, text, after);
    var k := |key|;
    assert ReadValue(t[k + 3..]) == Some(Got(v, after));
    assert t[..k] == key;
    assert after[..2] == " }" && after[2..] == rest;
    assert after[..2] != ", ";
  }

  /** The name of a pair ends at the blank before `=`. */
  lemma PairName(key: string, text: string, after: string)
    requires IsIdentifier(key)
    ensures var t := key + " = " + text + after;
      var k := WordEnd(t, 0);
      k == |key| && t[..k] == key && |t| >= k + 3 && t[k..k + 3] == " = " && t[k + 3..] == text + after
  {
    var t := key + " = " + text + after;
    assert t == key + (" = " + text + after);
    WordEndAt(key, " = " + text + after, 0);
  }

  /** An element of an array is written by `render_scalar_or_array`,
      tables included. */
  lemma {:induction false} ItemTextsFront(items: seq<Value>)
    requires |items| >= 1
    ensures ItemTexts(items) == [RenderValue(items[0])] + ItemTexts(items[1..])
  {
    if |items| > 1 {
      var init := items[..|items| - 1];
      assert init[1..] == items[1..|items| - 1] == items[1..][..|items| - 2];
      assert init[0] == items[0];
      ItemTextsFront(init);
      InlineItem(items[|items| - 1]);
    } else {
      InlineItem(items[0]);
    }
  }

  /** An element's text is its value's text: a table is inline either way. */
  lemma InlineItem(x: Value)
    ensures ItemText(x) == RenderValue(x)
  {
  }

  lemma {:induction false} EntryLinesFront(es: seq<Entry>)
    requires |es| >= 1
    ensures EntryLines(es) == [KeyLine(es[0].key, es[0].val)] + EntryLines(es[1..])
  {
    if |es| > 1 {
      var init := es[..|es| - 1];
      EntryLinesFront(init);
      assert init[1..] == es[1..|es| - 1] == es[1..][..|es| - 2];
    }
  }

  /** The text of a value starts with `[`, `{` or a number character. */
  lemma FirstChar(v: Value)
    requires Plain(v)
    ensures var r := RenderValue(v);
      |r| >= 1 && (r[0] == '[' || r[0] == '{' || IsNumChar(r[0]))
  {
    if IsNum(v) {
      NumberText(v);
    }
  }

  /** The elements of a non-empty array do not start with `]`. */
  lemma ItemsStart(items: seq<Value>)
    requires |items| >= 1 && Plain(Arr(items))
    ensures var j := Join(ItemTexts(items), ", ");
      |j| >= 1 && j[0] != ']'
  {
    ItemTextsFront(items);
    FirstChar(items[0]);
    if |items| > 1 {
      assert ItemTexts(items)[1..] == ItemTexts(items[1..]);
    }
  }

  /** The pairs of a table the parser builds start with a name, never
      with a blank. */
  lemma EntriesStart(es: seq<Entry>)
    requires |es| >= 1 && Plain(Table(es))
    ensures var j := Join(EntryLines(es), ", ");
      |j| >= 1 && j[0] != ' '
  {
    EntryLinesFront(es);
    var first := KeyLine(es[0].key, es[0].val);
    assert IsIdentifier(es[0].key);
    assert first[0] == es[0].key[0];
    if |es| > 1 {
      assert EntryLines(es)[1..] == EntryLines(es[1..]);
    }
  }
}
