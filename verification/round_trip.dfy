/** The parser reads back what a value's own syntax spells. A token list
    spells a value when it holds the value's number literals, `[ … ; … ]`
    around its array elements and `begin k := v ; … end` around its table
    entries, in order. Parsing such a list with `parse_value`
    (app.py:197-252) gives back the same value, elements and keys in the
    same order, and stops right after the spelling, exactly when no table
    in the value repeats a key; otherwise the parse fails with a
    duplicate-key error.

    The proof steps speak through non-recursive predicates (DeepUnique,
    ValueAt, ValueReads and their kin) that name one recursive fact each,
    so that what a step must establish is word for word what an earlier
    step gave it. */
module RoundTrip {
  import opened Syntax
  import opened Decimal
  import opened Parser

  // ----- no table repeats a key -----

  /** No table anywhere in the value repeats a key. */
  predicate DeepUnique(v: Value) {
    UniqueIn(v)
  }

  /** No table anywhere in the elements repeats a key. */
  predicate ItemsUnique(xs: seq<Value>) {
    UniqueInItems(xs)
  }

  /** Read after the entries d, the entries es bring no key twice, and no
      table inside their values repeats a key. */
  predicate EntriesUnique(d: seq<Entry>, es: seq<Entry>) {
    NewKeys(KeySet(d), es) && UniqueInVals(es)
  }

  predicate UniqueIn(v: Value)
    decreases v, 1
  {
    match v
    case Arr(items) => UniqueInItems(items)
    case Table(es) => NewKeys({}, es) && UniqueInVals(es)
    case _ => true
  }

  predicate UniqueInItems(xs: seq<Value>)
    decreases xs, 0
  {
    xs == [] || (UniqueIn(xs[0]) && UniqueInItems(xs[1..]))
  }

  predicate UniqueInVals(es: seq<Entry>)
    decreases es, 0
  {
    es == [] || (UniqueIn(es[0].val) && UniqueInVals(es[1..]))
  }

  /** Read in order, every key of `es` is new: not in `seen` and not
      among the keys before it. */
  predicate NewKeys(seen: set<string>, es: seq<Entry>)
    decreases es
  {
    es == [] || (es[0].key !in seen && NewKeys(seen + {es[0].key}, es[1..]))
  }

  /** The key was read among the entries d. */
  predicate Seen(d: seq<Entry>, key: string) {
    key in KeySet(d)
  }

  /** The keys of a list of entries. */
  function KeySet(d: seq<Entry>): set<string> {
    if d == [] then {} else {d[0].key} + KeySet(d[1..])
  }

  // ----- how many tokens spell a value -----

  /** The number of tokens that spell v. */
  function Width(v: Value): nat {
    Span(v)
  }

  /** The number of tokens that spell further elements, `;` included. */
  function TailWidth(xs: seq<Value>): nat {
    TailSpan(xs)
  }

  /** The number of tokens that spell table entries. */
  function EntriesWidth(es: seq<Entry>): nat {
    EntriesSpan(es)
  }

  function Span(v: Value): nat
    decreases v, 2
  {
    match v
    case Arr(items) => 2 + ItemsSpan(items)
    case Table(es) => 2 + EntriesSpan(es)
    case _ => 1
  }

  function ItemsSpan(items: seq<Value>): nat
    decreases items, 1
  {
    if items == [] then 0 else Span(items[0]) + TailSpan(items[1..])
  }

  function TailSpan(items: seq<Value>): nat
    decreases items, 0
  {
    if items == [] then 0 else 1 + Span(items[0]) + TailSpan(items[1..])
  }

  function EntriesSpan(es: seq<Entry>): nat
    decreases es, 0
  {
    if es == [] then 0 else 3 + Span(es[0].val) + EntriesSpan(es[1..])
  }

  // ----- the spelling relation -----

  /** The tokens from cursor p on spell v: a number token whose text reads
      as v, or the brackets or `begin`/`end` around the spelling of the
      elements or entries. Strings and booleans have no spelling. */
  predicate SpellsValue(toks: seq<Token>, p: nat, v: Value)
    decreases v, 2
  {
    p + Width(v) <= |toks| &&
    match v
    case Int(_) => toks[p].kind == Number && ParseNumber(toks[p].lexeme) == v
    case Float(_, _) => toks[p].kind == Number && ParseNumber(toks[p].lexeme) == v
    case Arr(items) =>
      toks[p].kind == LBracket && SpellsItems(toks, p + 1, items) &&
      toks[p + 1 + ItemsSpan(items)].kind == RBracket
    case Table(es) =>
      toks[p].kind == Begin && SpellsEntries(toks, p + 1, es) &&
      toks[p + 1 + EntriesWidth(es)].kind == End
    case Str(_) => false
    case Bool(_) => false
  }

  /** Array elements separated by `;`. */
  predicate SpellsItems(toks: seq<Token>, p: nat, items: seq<Value>)
    decreases items, 1
  {
    items == [] ||
    (SpellsValue(toks, p, items[0]) && SpellsTail(toks, p + Width(items[0]), items[1..]))
  }

  /** Further array elements, each after its `;`. */
  predicate SpellsTail(toks: seq<Token>, p: nat, items: seq<Value>)
    decreases items, 0
  {
    items == [] ||
    (p < |toks| && toks[p].kind == Semicolon &&
     SpellsValue(toks, p + 1, items[0]) && SpellsTail(toks, p + 1 + Width(items[0]), items[1..]))
  }

  /** Table entries `key := value ;`. */
  predicate SpellsEntries(toks: seq<Token>, p: nat, es: seq<Entry>)
    decreases es, 0
  {
    es == [] ||
    (p + 3 + Width(es[0].val) <= |toks| &&
     toks[p].kind == Ident && toks[p].lexeme == es[0].key && toks[p + 1].kind == Assign &&
     SpellsValue(toks, p + 2, es[0].val) && toks[p + 2 + Width(es[0].val)].kind == Semicolon &&
     SpellsEntries(toks, p + 3 + Width(es[0].val), es[1..]))
  }

  /** A terminated token list spells v from p on, and goes on past it. */
  predicate ValueAt(toks: seq<Token>, p: nat, v: Value) {
    Terminated(toks) && p + Width(v) < |toks| && SpellsValue(toks, p, v)
  }

  /** Further array elements from p on, then `]`. */
  predicate TailAt(toks: seq<Token>, p: nat, xs: seq<Value>) {
    Terminated(toks) && p + TailWidth(xs) < |toks| && SpellsTail(toks, p, xs) &&
    toks[p + TailWidth(xs)].kind == RBracket
  }

  /** Table entries from p on, then `end`. */
  predicate EntriesAt(toks: seq<Token>, p: nat, es: seq<Entry>) {
    Terminated(toks) && p + EntriesWidth(es) < |toks| && SpellsEntries(toks, p, es) &&
    toks[p + EntriesWidth(es)].kind == End
  }

  // ----- what the parser does at a cursor -----

  predicate IsDuplicateKeyError<T>(r: Result<T>) {
    r.Err? && r.error.DuplicateKey?
  }

  /** `parse_value` at p reads v and stops at q. */
  predicate ValueReads(toks: seq<Token>, consts: map<string, Value>, p: nat, v: Value, q: nat) {
    Terminated(toks) && p < |toks| && ValueF(toks, consts, p) == Ok(Parsed(v, q))
  }

  /** The loop of `parse_array`, after the elements acc, reads v and stops at q. */
  predicate RestReads(toks: seq<Token>, consts: map<string, Value>, p: nat, acc: seq<Value>, v: Value, q: nat) {
    Terminated(toks) && p < |toks| && ArrayRestF(toks, consts, p, acc) == Ok(Parsed(v, q))
  }

  /** The loop of `parse_dict`, after the entries d, reads v and stops at q. */
  predicate EntriesRead(toks: seq<Token>, consts: map<string, Value>, p: nat, d: seq<Entry>, v: Value, q: nat) {
    Terminated(toks) && p < |toks| && DictRestF(toks, consts, p, d) == Ok(Parsed(v, q))
  }

  /** `parse_value` at p fails with a duplicate-key error. */
  predicate ValueDup(toks: seq<Token>, consts: map<string, Value>, p: nat) {
    Terminated(toks) && p < |toks| && IsDuplicateKeyError(ValueF(toks, consts, p))
  }

  predicate RestDup(toks: seq<Token>, consts: map<string, Value>, p: nat, acc: seq<Value>) {
    Terminated(toks) && p < |toks| && IsDuplicateKeyError(ArrayRestF(toks, consts, p, acc))
  }

  predicate EntriesDup(toks: seq<Token>, consts: map<string, Value>, p: nat, d: seq<Entry>) {
    Terminated(toks) && p < |toks| && IsDuplicateKeyError(DictRestF(toks, consts, p, d))
  }

  // ----- the spelling of an array or a table, taken apart one level -----

  /** A value's spelling starts with a token that can start a value. */
  lemma SpellingStart(toks: seq<Token>, p: nat, v: Value)
    requires SpellsValue(toks, p, v)
    ensures toks[p].kind == Number || toks[p].kind == LBracket || toks[p].kind == Begin
  {
  }

  lemma ArrayShape(toks: seq<Token>, p: nat, v: Value)
    requires ValueAt(toks, p, v) && v.Arr? && v.items != []
    ensures Width(v) == 2 + Width(v.items[0]) + TailWidth(v.items[1..])
    ensures toks[p].kind == LBracket && toks[p + 1].kind != RBracket
    ensures ValueAt(toks, p + 1, v.items[0])
    ensures TailAt(toks, p + 1 + Width(v.items[0]), v.items[1..])
  {
    assert SpellsItems(toks, p + 1, v.items);
    SpellingStart(toks, p + 1, v.items[0]);
  }

  lemma TailShape(toks: seq<Token>, p: nat, xs: seq<Value>)
    requires TailAt(toks, p, xs) && xs != []
    ensures TailWidth(xs) == 1 + Width(xs[0]) + TailWidth(xs[1..])
    ensures toks[p].kind == Semicolon && toks[p + 1].kind != RBracket
    ensures ValueAt(toks, p + 1, xs[0])
    ensures TailAt(toks, p + 1 + Width(xs[0]), xs[1..])
  {
    SpellingStart(toks, p + 1, xs[0]);
  }

  lemma TableShape(toks: seq<Token>, p: nat, v: Value)
    requires ValueAt(toks, p, v) && v.Table?
    ensures Width(v) == 2 + EntriesWidth(v.entries) && toks[p].kind == Begin
    ensures EntriesAt(toks, p + 1, v.entries)
    ensures DeepUnique(v) <==> EntriesUnique([], v.entries)
  {
  }

  lemma EntriesShape(toks: seq<Token>, p: nat, es: seq<Entry>)
    requires EntriesAt(toks, p, es) && es != []
    ensures EntriesWidth(es) == 3 + Width(es[0].val) + EntriesWidth(es[1..])
    ensures toks[p].kind == Ident && toks[p].lexeme == es[0].key && toks[p + 1].kind == Assign
    ensures ValueAt(toks, p + 2, es[0].val)
    ensures toks[p + 2 + Width(es[0].val)].kind == Semicolon
    ensures EntriesAt(toks, p + 3 + Width(es[0].val), es[1..])
  {
    assert SpellsEntries(toks, p, es);
  }

  lemma ArrayUniqueSplit(v: Value)
    requires v.Arr? && v.items != []
    ensures DeepUnique(v) <==> DeepUnique(v.items[0]) && ItemsUnique(v.items[1..])
  {
    assert UniqueIn(v) <==> UniqueInItems(v.items);
  }

  lemma ItemsUniqueSplit(xs: seq<Value>)
    requires xs != []
    ensures ItemsUnique(xs) <==> DeepUnique(xs[0]) && ItemsUnique(xs[1..])
  {
  }

  lemma EmptyItemsUnique(xs: seq<Value>)
    requires xs == []
    ensures ItemsUnique(xs)
  {
  }

  lemma EmptyArrayUnique(v: Value)
    requires v == Arr([])
    ensures DeepUnique(v)
  {
    assert UniqueInItems(v.items);
  }

  // ----- one step of each parsing loop, each proved by unfolding the
  // parser once, with nothing else in view -----

  lemma NumberParses(v: Value, toks: seq<Token>, consts: map<string, Value>, p: nat)
    requires ValueAt(toks, p, v) && !v.Arr? && !v.Table?
    ensures ValueReads(toks, consts, p, v, p + Width(v))
  {
  }

  lemma EmptyArrayParses(v: Value, toks: seq<Token>, consts: map<string, Value>, p: nat)
    requires ValueAt(toks, p, v) && v == Arr([])
    ensures ValueReads(toks, consts, p, v, p + Width(v))
  {
  }

  /** `[`, a first element, then the rest of the array up to `]`. */
  lemma ArrayDone(v: Value, toks: seq<Token>, consts: map<string, Value>, p: nat)
    requires ValueAt(toks, p, v) && v.Arr? && v.items != []
    requires ValueReads(toks, consts, p + 1, v.items[0], p + 1 + Width(v.items[0]))
    requires RestReads(toks, consts, p + 1 + Width(v.items[0]), [v.items[0]],
      Arr([v.items[0]] + v.items[1..]), p + 1 + Width(v.items[0]) + TailWidth(v.items[1..]) + 1)
    ensures ValueReads(toks, consts, p, v, p + Width(v))
  {
    ArrayShape(toks, p, v);
    SplitFirst(v.items);
  }

  lemma ArrayFirstDup(v: Value, toks: seq<Token>, consts: map<string, Value>, p: nat)
    requires ValueAt(toks, p, v) && v.Arr? && v.items != []
    requires ValueDup(toks, consts, p + 1)
    ensures ValueDup(toks, consts, p)
  {
    ArrayShape(toks, p, v);
  }

  lemma ArrayRestFails(v: Value, toks: seq<Token>, consts: map<string, Value>, p: nat)
    requires ValueAt(toks, p, v) && v.Arr? && v.items != []
    requires ValueReads(toks, consts, p + 1, v.items[0], p + 1 + Width(v.items[0]))
    requires RestDup(toks, consts, p + 1 + Width(v.items[0]), [v.items[0]])
    ensures ValueDup(toks, consts, p)
  {
    ArrayShape(toks, p, v);
  }

  /** `]` after the last element. */
  lemma ItemsEnd(toks: seq<Token>, consts: map<string, Value>, p: nat, acc: seq<Value>, xs: seq<Value>)
    requires TailAt(toks, p, xs) && xs == []
    ensures RestReads(toks, consts, p, acc, Arr(acc + xs), p + TailWidth(xs) + 1)
  {
    AppendNothing(acc);
  }

  /** `;`, one more element, then the rest of the array. */
  lemma ItemsNext(toks: seq<Token>, consts: map<string, Value>, p: nat, acc: seq<Value>, xs: seq<Value>)
    requires TailAt(toks, p, xs) && xs != []
    requires ValueReads(toks, consts, p + 1, xs[0], p + 1 + Width(xs[0]))
    requires RestReads(toks, consts, p + 1 + Width(xs[0]), acc + [xs[0]],
      Arr(acc + [xs[0]] + xs[1..]), p + 1 + Width(xs[0]) + TailWidth(xs[1..]) + 1)
    ensures RestReads(toks, consts, p, acc, Arr(acc + xs), p + TailWidth(xs) + 1)
  {
    TailShape(toks, p, xs);
    MoveFirst(acc, xs);
  }

  lemma ItemFails(toks: seq<Token>, consts: map<string, Value>, p: nat, acc: seq<Value>, xs: seq<Value>)
    requires TailAt(toks, p, xs) && xs != []
    requires ValueDup(toks, consts, p + 1)
    ensures RestDup(toks, consts, p, acc)
  {
    TailShape(toks, p, xs);
  }

  lemma LaterItemFails(toks: seq<Token>, consts: map<string, Value>, p: nat, acc: seq<Value>, xs: seq<Value>)
    requires TailAt(toks, p, xs) && xs != []
    requires ValueReads(toks, consts, p + 1, xs[0], p + 1 + Width(xs[0]))
    requires RestDup(toks, consts, p + 1 + Width(xs[0]), acc + [xs[0]])
    ensures RestDup(toks, consts, p, acc)
  {
    TailShape(toks, p, xs);
  }

  /** `begin`, then the entries up to `end`. */
  lemma TableDone(v: Value, toks: seq<Token>, consts: map<string, Value>, p: nat)
    requires ValueAt(toks, p, v) && v.Table?
    requires EntriesRead(toks, consts, p + 1, [], Table([] + v.entries), p + 1 + EntriesWidth(v.entries) + 1)
    ensures ValueReads(toks, consts, p, v, p + Width(v))
  {
    TableShape(toks, p, v);
    AppendNothing(v.entries);
  }

  lemma TableFailsInside(v: Value, toks: seq<Token>, consts: map<string, Value>, p: nat)
    requires ValueAt(toks, p, v) && v.Table?
    requires EntriesDup(toks, consts, p + 1, [])
    ensures ValueDup(toks, consts, p)
  {
    TableShape(toks, p, v);
  }

  /** `end` after the last entry. */
  lemma EntriesEnd(toks: seq<Token>, consts: map<string, Value>, p: nat, d: seq<Entry>, es: seq<Entry>)
    requires EntriesAt(toks, p, es) && es == []
    ensures EntriesRead(toks, consts, p, d, Table(d + es), p + EntriesWidth(es) + 1)
  {
    AppendNothing(d);
  }

  /** `key := value ;` with a new key, then the rest of the table. */
  lemma EntriesNext(toks: seq<Token>, consts: map<string, Value>, p: nat, d: seq<Entry>, es: seq<Entry>)
    requires EntriesAt(toks, p, es) && es != [] && !Seen(d, es[0].key)
    requires ValueReads(toks, consts, p + 2, es[0].val, p + 2 + Width(es[0].val))
    requires EntriesRead(toks, consts, p + 3 + Width(es[0].val), d + [es[0]],
      Table(d + [es[0]] + es[1..]), p + 3 + Width(es[0].val) + EntriesWidth(es[1..]) + 1)
    ensures EntriesRead(toks, consts, p, d, Table(d + es), p + EntriesWidth(es) + 1)
  {
    KeysHasKey(d, es[0].key);
    EntriesShape(toks, p, es);
    DictRestStep(toks, consts, p, d);
    MoveFirst(d, es);
  }

  lemma EntryValueFails(toks: seq<Token>, consts: map<string, Value>, p: nat, d: seq<Entry>, es: seq<Entry>)
    requires EntriesAt(toks, p, es) && es != []
    requires ValueDup(toks, consts, p + 2)
    ensures EntriesDup(toks, consts, p, d)
  {
    EntriesShape(toks, p, es);
    DictRestStep(toks, consts, p, d);
  }

  /** A key already read is refused once its value has been parsed. */
  lemma RepeatedKey(toks: seq<Token>, consts: map<string, Value>, p: nat, d: seq<Entry>, es: seq<Entry>)
    requires EntriesAt(toks, p, es) && es != [] && Seen(d, es[0].key)
    requires ValueReads(toks, consts, p + 2, es[0].val, p + 2 + Width(es[0].val))
    ensures EntriesDup(toks, consts, p, d)
  {
    KeysHasKey(d, es[0].key);
    EntriesShape(toks, p, es);
    DictRestStep(toks, consts, p, d);
  }

  lemma LaterEntryFails(toks: seq<Token>, consts: map<string, Value>, p: nat, d: seq<Entry>, es: seq<Entry>)
    requires EntriesAt(toks, p, es) && es != [] && !Seen(d, es[0].key)
    requires ValueReads(toks, consts, p + 2, es[0].val, p + 2 + Width(es[0].val))
    requires EntriesDup(toks, consts, p + 3 + Width(es[0].val), d + [es[0]])
    ensures EntriesDup(toks, consts, p, d)
  {
    KeysHasKey(d, es[0].key);
    EntriesShape(toks, p, es);
    DictRestStep(toks, consts, p, d);
    assert es[0] == Entry(toks[p].lexeme, es[0].val);
  }

  // ----- sequence identities, each proved apart from the parser -----

  lemma AppendNothing<T>(xs: seq<T>)
    ensures [] + xs == xs && xs + [] == xs
  {
  }

  lemma SplitFirst<T>(xs: seq<T>)
    requires xs != []
    ensures [xs[0]] + xs[1..] == xs
  {
  }

  lemma MoveFirst<T>(acc: seq<T>, xs: seq<T>)
    requires xs != []
    ensures acc + [xs[0]] + xs[1..] == acc + xs
  {
  }

  // ----- the keys read so far -----

  lemma {:induction false} KeysHasKey(d: seq<Entry>, key: string)
    ensures key in KeySet(d) <==> HasKey(d, key)
  {
    if d != [] {
      KeysHasKey(d[1..], key);
      if HasKey(d[1..], key) {
        var k :| 0 <= k < |d[1..]| && d[1..][k].key == key;
        assert d[k + 1].key == key;
      }
      if HasKey(d, key) && d[0].key != key {
        var k :| 0 <= k < |d| && d[k].key == key;
        assert d[1..][k - 1].key == key;
      }
    }
  }

  lemma {:induction false} KeysAppend(d: seq<Entry>, e: Entry)
    ensures KeySet(d + [e]) == KeySet(d) + {e.key}
  {
    if d != [] {
      assert (d + [e])[1..] == d[1..] + [e];
      KeysAppend(d[1..], e);
    }
  }

  /** The parser's test for a repeated key, and the test inside the
      first value, taken one entry at a time. */
  lemma EntryStep(d: seq<Entry>, es: seq<Entry>)
    requires es != []
    ensures EntriesUnique(d, es) <==>
      DeepUnique(es[0].val) && !Seen(d, es[0].key) && EntriesUnique(d + [es[0]], es[1..])
  {
    KeysAppend(d, es[0]);
  }

  /** Reading the keys in order finds none twice exactly when the list
      has no repeated key. */
  lemma {:induction false} NewKeysUnique(seen: set<string>, es: seq<Entry>)
    ensures NewKeys(seen, es) <==> UniqueKeys(es) && forall k :: 0 <= k < |es| ==> es[k].key !in seen
    decreases es
  {
    if es != [] {
      var rest := es[1..];
      NewKeysUnique(seen + {es[0].key}, rest);
      if UniqueKeys(es) && (forall k :: 0 <= k < |es| ==> es[k].key !in seen) {
        forall j, k | 0 <= j < k < |rest|
          ensures rest[j].key != rest[k].key
        {
          assert rest[j] == es[j + 1] && rest[k] == es[k + 1];
        }
        forall k | 0 <= k < |rest|
          ensures rest[k].key !in seen + {es[0].key}
        {
          assert rest[k] == es[k + 1];
        }
      }
      if NewKeys(seen, es) {
        forall j, k | 0 <= j < k < |es|
          ensures es[j].key != es[k].key
        {
          assert es[k] == rest[k - 1];
          if j > 0 {
            assert es[j] == rest[j - 1];
          }
        }
        forall k | 0 <= k < |es|
          ensures es[k].key !in seen
        {
          if k > 0 {
            assert es[k] == rest[k - 1];
          }
        }
      }
    }
  }

  lemma {:induction false} UniqueInValsAll(es: seq<Entry>)
    ensures UniqueInVals(es) <==> forall k :: 0 <= k < |es| ==> DeepUnique(es[k].val)
  {
    if es != [] {
      UniqueInValsAll(es[1..]);
      assert forall k :: 1 <= k < |es| ==> es[k] == es[1..][k - 1];
    }
  }

  lemma {:induction false} UniqueInItemsAll(xs: seq<Value>)
    ensures UniqueInItems(xs) <==> forall k :: 0 <= k < |xs| ==> DeepUnique(xs[k])
  {
    if xs != [] {
      UniqueInItemsAll(xs[1..]);
      assert forall k :: 1 <= k < |xs| ==> xs[k] == xs[1..][k - 1];
    }
  }

  /** A table has no repeated key anywhere exactly when its own keys are
      distinct, as the parser checks them, and no value inside repeats
      a key. */
  lemma TableUnique(es: seq<Entry>)
    ensures DeepUnique(Table(es)) <==> UniqueKeys(es) && forall k :: 0 <= k < |es| ==> DeepUnique(es[k].val)
  {
    NewKeysUnique({}, es);
    UniqueInValsAll(es);
  }

  /** An array has no repeated key anywhere exactly when none of its
      elements has. */
  lemma ArrayUnique(xs: seq<Value>)
    ensures DeepUnique(Arr(xs)) <==> forall k :: 0 <= k < |xs| ==> DeepUnique(xs[k])
  {
    UniqueInItemsAll(xs);
  }

  // ----- a spelling without repeated keys parses back to its value -----

  lemma {:induction false} ValueParses(v: Value, toks: seq<Token>, consts: map<string, Value>, p: nat)
    requires ValueAt(toks, p, v) && DeepUnique(v)
    ensures ValueReads(toks, consts, p, v, p + Width(v))
    decreases v, 2
  {
    if v.Arr? && v.items == [] {
      EmptyArrayParses(v, toks, consts, p);
    } else if v.Arr? {
      ArrayParses(v, toks, consts, p);
    } else if v.Table? {
      TableParses(v, toks, consts, p);
    } else {
      NumberParses(v, toks, consts, p);
    }
  }

  lemma {:induction false} ArrayParses(v: Value, toks: seq<Token>, consts: map<string, Value>, p: nat)
    requires ValueAt(toks, p, v) && DeepUnique(v) && v.Arr? && v.items != []
    ensures ValueReads(toks, consts, p, v, p + Width(v))
    decreases v, 1
  {
    ArrayUniqueSplit(v);
    ArrayShape(toks, p, v);
    ArrayFirstParses(v, toks, consts, p);
    ItemsParse(v.items[1..], [v.items[0]], toks, consts, p + 1 + Width(v.items[0]));
    ArrayDone(v, toks, consts, p);
  }

  /** The first element of an array parses back when it repeats no key. */
  lemma {:induction false} ArrayFirstParses(v: Value, toks: seq<Token>, consts: map<string, Value>, p: nat)
    requires v.Arr? && v.items != [] && ValueAt(toks, p + 1, v.items[0]) && DeepUnique(v.items[0])
    ensures ValueReads(toks, consts, p + 1, v.items[0], p + 1 + Width(v.items[0]))
    decreases v, 0
  {
    ValueParses(v.items[0], toks, consts, p + 1);
  }

  lemma {:induction false} ItemsParse(xs: seq<Value>, acc: seq<Value>, toks: seq<Token>, consts: map<string, Value>, p: nat)
    requires TailAt(toks, p, xs) && ItemsUnique(xs)
    ensures RestReads(toks, consts, p, acc, Arr(acc + xs), p + TailWidth(xs) + 1)
    decreases xs, 0, 1
  {
    if xs == [] {
      ItemsEnd(toks, consts, p, acc, xs);
    } else {
      ItemsUniqueSplit(xs);
      TailShape(toks, p, xs);
      ItemFirstParses(xs, toks, consts, p);
      ItemsParse(xs[1..], acc + [xs[0]], toks, consts, p + 1 + Width(xs[0]));
      ItemsNext(toks, consts, p, acc, xs);
    }
  }

  /** The element after a `;` parses back when it repeats no key. */
  lemma {:induction false} ItemFirstParses(xs: seq<Value>, toks: seq<Token>, consts: map<string, Value>, p: nat)
    requires xs != [] && ValueAt(toks, p + 1, xs[0]) && DeepUnique(xs[0])
    ensures ValueReads(toks, consts, p + 1, xs[0], p + 1 + Width(xs[0]))
    decreases xs, 0, 0
  {
    ValueParses(xs[0], toks, consts, p + 1);
  }

  lemma {:induction false} TableParses(v: Value, toks: seq<Token>, consts: map<string, Value>, p: nat)
    requires ValueAt(toks, p, v) && DeepUnique(v) && v.Table?
    ensures ValueReads(toks, consts, p, v, p + Width(v))
    decreases v, 1
  {
    TableShape(toks, p, v);
    EntriesParse(v.entries, [], toks, consts, p + 1);
    TableDone(v, toks, consts, p);
  }

  lemma {:induction false} EntriesParse(es: seq<Entry>, d: seq<Entry>, toks: seq<Token>, consts: map<string, Value>, p: nat)
    requires EntriesAt(toks, p, es) && EntriesUnique(d, es)
    ensures EntriesRead(toks, consts, p, d, Table(d + es), p + EntriesWidth(es) + 1)
    decreases es, 0, 1
  {
    if es == [] {
      EntriesEnd(toks, consts, p, d, es);
    } else {
      EntryStep(d, es);
      EntriesShape(toks, p, es);
      EntryFirstParses(es, toks, consts, p);
      EntriesParse(es[1..], d + [es[0]], toks, consts, p + 3 + Width(es[0].val));
      EntriesNext(toks, consts, p, d, es);
    }
  }

  /** The value of a first entry parses back when it repeats no key. */
  lemma {:induction false} EntryFirstParses(es: seq<Entry>, toks: seq<Token>, consts: map<string, Value>, p: nat)
    requires es != [] && ValueAt(toks, p + 2, es[0].val) && DeepUnique(es[0].val)
    ensures ValueReads(toks, consts, p + 2, es[0].val, p + 2 + Width(es[0].val))
    decreases es, 0, 0
  {
    ValueParses(es[0].val, toks, consts, p + 2);
  }

  // ----- a spelling with a repeated key fails with a duplicate-key error -----

  lemma {:induction false} ValueFails(v: Value, toks: seq<Token>, consts: map<string, Value>, p: nat)
    requires ValueAt(toks, p, v) && !DeepUnique(v)
    ensures ValueDup(toks, consts, p)
    decreases v, 2
  {
    if v.Arr? {
      ArrayFails(v, toks, consts, p);
    } else {
      TableFails(v, toks, consts, p);
    }
  }

  lemma {:induction false} ArrayFails(v: Value, toks: seq<Token>, consts: map<string, Value>, p: nat)
    requires ValueAt(toks, p, v) && !DeepUnique(v) && v.Arr?
    ensures ValueDup(toks, consts, p)
    decreases v, 1
  {
    if v.items == [] {
      EmptyArrayUnique(v);
      assert false;
    } else {
      ArrayUniqueSplit(v);
      if DeepUnique(v.items[0]) {
        ArrayShape(toks, p, v);
        ArrayFirstParses(v, toks, consts, p);
        ItemsFail(v.items[1..], [v.items[0]], toks, consts, p + 1 + Width(v.items[0]));
        ArrayRestFails(v, toks, consts, p);
      } else {
        ArrayFirstFails(v, toks, consts, p);
      }
    }
  }

  /** The first element of an array repeats a key. */
  lemma {:induction false} ArrayFirstFails(v: Value, toks: seq<Token>, consts: map<string, Value>, p: nat)
    requires ValueAt(toks, p, v) && v.Arr? && v.items != [] && !DeepUnique(v.items[0])
    ensures ValueDup(toks, consts, p)
    decreases v, 0
  {
    ArrayShape(toks, p, v);
    ValueFails(v.items[0], toks, consts, p + 1);
    ArrayFirstDup(v, toks, consts, p);
  }

  lemma {:induction false} ItemsFail(xs: seq<Value>, acc: seq<Value>, toks: seq<Token>, consts: map<string, Value>, p: nat)
    requires TailAt(toks, p, xs) && !ItemsUnique(xs)
    ensures RestDup(toks, consts, p, acc)
    decreases xs, 0, 1
  {
    if xs == [] {
      EmptyItemsUnique(xs);
      assert false;
    } else {
      ItemsUniqueSplit(xs);
      if DeepUnique(xs[0]) {
        TailShape(toks, p, xs);
        ItemFirstParses(xs, toks, consts, p);
        ItemsFail(xs[1..], acc + [xs[0]], toks, consts, p + 1 + Width(xs[0]));
        LaterItemFails(toks, consts, p, acc, xs);
      } else {
        ItemFirstFails(xs, acc, toks, consts, p);
      }
    }
  }

  /** The element after a `;` repeats a key. */
  lemma {:induction false} ItemFirstFails(xs: seq<Value>, acc: seq<Value>, toks: seq<Token>, consts: map<string, Value>, p: nat)
    requires TailAt(toks, p, xs) && xs != [] && !DeepUnique(xs[0])
    ensures RestDup(toks, consts, p, acc)
    decreases xs, 0, 0
  {
    TailShape(toks, p, xs);
    ValueFails(xs[0], toks, consts, p + 1);
    ItemFails(toks, consts, p, acc, xs);
  }

  lemma {:induction false} TableFails(v: Value, toks: seq<Token>, consts: map<string, Value>, p: nat)
    requires ValueAt(toks, p, v) && !DeepUnique(v) && v.Table?
    ensures ValueDup(toks, consts, p)
    decreases v, 1
  {
    TableShape(toks, p, v);
    EntriesFail(v.entries, [], toks, consts, p + 1);
    TableFailsInside(v, toks, consts, p);
  }

  lemma {:induction false} EntriesFail(es: seq<Entry>, d: seq<Entry>, toks: seq<Token>, consts: map<string, Value>, p: nat)
    requires EntriesAt(toks, p, es) && !EntriesUnique(d, es)
    ensures EntriesDup(toks, consts, p, d)
    decreases es, 0, 2
  {
    if es == [] {
      assert false;
    } else if !DeepUnique(es[0].val) || Seen(d, es[0].key) {
      FirstEntryFails(es, d, toks, consts, p);
    } else {
      EntryStep(d, es);
      EntriesShape(toks, p, es);
      EntryFirstParses(es, toks, consts, p);
      EntriesFail(es[1..], d + [es[0]], toks, consts, p + 3 + Width(es[0].val));
      LaterEntryFails(toks, consts, p, d, es);
    }
  }

  /** The first entry fails: its value repeats a key inside, or its key
      was read before. */
  lemma {:induction false} FirstEntryFails(es: seq<Entry>, d: seq<Entry>, toks: seq<Token>, consts: map<string, Value>, p: nat)
    requires EntriesAt(toks, p, es) && es != []
    requires !DeepUnique(es[0].val) || Seen(d, es[0].key)
    ensures EntriesDup(toks, consts, p, d)
    decreases es, 0, 1
  {
    if DeepUnique(es[0].val) {
      EntriesShape(toks, p, es);
      EntryFirstParses(es, toks, consts, p);
      RepeatedKey(toks, consts, p, d, es);
    } else {
      EntriesShape(toks, p, es);
      ValueFails(es[0].val, toks, consts, p + 2);
      EntryValueFails(toks, consts, p, d, es);
    }
  }

  /** `parse_value` on any spelling of a value gives back the value, and
      stops right after the spelling, exactly when no table in the value
      repeats a key; otherwise it fails with a duplicate-key error. */
  lemma ParseSpelling(v: Value, toks: seq<Token>, consts: map<string, Value>, p: nat)
    requires Terminated(toks) && p + Width(v) < |toks| && SpellsValue(toks, p, v)
    ensures DeepUnique(v) ==> ValueF(toks, consts, p) == Ok(Parsed(v, p + Width(v)))
    ensures !DeepUnique(v) ==> IsDuplicateKeyError(ValueF(toks, consts, p))
  {
    if DeepUnique(v) {
      ValueParses(v, toks, consts, p);
    } else {
      ValueFails(v, toks, consts, p);
    }
  }
}
