# A verified model of the configuration-language-to-TOML translator

`app.py` translates a small configuration language into TOML. A text
goes through four stages:

1. **Lexer** (`lex`). It turns the text into tokens: numbers, words,
   `:=`, `->`, punctuation, `+`, `-` and a final EOF token.
2. **Parser** (`parse_file` and the `parse_*` family). It reads
   statements of two kinds:
   - `name := value` stores a root key. Reassigning a key keeps its
     first position.
   - `value -> NAME` declares a constant. A constant may be declared
     only once.

   A value is one of:
   - a number;
   - an array `[ v; v; … ]`;
   - a table `begin k := v; … end`, whose keys must be distinct;
   - a constant name;
   - a constant expression `@{ … }`.
3. **Constant-expression evaluator** (`parse_expr`). It evaluates prefix
   `+`, `-`, `min` and `sort`.
4. **TOML emitter** (`generate_toml`, `emit_table`, the `render_*`
   functions). It works in this order:
   - root values become `k = v` lines;
   - each root table becomes a `[name]` section;
   - non-empty arrays of tables inside a section become `[[name.k]]`
     blocks;
   - nested tables become `[name.k]` sub-sections;
   - everything else is rendered inline.

`convert` chains the stages, starting from an empty constant table.

The Dafny project follows that structure:

| module | file | form |
|---|---|---|
| `Syntax` | syntax.dfy | tokens, values, entries, errors, `Result` |
| `Decimal` | decimal.dfy | the text of integers and floats, read and written |
| `Numbers` | numbers.dfy | the arithmetic of `+`, `-`, `min` and `sort` |
| `Lexer` | lexer.dfy | the scanner: a `Scan` method for one turn of the loop of `lex`, and a `Lex` method with its loop, each proved equal to a function |
| `LexerProps` | lexer_props.dfy | what the tokens satisfy |
| `Parser` | parser.dfy | the grammar as functions over (tokens, constants, cursor), and the class `Parser` that holds the module state (`tokens`, `pos`, `consts`, `config`) with one method per `parse_*` function, each proved equal to its grammar function |
| `ParserProps` | parser_props.dfy | properties of the grammar |
| `RoundTrip` | round_trip.dfy | `parse_value` reads back the value a token list spells |
| `Emitter` | emitter.dfy | the renderers as functions; the class `LineList` (the `lines` list that `emit_table` appends to), whose methods are proved equal to the line-list functions |
| `EmitterProps` | emitter_props.dfy | the layout of the generated text |
| `TomlRead` | toml_read.dfy | a reader of TOML inline values, and the proof that it reads every rendered value back |
| `FloatFormat` | float_format.dfy | Python's `format(v, "g")`, and two floats it changes |
| `Convert` | convert.dfy | `convert` |

Two representation choices:
- The root mapping and every table are sequences of entries in
  insertion order, which is the order Python dictionaries keep.
- A float is an exact decimal `Float(mant, exp)`, meaning `mant · 10^exp`.

## Model

| member | source | states |
|---|---|---|
| Decimal.ShowInt | app.py:309-310 | the text of an integer is an optional minus sign followed by digits only |
| Decimal.ParseNumber | app.py:204 | a number literal denotes a float exactly when it contains `.`, `e` or `E`, and an integer otherwise |
| Decimal.ParseShowInt | app.py:309-310 | reading back the text written for an integer gives the same integer, and that text is never taken for a float |
| Decimal.ParseShowFloat | app.py:311-312 | the `<mantissa>e<exponent>` text the model writes for a float reads back as exactly that float, so no digit is lost and it stays a float (the corrected form, see Findings) |
| Numbers.Combine | app.py:267-279 | the sum or difference of two numbers has the exact value of the arithmetic result, and is an integer exactly when both operands are |
| Numbers.ApplyBinary | app.py:267-279 | `+` and `-` succeed exactly when both operands are numbers, giving the exact sum or difference (an integer iff both are); otherwise they fail with the non-numeric error of that operator |
| Numbers.MinIndex | app.py:288 | points at an argument no greater than any other, and at the first such argument |
| Numbers.ApplyMin | app.py:286-288 | `min` succeeds exactly when every argument is a number; its result is the first least argument; otherwise it fails with the non-numeric error of `min` |
| Numbers.Insert | app.py:296 | inserting into an ascending list of numbers gives an ascending list holding the same numbers plus the new one |
| Numbers.SortNums | app.py:296 | sorting numbers gives an ascending permutation of them |
| Numbers.SortItems | app.py:296 | a sortable array is sorted into an ascending permutation of its elements |
| Numbers.InsertStable | app.py:296 | insertion puts the new number before every number of equal value and keeps the order of the rest |
| Numbers.SortStable | app.py:296 | sorting is stable: for every value, the numbers of that value (such as `1` and `1.0`) come out in the order they went in |
| Numbers.SortItemsStable | app.py:296 | `sort` keeps the input order of elements of equal value |
| Numbers.ApplySort | app.py:290-300 | `sort` succeeds exactly on an array whose elements are comparable, giving an ascending permutation of it; it fails with the not-an-array error on anything else, and with the uncomparable-elements error on an array of incomparable elements |
| Lexer.WordKind | app.py:109-118 | a word is `begin`, `end` or an identifier, and is exactly one of these |
| Lexer.DigitsEnd | app.py:6 | finds the end of the longest run of digits at a position |
| Lexer.LexStep | app.py:28-120 | a step that does not fail moves forward within the text, and a token it emits is not EOF and carries the line and column where it starts |
| Lexer.Scan | app.py:28-120 | one turn of the loop of `lex` does what the step function says |
| Lexer.Lex | app.py:16-123 | the token list is the one the step function builds, and a successful run ends with exactly one EOF token |
| Lexer.LexEofTerminated | app.py:123 | every successful run ends with exactly one EOF token, and no EOF comes earlier |
| LexerProps.NumberEndSound | app.py:6 | what the scanner takes as a number is a literal of the number pattern |
| LexerProps.NumberEndLongest | app.py:6 | whenever a literal of the number pattern starts at a position, the scanner finds a number there at least as long: its match is the longest one |
| LexerProps.NothingLonger | app.py:6 | no literal of the number pattern longer than the scanner's match starts there, and none at all when the scanner finds no number |
| LexerProps.DashToken | app.py:56-95 | `->` is an arrow; otherwise a `-` where the number pattern matches is one number token holding the longest literal; any other `-` is the minus token, and no literal starts there |
| LexerProps.DigitToken | app.py:98-106 | a digit or `.` starts one number token holding the longest literal of the pattern, with its line and column; when the pattern does not match there, the lexer fails with a malformed-number error |
| LexerProps.UnrecognisedFails | app.py:120 | a character that no rule recognises (and not the `:` of `:=`) makes the step and the rest of the run fail with the unexpected-character error at that character's line and column |
| LexerProps.LexErrors | app.py:98-120 | a lex error is either a malformed number or a character that no rule recognises, and it names the index where it arises; with the run's line and column right at its start, the error carries that index's line and column |
| LexerProps.StepPlace | app.py:26-120 | a step that starts with the line and column of its index ends with the line and column of the index it moves to, lines being counted by newlines and columns from the last newline |
| LexerProps.LexErrorPlace | app.py:16-123 | every error of `lex` is an unrecognised character or a malformed number at some index of the text, reported with that index's line and column |
| LexerProps.WordIsIdentifier | app.py:109-118 | the word the scanner takes is a letter or `_` followed by letters, digits or `_` |
| LexerProps.StepWellFormed | app.py:28-120 | the lexeme of every emitted token agrees with its kind |
| LexerProps.LexWellFormed | app.py:16-123 | the lexeme of every token of a successful run agrees with its kind |
| Parser.Lookup | app.py:180 | reading a key of an insertion-ordered mapping finds a value exactly when the key is present |
| Parser.Upsert | app.py:180 | storing a key already present keeps the key order; a new key goes at the end |
| Parser.ValueF | app.py:197-225 | a parsed value moves the cursor forward, and never past EOF |
| Parser.ExprF | app.py:264-302 | a parsed expression moves the cursor forward, and never past EOF |
| Parser.MinArgsRest | app.py:283-288 | the `min` argument loop stops at the closing `}` |
| Parser.SkipSemis | app.py:159-160 | the cursor lands on the first token after a run of semicolons |
| Parser.AssignmentF | app.py:175-180 | an assignment stores its value under the identifier it starts with |
| Parser.ConstDeclF | app.py:183-193 | a declaration succeeds only for a name not yet declared |
| Parser.StatementF | app.py:162-170 | a statement moves the cursor forward |
| Parser.Parser.constructor | app.py:393-394 | the parser starts at the first token, with no constants and an empty root mapping |
| Parser.Parser.Peek | app.py:127-128 | the token under the cursor, which is EOF at the last position |
| Parser.Parser.Match | app.py:130-135 | steps over the token under the cursor exactly when it has the given kind, and reports whether it did |
| Parser.Parser.Consume | app.py:137-145 | on a token of the given kind, returns it and steps over it; otherwise fails with an error naming the expected kind and the token found, leaving the cursor where it was |
| Parser.Parser.ParseValue | app.py:197-225 | returns what the value grammar function gives at the cursor, and leaves the cursor where that function ends |
| Parser.Parser.ParseArray | app.py:227-237 | agrees with the array grammar function |
| Parser.Parser.ParseDict | app.py:240-252 | agrees with the table grammar function |
| Parser.Parser.ParseConstExpr | app.py:256-261 | agrees with the `@{ … }` grammar function |
| Parser.Parser.ParseExpr | app.py:264-302 | agrees with the expression grammar function |
| Parser.Parser.ParseMinArgs | app.py:283-288 | agrees with the `min` argument-loop function |
| Parser.Parser.ParseAssignment | app.py:175-180 | on success, stores the parsed value under its key in the root mapping (in place for a key already there, at the end otherwise); otherwise returns the grammar's error |
| Parser.Parser.ParseConst | app.py:183-193 | on success, adds the declared constant to the constant table; otherwise returns the grammar's error |
| Parser.Parser.SkipSemicolons | app.py:159-160 | steps over a run of semicolons |
| Parser.Parser.ParseStatement | app.py:162-170 | updates the cursor, the constants and the root mapping as one statement of the grammar does |
| Parser.Parser.ParseFile | app.py:152-172 | returns the root mapping the file grammar builds from the start of the tokens, keeping the constants declared so far; on failure, the first error |
| ParserProps.ValuePlain | app.py:197-225 | with constants that hold only numbers, arrays and tables with identifier keys, a parsed value holds only these too |
| ParserProps.ArrayPlain | app.py:227-237 | an array parsed with plain constants holds only numbers, arrays and tables with identifier keys |
| ParserProps.ArrayRestPlain | app.py:230-236 | the element loop adds only plain values to the plain elements read so far |
| ParserProps.DictPlain | app.py:240-252 | a parsed table has identifier keys and plain values |
| ParserProps.DictRestPlain | app.py:243-251 | the entry loop adds only identifier keys with plain values |
| ParserProps.ConstExprPlain | app.py:256-261 | `@{ … }` yields a plain value |
| ParserProps.MinArgsPlain | app.py:283-288 | the `min` argument loop collects plain values only |
| ParserProps.SortPlain | app.py:290-300 | sorting a plain array gives a plain array |
| ParserProps.UpsertPlain | app.py:180 | storing a plain value under an identifier keeps the root mapping plain |
| ParserProps.StatementPlain | app.py:162-170 | a statement keeps the constants and the root mapping plain |
| ParserProps.FilePlain | app.py:152-172 | the root mapping a file builds holds only numbers, arrays and tables, and every key in it is an identifier |
| ParserProps.ExprPlain | app.py:264-302 | a constant expression evaluates to numbers, arrays and tables only |
| ParserProps.BinaryPlain | app.py:267-279 | a successful `+` or `-` gives a number |
| ParserProps.ArrayRestClosed | app.py:230-236 | a parsed array ends on its `]` |
| ParserProps.MissingBracket | app.py:236 | an array with no `]` after it fails |
| ParserProps.ArrayEdges | app.py:227-237 | `[]` is the empty array; a trailing `;` before `]` is allowed; any other token after an element is a missing-`]` error |
| ParserProps.DictRestUnique | app.py:243-251 | the entries of a parsed table keep the ones read so far, have distinct keys and end on `end` |
| ParserProps.DictUnique | app.py:240-252 | a parsed table never repeats a key |
| ParserProps.DictEntry | app.py:244-249 | an entry without `;` after its value is an error, and so is a key already in the table |
| ParserProps.ConstantReference | app.py:219-223 | a declared constant's name reads as its value; an undeclared name is an unknown-constant error at that token |
| ParserProps.ConstantRedeclared | app.py:183-191 | declaring a name a second time is a duplicate-constant error at the name |
| ParserProps.StatementKeepsConsts | app.py:166-170 | a statement never changes or removes a declared constant |
| ParserProps.ConstantsWriteOnce | app.py:152-172 | across the whole file, every declared constant keeps its value |
| ParserProps.UpsertLookup | app.py:180 | after storing v under a key, the key reads as v and every other key reads as before |
| ParserProps.UpsertUnique | app.py:180 | storing a key keeps the keys distinct |
| ParserProps.StatementKeepsUnique | app.py:166-170 | a statement keeps the root keys distinct |
| ParserProps.ConfigUnique | app.py:152-172 | the root mapping never repeats a key |
| ParserProps.MinNeedsTwo | app.py:281-288 | `min` with a single argument fails with a value-expected error at the `}` |
| RoundTrip.ParseSpelling | app.py:197-252 | `parse_value` on the tokens that spell a value gives back that value and stops right after it, exactly when no table inside repeats a key; otherwise it fails with a duplicate-key error |
| RoundTrip.ValueParses | app.py:197-252 | a spelling without repeated keys parses back to its value |
| RoundTrip.ValueFails | app.py:197-252 | a spelling with a repeated key fails with a duplicate-key error |
| RoundTrip.TableUnique | app.py:240-252 | a table repeats no key anywhere exactly when its own keys are distinct and no value inside repeats a key |
| RoundTrip.ArrayUnique | app.py:227-237 | an array repeats no key anywhere exactly when none of its elements does |
| RoundTrip.NewKeysUnique | app.py:248-249 | reading keys in order never meets one twice exactly when they are distinct and new |
| Emitter.Escape | app.py:314 | escaping never shortens a string, and every double quote in the result is preceded by a backslash |
| Emitter.EscapeRoundTrip | app.py:314 | unescaping the quoted text gives back the original string |
| Emitter.RenderScalar | app.py:306-315 | a number's text reads back, as a literal, to the same number; a string is quoted and its inner text unescapes to the string; a boolean is `true` or `false` according to its value |
| Emitter.RenderArray | app.py:318-325 | the loop over the elements builds the `[a, b, …]` text of the array |
| Emitter.Pick | app.py:351-357 | the entries picked for a group all belong to that group |
| Emitter.Sep | app.py:343-344 | a separator adds at most one blank line |
| Emitter.Partition | app.py:347-357 | one pass files each entry of a table into the plain, array-of-tables or sub-table group, in order |
| Emitter.PickFrom | app.py:351-357 | every picked entry comes from the table |
| Emitter.NestedPick | app.py:373-374 | emitting only the sub-tables gives the same lines as walking all entries and skipping the others |
| Emitter.LineList.constructor | app.py:377 | the line list starts empty |
| Emitter.LineList.AppendEntries | app.py:360-361 | appends one `k = v` line per entry, in order |
| Emitter.LineList.Separate | app.py:343-344 | appends a blank line exactly when the list is non-empty and its last line is not blank |
| Emitter.LineList.AppendElements | app.py:365-370 | appends one `[[path]]` block per element, each preceded by a separator |
| Emitter.LineList.AppendArrays | app.py:364-370 | appends the blocks of every array of tables, in order |
| Emitter.LineList.EmitTable | app.py:342-374 | appends exactly the lines the section function gives for the table: separator, header, plain entries, array blocks, sub-sections |
| Emitter.LineList.EmitNested | app.py:373-374 | appends a sub-section for each sub-table, in order |
| Emitter.LineList.AppendRootValues | app.py:380-382 | appends a `k = v` line for each root entry that is not a table, in order |
| Emitter.LineList.EmitRootTables | app.py:385-387 | appends a section for each root table, in order |
| Emitter.GenerateToml | app.py:376-389 | returns the lines of the document joined by newlines, with a final newline |
| Emitter.GenerateTomlF | app.py:389 | the document text is never empty and ends with a newline |
| EmitterProps.PickConcat | app.py:351-357 | grouping keeps the order of the entries |
| EmitterProps.PickPartition | app.py:351-357 | every entry of a table lands in exactly one of the three groups, with nothing lost and nothing added |
| EmitterProps.EmitGrows | app.py:342-374 | `emit_table` only appends; the lines before it are untouched |
| EmitterProps.NestedGrows | app.py:373-374 | emitting sub-sections only appends |
| EmitterProps.RootTablesGrow | app.py:385-387 | emitting the root tables only appends |
| EmitterProps.SectionLayout | app.py:342-374 | a section is its separator and header, then every plain entry in order, then the array blocks, then the sub-sections |
| EmitterProps.FileLayout | app.py:376-389 | the document starts with the `k = v` lines of the root entries that are not tables, in order, and the sections follow |
| EmitterProps.TidyEmit | app.py:342-374 | a section never produces a leading, trailing or doubled blank line |
| EmitterProps.TidyRootTables | app.py:385-387 | the root sections keep the lines free of leading, trailing and doubled blank lines |
| EmitterProps.FileTidy | app.py:376-389 | every blank line of the document sits between two non-blank lines |
| EmitterProps.SplitJoin | app.py:389 | splitting at newlines the text built by joining lines with newlines and adding a final newline gives the lines back |
| EmitterProps.RenderOneLine | app.py:332-339 | a value with no newline in its strings and keys is rendered on one line |
| EmitterProps.EntryLinesOneLine | app.py:360-361 | every `k = v` line of such a table is one line |
| EmitterProps.ElementsOneLine | app.py:365-370 | the blocks of an array of tables add only lines without newlines |
| EmitterProps.ArraysOneLine | app.py:364-370 | all array-of-tables blocks add only lines without newlines |
| EmitterProps.EmitOneLine | app.py:342-374 | a section adds only lines without newlines |
| EmitterProps.NestedOneLine | app.py:373-374 | the sub-sections add only lines without newlines |
| EmitterProps.RootTablesOneLine | app.py:385-387 | the root sections add only lines without newlines |
| EmitterProps.FileOneLine | app.py:376-389 | no line of the document holds a newline |
| EmitterProps.TomlText | app.py:376-389 | for a root mapping without newlines in its strings and keys, the text splits back into exactly the document's lines; an empty document is a single newline |
| TomlRead.ReadBack | app.py:332-339 | reading a rendered number, array or inline table, followed by any text that cannot continue a number, gives back the same value and stops right after its text |
| TomlRead.ArrayBack | app.py:318-325 | an array's `[a, b, …]` text reads back as the same elements in order |
| TomlRead.ItemsBack | app.py:319-325 | the elements joined by `, ` and closed by `]` read back one by one |
| TomlRead.TableBack | app.py:328-329 | an inline table's `{ k = v, … }` text reads back as the same keys and values in order |
| TomlRead.EntriesBack | app.py:329 | the `k = v` pairs joined by `, ` and closed by ` }` read back one by one |
| FloatFormat.LosesDigits | app.py:311-312 | `format(v, "g")` writes 1000001.0 as `1e+06`, which reads back as a different number |
| FloatFormat.DropsFloat | app.py:311-312 | `format(v, "g")` writes 2.0 as `2`, which reads back as an integer |
| Convert.Convert | app.py:391-396 | lexes, parses from an empty constant table and generates, returning the first error of any stage |
| Convert.ConvertF | app.py:391-396 | a conversion succeeds exactly when lexing and parsing do; otherwise it fails with the first error of those stages; a successful text ends with a newline |
| Convert.PlainOneLine | app.py:391-396 | a value made only of numbers, arrays and tables with identifier keys holds no newline in any key or string |
| Convert.ConvertOutput | app.py:391-396 | a successful conversion holds only numbers, arrays and tables with identifier keys, each root key once; its text splits back into exactly the document's lines (a single newline when there are none), keeps blank lines between sections only, and ends with a newline |

## Left out

- The command-line front end `cli` and its file reading and writing (app.py:400-419) are outside the model. `convert` takes and returns text.
- The regular-expression engine is not modelled. `NUMBER_RE` (app.py:6) is matched by a hand-written scanner instead, tied to the pattern (written as a grammar) by `LexerProps.NumberEndSound` and `LexerProps.NumberEndLongest`. The scanner takes the longest literal. For this pattern Python's backtracking match gives the longest literal too, but that is not proved against a model of the regex engine.
- Character classes are ASCII only. `isdigit`, `isalpha` and `isalnum` also accept other Unicode letters and digits.
- Floating point is not modelled. A float is the exact decimal its literal denotes, and `+`, `-` and `min` compute on exact values. Rounding to binary doubles is left out.
- Decimal.ShowFloat: writes a float as `<mantissa>e<exponent>`, not in the `format(v, "g")` form of app.py:312, which loses digits (see Findings). `FloatFormat.FormatG` models that form but rounds the exact decimal, while Python rounds the binary double.
- Error messages carry the error kind, the token or name, and the line and column. The wording of Python's messages is left out.
- Numbers.ApplySort: only arrays of at most one element, or of numbers only, count as sortable. Python's `sorted` also orders arrays of arrays lexicographically; the model reports such arrays as uncomparable when they have two or more elements.
- `sort` of an array of tables with zero or one element succeeds, because `sorted` makes no comparison (app.py:296).
- The lexer has no string rule: `"` is an unexpected character (app.py:120), so a quoted string never reaches the parser.
- Strings and booleans are rendered by `Emitter.RenderScalar`, but the parser never produces them (`ParserProps.FilePlain`). `TomlRead` therefore reads numbers, arrays and inline tables only.
- Emitter.Escape: `render_scalar` escapes a double quote but not a backslash, so a string ending in a backslash would make a broken TOML string. This is not reachable from `convert`, because no string value is ever built.
- The `TypeError` branches of `render_scalar` and `render_scalar_or_array` (app.py:315, app.py:339) are not modelled. Every value has a rendering, so they cannot be reached.
- `copy.deepcopy` of a constant (app.py:223) is not needed. Values are immutable, so two uses of one constant cannot share state.
- The token list and the cursor as module globals (app.py:9-12) are modelled as the fields of one `Parser` object.
- `convert` clearing the constants (app.py:393) is modelled by `convert` building a fresh `Parser`.

## Findings

| source | as written | input that shows it | evidently intended | confidence | as-written member | corrected member |
|---|---|---|---|---|---|---|
| app.py:311-312 | a float is written with `format(v, "g")`, which keeps six significant digits | `a := 1000001.0;` is written `a = 1e+06`, which is 1000000 | the float written so that it reads back as the same number | medium, not executed | FloatFormat.LosesDigits | Emitter.RenderScalar |
| app.py:311-312 | `format(v, "g")` drops a zero fraction together with its point | `a := 2.0;` is written `a = 2`, which TOML reads as an integer | the float written so that it reads back as a float | medium, not executed | FloatFormat.DropsFloat | Emitter.RenderScalar |
