/** `convert` (app.py:391-396): the source text of the configuration
    language in, TOML text out. */
module Convert {
  import opened Syntax
  import opened Lexer
  import opened LexerProps
  import opened Parser
  import opened ParserProps
  import opened Emitter
  import opened EmitterProps

  /** The root mapping `parse_file` builds from text, starting from an
      empty constant table; the first lex or parse error otherwise. */
  function ConfigOf(text: string): Result<seq<Entry>> {
    LexEofTerminated(text, 0, 1, 1);
    match LexFrom(text, 0, 1, 1)
    case Err(e) => Err(e)
    case Ok(toks) =>
      match FileF(toks, map[], [], 0)
      case Err(e) => Err(e)
      case Ok(t) => Ok(t.config)
  }

  /** What `convert(text)` returns, or the error it raises: the error of
      the first stage that fails, or a text ending with a newline. */
  function ConvertF(text: string): (r: Result<string>)
    ensures r.Ok? <==> ConfigOf(text).Ok?
    ensures ConfigOf(text).Err? ==> r == Err(ConfigOf(text).error)
    ensures r.Ok? ==> |r.value| >= 1 && r.value[|r.value| - 1] == '\n'
  {
    match ConfigOf(text)
    case Err(e) => Err(e)
    case Ok(cfg) => Ok(GenerateTomlF(cfg))
  }

  /** `convert` (app.py:391-396): clear the constants, lex, parse, generate. */
  method Convert(text: string) returns (r: Result<string>)
    ensures r == ConvertF(text)
  {
    var lexed := Lex(text);
    if lexed.Err? {
      return Err(lexed.error);
    }
    var parser := new Parser(lexed.value);
    var parsed := parser.ParseFile();
    if parsed.Err? {
      return Err(parsed.error);
    }
    var text' := GenerateToml(parsed.value);
    return Ok(text');
  }

  /** What the parser builds fits the generator's one-line rule: an
      identifier holds no newline and there are no strings. */
  lemma {:induction false} PlainOneLine(v: Value)
    requires Plain(v)
    ensures OneLine(v)
  {
    match v
    case Arr(items) =>
      forall k | 0 <= k < |items|
        ensures OneLine(items[k])
      {
        PlainOneLine(items[k]);
      }
    case Table(es) =>
      forall k | 0 <= k < |es|
        ensures NoNewline(es[k].key) && OneLine(es[k].val)
      {
        PlainOneLine(es[k].val);
      }
    case _ =>
  }

  /** A conversion that succeeds builds a root mapping of numbers, arrays
      and tables under identifier names, each name once; its text is the
      generated lines, each ended by a newline, with blank lines between
      sections only. */
  lemma ConvertOutput(text: string)
    ensures ConvertF(text).Ok? ==>
      var cfg := ConfigOf(text).value;
      var out := ConvertF(text).value;
      Plain(Table(cfg)) && UniqueKeys(cfg) && out == GenerateTomlF(cfg) &&
      (TomlLines(cfg) != [] ==> SplitLines(out) == TomlLines(cfg)) &&
      (TomlLines(cfg) == [] ==> out == "\n") &&
      Tidy(TomlLines(cfg)) && |out| > 0 && out[|out| - 1] == '\n'
  {
    LexEofTerminated(text, 0, 1, 1);
    LexWellFormed(text, 0, 1, 1);
    var lexed := LexFrom(text, 0, 1, 1);
    if lexed.Ok? {
      ConfigUnique(lexed.value, map[], [], 0);
      FilePlain(lexed.value, map[], [], 0);
      if ConfigOf(text).Ok? {
        var cfg := ConfigOf(text).value;
        PlainOneLine(Table(cfg));
        TomlText(cfg);
        FileTidy(cfg);
      }
    }
  }
}
