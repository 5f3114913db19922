/** Concrete lines run through the placeholder engine, one per behaviour worth pinning down. */
module PlaceholderExamples {

  import opened Options
  import opened Placeholders

  predicate Verbatim(text: string)
  {
    forall i :: 0 <= i < |text| ==> text[i] != '['
  }

  /** A lone token is rewritten to its replacement. */
  lemma TokenRewritten(s: Settings, name: string)
    requires IsName(name)
    ensures RewriteLine(s, Token(name)) == Replacement(s, name)
  {
    RewriteToken(s, name, "");
    assert Token(name) + "" == Token(name);
  }

  /** Verbatim text followed by a token keeps the text and replaces the token. */
  lemma TokenAfterTextRewritten(s: Settings, text: string, name: string)
    requires Verbatim(text) && IsName(name)
    ensures RewriteLine(s, text + Token(name)) == text + Replacement(s, name)
  {
    RewriteVerbatimPrefix(s, text, Token(name));
    TokenRewritten(s, name);
  }

  /** Two tokens separated by verbatim text are replaced independently. */
  lemma TokenPairRewritten(s: Settings, n1: string, b: string, n2: string)
    requires Verbatim(b) && IsName(n1) && IsName(n2)
    ensures RewriteLine(s, Token(n1) + (b + Token(n2)))
      == Replacement(s, n1) + (b + Replacement(s, n2))
  {
    RewriteToken(s, n1, b + Token(n2));
    TokenAfterTextRewritten(s, b, n2);
  }

  /** A line made of verbatim text and two tokens rewrites token by token. */
  lemma TwoTokensRewritten(s: Settings, a: string, n1: string, b: string, n2: string)
    requires Verbatim(a) && Verbatim(b) && IsName(n1) && IsName(n2)
    ensures RewriteLine(s, a + (Token(n1) + (b + Token(n2))))
      == a + (Replacement(s, n1) + (b + Replacement(s, n2)))
  {
    RewriteVerbatimPrefix(s, a, Token(n1) + (b + Token(n2)));
    TokenPairRewritten(s, n1, b, n2);
  }

  /** Verbatim text followed by a token logs the token's warnings and nothing for the text. */
  lemma TokenAfterTextWarned(s: Settings, text: string, name: string)
    requires Verbatim(text) && IsName(name)
    ensures LineWarnings(s, text + Token(name)) == PieceWarnings(s, [Placeholder(name)])
  {
    ScanVerbatimPrefix(text, Token(name));
    assert Scan(Token(name)) == [Placeholder(name)] by {
      ScanToken(name, "");
      assert Token(name) + "" == Token(name);
    }
    PieceWarningsAppend(s, Literals(text), [Placeholder(name)]);
    LiteralsWarnNothing(s, text);
  }

  /** Two tokens separated by verbatim text log their warnings in order. */
  lemma TokenPairWarned(s: Settings, n1: string, b: string, n2: string)
    requires Verbatim(b) && IsName(n1) && IsName(n2)
    ensures LineWarnings(s, Token(n1) + (b + Token(n2)))
      == PieceWarnings(s, [Placeholder(n1)]) + PieceWarnings(s, [Placeholder(n2)])
  {
    ScanToken(n1, b + Token(n2));
    PieceWarningsAppend(s, [Placeholder(n1)], Scan(b + Token(n2)));
    TokenAfterTextWarned(s, b, n2);
  }

  /** ... and so does a line of verbatim text and two tokens. */
  lemma TwoTokensWarned(s: Settings, a: string, n1: string, b: string, n2: string)
    requires Verbatim(a) && Verbatim(b) && IsName(n1) && IsName(n2)
    ensures LineWarnings(s, a + (Token(n1) + (b + Token(n2))))
      == PieceWarnings(s, [Placeholder(n1)]) + PieceWarnings(s, [Placeholder(n2)])
  {
    var rest := Token(n1) + (b + Token(n2));
    ScanVerbatimPrefix(a, rest);
    PieceWarningsAppend(s, Literals(a), Scan(rest));
    LiteralsWarnNothing(s, a);
    TokenPairWarned(s, n1, b, n2);
  }

  /** A single placeholder logs exactly the warning its lookup reports, if any. */
  lemma SinglePlaceholderWarning(s: Settings, name: string)
    ensures var r := TryGetValue(s, name);
      PieceWarnings(s, [Placeholder(name)]) == if r.NotFound? && r.warning.Some? then [r.warning.value] else []
  {
    assert [Placeholder(name)][1..] == [];
  }

  /**
   * A config holding `port` but not `name`, without environment fallback: the known
   * placeholder is replaced and the unknown one is kept literally ...
   */
  lemma PortReplacedNameKept(line: string)
    requires line == "Port: [$port], Name: [$name]"
    ensures RewriteLine(Settings(map["port" := "9600"], map[], false), line) == "Port: 9600, Name: [$name]"
  {
    var s := Settings(map["port" := "9600"], map[], false);
    var a, n1, b, n2 := PortLineParts(line);
    TwoTokensRewritten(s, a, n1, b, n2);
    assert a + (Replacement(s, n1) + (b + Replacement(s, n2))) == "Port: 9600, Name: [$name]" by {
      assert Replacement(s, n1) == "9600";
      assert Replacement(s, n2) == Token(n2);
    }
  }

  /** ... and the one warning logged for that line names the missing config variable. */
  lemma MissingNameWarned(line: string)
    requires line == "Port: [$port], Name: [$name]"
    ensures LineWarnings(Settings(map["port" := "9600"], map[], false), line) == [ConfigVariableNotFound("name")]
  {
    var s := Settings(map["port" := "9600"], map[], false);
    var a, n1, b, n2 := PortLineParts(line);
    TwoTokensWarned(s, a, n1, b, n2);
    SinglePlaceholderWarning(s, n1);
    SinglePlaceholderWarning(s, n2);
  }

  /** The line of the two examples above, cut into its verbatim text and its two tokens. */
  lemma PortLineParts(line: string) returns (a: string, n1: string, b: string, n2: string)
    requires line == "Port: [$port], Name: [$name]"
    ensures a == "Port: " && n1 == "port" && b == ", Name: " && n2 == "name"
    ensures Verbatim(a) && Verbatim(b) && IsName(n1) && IsName(n2)
    ensures line == a + (Token(n1) + (b + Token(n2)))
  {
    a, n1, b, n2 := "Port: ", "port", ", Name: ", "name";
  }

  /** The pattern matches `[$PORT]`, but the lookup of `PORT` is case-sensitive, so a config key `port` does not serve it. */
  lemma UpperCaseTokenNotFound()
    ensures var s := Settings(map["port" := "9600"], map[], false);
      RewriteLine(s, "[$PORT]") == "[$PORT]"
      && LineWarnings(s, "[$PORT]") == [ConfigVariableNotFound("PORT")]
  {
    assert IsName("PORT");
    ScanToken("PORT", "");
    assert Token("PORT") + "" == "[$PORT]";
  }

  /** A config key with an empty value keeps the token, logs nothing, and the environment is not consulted. */
  lemma EmptyConfigValueKeepsToken()
    ensures var s := Settings(map["name" := ""], map["name" := "server"], true);
      RewriteLine(s, "[$name]") == "[$name]" && LineWarnings(s, "[$name]") == []
  {
    assert IsName("name");
    ScanToken("name", "");
    assert Token("name") + "" == "[$name]";
  }

  /** A key absent from the config is served by the environment when the fallback is on. */
  lemma EnvironmentFallback()
    ensures var s := Settings(map[], map["name" := "server"], true);
      RewriteLine(s, "[$name]") == "server" && LineWarnings(s, "[$name]") == []
  {
    assert IsName("name");
    ScanToken("name", "");
    assert Token("name") + "" == "[$name]";
  }

  /**
   * A substituted value is not scanned again in the same pass, so a value that itself
   * looks like a token survives, and rewriting is not idempotent.
   */
  lemma ValuesNotRescanned()
    ensures var s := Settings(map["a" := "[$b]", "b" := "x"], map[], false);
      RewriteLine(s, "[$a]") == "[$b]" && RewriteLine(s, RewriteLine(s, "[$a]")) == "x"
  {
    assert IsName("a") && IsName("b");
    ScanToken("a", "");
    assert Token("a") + "" == "[$a]";
    ScanToken("b", "");
    assert Token("b") + "" == "[$b]";
  }

  /** A character at which no match starts is kept, and the line is rewritten on from the next one. */
  lemma RewriteUnmatched(s: Settings, c: char, rest: string)
    requires MatchAt([c] + rest).None?
    ensures RewriteLine(s, [c] + rest) == [c] + RewriteLine(s, rest)
  {
    assert ([c] + rest)[0] == c && ([c] + rest)[1..] == rest;
  }

  /** A token followed by a closing bracket: the token is replaced and the bracket kept. */
  lemma TokenThenBracketRewritten(s: Settings, name: string)
    requires IsName(name)
    ensures RewriteLine(s, Token(name) + "]") == Replacement(s, name) + "]"
  {
    RewriteToken(s, name, "]");
    assert "]" == [']'] + "";
    RewriteUnmatched(s, ']', "");
  }

  /** ... and so with a `$` in front, at which no match starts. */
  lemma DollarTokenRewritten(s: Settings, name: string)
    requires IsName(name)
    ensures RewriteLine(s, ['$'] + (Token(name) + "]")) == ['$'] + (Replacement(s, name) + "]")
  {
    RewriteUnmatched(s, '$', Token(name) + "]");
    TokenThenBracketRewritten(s, name);
  }

  /** A token wrapped in `[$` and `]` is replaced on its own and the wrapper is kept: the pattern does not nest. */
  lemma WrappedTokenRewritten(s: Settings, name: string)
    requires IsName(name)
    ensures RewriteLine(s, "[$" + Token(name) + "]") == "[$" + Replacement(s, name) + "]"
  {
    var inner := ['$'] + (Token(name) + "]");
    assert "[$" + Token(name) + "]" == ['['] + inner;
    assert inner[1..][0] == '[' && !IsNameChar('[');
    RewriteUnmatched(s, '[', inner);
    DollarTokenRewritten(s, name);
  }

  /** A replacement can complete a token with the text around it, so the output can hold a token the input did not match. */
  lemma ReplacementCompletesToken(line: string)
    requires line == "[$[$a]]"
    ensures RewriteLine(Settings(map["a" := "b"], map[], false), line) == "[$b]"
  {
    var s := Settings(map["a" := "b"], map[], false);
    var a :| a == "a";
    assert IsName(a);
    WrappedTokenRewritten(s, a);
    assert line == "[$" + Token(a) + "]";
    assert "[$" + Replacement(s, a) + "]" == "[$b]" by {
      assert Replacement(s, a) == "b";
    }
  }
}
