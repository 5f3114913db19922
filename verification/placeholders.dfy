/**
 * The placeholder engine of the template loader: a scanner for the tokens the
 * pattern `\[\$([a-z0-9_-]+)\]` matches case-insensitively, the layered lookup
 * (`TryGetValue`) that resolves their identifiers, and the per-line and per-file
 * rewriting built on both.
 */
module Placeholders {

  import opened Options
  import Text

  // ---------------------------------------------------------------- tokens

  /** One character of `[a-z0-9_-]` under `RegexOptions.IgnoreCase`. */
  predicate IsNameChar(c: char)
  {
    ('a' <= c <= 'z') || ('A' <= c <= 'Z') || ('0' <= c <= '9') || c == '_' || c == '-'
  }

  /** A placeholder identifier: one or more name characters. */
  predicate IsName(n: string)
  {
    |n| > 0 && forall i :: 0 <= i < |n| ==> IsNameChar(n[i])
  }

  /** The token text `[$name]`. */
  function Token(name: string): string
  {
    "[$" + name + "]"
  }

  /** The length of the longest run of name characters `s` starts with. */
  function NameRun(s: string): (n: nat)
    ensures n <= |s|
    ensures forall i :: 0 <= i < n ==> IsNameChar(s[i])
    ensures n < |s| ==> !IsNameChar(s[n])
  {
    if s == [] || !IsNameChar(s[0]) then 0 else 1 + NameRun(s[1..])
  }

  /**
   * The length of the token the pattern matches at the very start of `s`, if it
   * matches there. The run of name characters is maximal because `]` is not one of
   * them, so backtracking cannot find a shorter match.
   */
  function MatchAt(s: string): (r: Option<nat>)
    ensures r.Some? ==> 4 <= r.value <= |s| && IsName(s[2..r.value - 1])
                        && s[..r.value] == Token(s[2..r.value - 1])
  {
    if |s| >= 2 && s[0] == '[' && s[1] == '$' then
      var n := NameRun(s[2..]);
      if n > 0 && 2 + n < |s| && s[2 + n] == ']' then
        assert s[..n + 3] == "[$" + s[2..n + 2] + "]";
        Some(n + 3)
      else None
    else None
  }

  /** Every token at the start of a line is matched there, whatever follows it. */
  lemma MatchAtToken(name: string, rest: string)
    requires IsName(name)
    ensures MatchAt(Token(name) + rest) == Some(|name| + 3)
  {
    var s := Token(name) + rest;
    var x := s[2..];
    assert x == name + "]" + rest;
    assert s[2 + |name|] == ']';
  }

  // ---------------------------------------------------------------- scanning

  /** A line cut into the pieces `Regex.Replace` sees: characters outside matches, and matches. */
  datatype Piece = Literal(c: char) | Placeholder(name: string)

  /** The text a piece stands for in the line (`m.Value` for a match). */
  function Source(p: Piece): string
  {
    match p
    case Literal(c) => [c]
    case Placeholder(name) => Token(name)
  }

  function Unscan(ps: seq<Piece>): string
  {
    if ps == [] then [] else Source(ps[0]) + Unscan(ps[1..])
  }

  /**
   * The non-overlapping matches of the pattern, found left to right: at each position
   * either a token is matched and scanning resumes after it, or one character is kept.
   */
  function Scan(line: string): (ps: seq<Piece>)
    ensures forall k :: 0 <= k < |ps| && ps[k].Placeholder? ==> IsName(ps[k].name)
    decreases |line|
  {
    if line == [] then []
    else match MatchAt(line)
      case Some(k) => [Placeholder(line[2..k - 1])] + Scan(line[k..])
      case None => [Literal(line[0])] + Scan(line[1..])
  }

  /** Scanning loses nothing: the pieces put back together are the line. */
  lemma {:induction false} ScanRoundTrip(line: string)
    ensures Unscan(Scan(line)) == line
    decreases |line|
  {
    if line != [] {
      match MatchAt(line)
      case Some(k) =>
        ScanRoundTrip(line[k..]);
        assert line == line[..k] + line[k..];
      case None =>
        ScanRoundTrip(line[1..]);
        assert line == [line[0]] + line[1..];
    }
  }

  /** A token at the start of a line becomes one placeholder, and scanning resumes right after it. */
  lemma ScanToken(name: string, rest: string)
    requires IsName(name)
    ensures Scan(Token(name) + rest) == [Placeholder(name)] + Scan(rest)
  {
    var s := Token(name) + rest;
    MatchAtToken(name, rest);
    assert s[2..|name| + 2] == name;
    assert s[|name| + 3..] == rest;
  }

  // ---------------------------------------------------------------- lookup

  /** The key/value sources of a lookup: the parsed `template_cfg.json`, the process environment, and whether the environment is a fallback. */
  datatype Settings = Settings(config: map<string, string>, environment: map<string, string>, useEnvVar: bool)

  /** The warnings the lookup logs. */
  datatype Warning = EnvironmentVariableNotFound(variable: string) | ConfigVariableNotFound(variable: string)

  /** What `TryGetValue` returns: the value, or failure with the warning it logged, if any. */
  datatype Lookup = Found(value: string) | NotFound(warning: Option<Warning>)

  /** `Environment.GetEnvironmentVariable`, with an unset variable read as empty (`string.IsNullOrEmpty`). */
  function EnvironmentVariable(environment: map<string, string>, name: string): (v: string)
    ensures name in environment ==> v == environment[name]
    ensures name !in environment ==> v == ""
  {
    if name in environment then environment[name] else ""
  }

  /**
   * `TemplateLoader.TryGetValue`: a non-empty config value wins; a key that is absent
   * from the config falls back to a non-empty environment variable when the fallback
   * is on; otherwise nothing is found. A key present with an empty value is not found
   * and logs nothing.
   */
  function TryGetValue(s: Settings, property: string): (r: Lookup)
    ensures r.Found? ==> r.value != ""
    ensures property in s.config ==>
      r == (if s.config[property] != "" then Found(s.config[property]) else NotFound(None))
    ensures property !in s.config && s.useEnvVar ==>
      r == (if EnvironmentVariable(s.environment, property) != ""
            then Found(EnvironmentVariable(s.environment, property))
            else NotFound(Some(EnvironmentVariableNotFound(property))))
    ensures property !in s.config && !s.useEnvVar ==>
      r == NotFound(Some(ConfigVariableNotFound(property)))
  {
    if property in s.config then
      var v := s.config[property];
      if v != "" then Found(v) else NotFound(None)
    else if s.useEnvVar then
      var v := EnvironmentVariable(s.environment, property);
      if v != "" then Found(v) else NotFound(Some(EnvironmentVariableNotFound(property)))
    else
      NotFound(Some(ConfigVariableNotFound(property)))
  }

  /** A key present in the config, even with an empty value, never consults the environment or the fallback flag. */
  lemma ConfigShadowsEnvironment(s: Settings, property: string, environment: map<string, string>, useEnvVar: bool)
    requires property in s.config
    ensures TryGetValue(s, property) == TryGetValue(Settings(s.config, environment, useEnvVar), property)
  {
  }

  /** With the fallback off, the environment plays no part. */
  lemma NoFallbackIgnoresEnvironment(s: Settings, property: string, environment: map<string, string>)
    requires !s.useEnvVar
    ensures TryGetValue(s, property) == TryGetValue(s.(environment := environment), property)
  {
  }

  // ---------------------------------------------------------------- rewriting

  /** What one match is replaced by: the looked-up value, or the matched text itself. */
  function Replacement(s: Settings, name: string): string
  {
    match TryGetValue(s, name)
    case Found(v) => v
    case NotFound(_) => Token(name)
  }

  function Substitute(s: Settings, p: Piece): string
  {
    match p
    case Literal(c) => [c]
    case Placeholder(name) => Replacement(s, name)
  }

  function RewritePieces(s: Settings, ps: seq<Piece>): string
  {
    if ps == [] then [] else Substitute(s, ps[0]) + RewritePieces(s, ps[1..])
  }

  /** The per-line `Regex.Replace` of `CopyFile`: every match replaced once, left to right. */
  function RewriteLine(s: Settings, line: string): string
  {
    RewritePieces(s, Scan(line))
  }

  /** A token at the start of a line is replaced on its own, and the rest of the line is rewritten independently of it. */
  lemma RewriteToken(s: Settings, name: string, rest: string)
    requires IsName(name)
    ensures RewriteLine(s, Token(name) + rest) == Replacement(s, name) + RewriteLine(s, rest)
  {
    ScanToken(name, rest);
  }

  /** The pieces of text in which no match starts: one literal per character. */
  function Literals(text: string): (ps: seq<Piece>)
    ensures |ps| == |text| && forall k :: 0 <= k < |text| ==> ps[k] == Literal(text[k])
  {
    if text == [] then [] else [Literal(text[0])] + Literals(text[1..])
  }

  /** Text holding no `[` contains no match: scanning keeps it character by character and resumes after it. */
  lemma {:induction false} ScanVerbatimPrefix(text: string, rest: string)
    requires forall i :: 0 <= i < |text| ==> text[i] != '['
    ensures Scan(text + rest) == Literals(text) + Scan(rest)
    decreases |text|
  {
    if text == [] {
      assert text + rest == rest;
    } else {
      var line := text + rest;
      assert MatchAt(line).None?;
      assert line[1..] == text[1..] + rest;
      ScanVerbatimPrefix(text[1..], rest);
    }
  }

  lemma {:induction false} RewritePiecesAppend(s: Settings, a: seq<Piece>, b: seq<Piece>)
    ensures RewritePieces(s, a + b) == RewritePieces(s, a) + RewritePieces(s, b)
  {
    if a == [] {
      assert a + b == b;
    } else {
      assert (a + b)[1..] == a[1..] + b;
      RewritePiecesAppend(s, a[1..], b);
    }
  }

  lemma {:induction false} RewriteLiterals(s: Settings, text: string)
    ensures RewritePieces(s, Literals(text)) == text
  {
    if text != [] {
      RewriteLiterals(s, text[1..]);
      assert Literals(text)[1..] == Literals(text[1..]);
      assert text == [text[0]] + text[1..];
    }
  }

  /** Text holding no `[` is copied through unchanged, and the rest of the line is rewritten on its own. */
  lemma RewriteVerbatimPrefix(s: Settings, text: string, rest: string)
    requires forall i :: 0 <= i < |text| ==> text[i] != '['
    ensures RewriteLine(s, text + rest) == text + RewriteLine(s, rest)
  {
    ScanVerbatimPrefix(text, rest);
    RewritePiecesAppend(s, Literals(text), Scan(rest));
    RewriteLiterals(s, text);
  }

  /** Pieces whose placeholders all fail to resolve are reproduced exactly. */
  lemma {:induction false} UnresolvedPiecesKept(s: Settings, ps: seq<Piece>)
    requires forall k :: 0 <= k < |ps| && ps[k].Placeholder? ==> TryGetValue(s, ps[k].name).NotFound?
    ensures RewritePieces(s, ps) == Unscan(ps)
  {
    if ps != [] {
      UnresolvedPiecesKept(s, ps[1..]);
    }
  }

  /** A line none of whose matches resolves comes out unchanged, so rewriting it again changes nothing either. */
  lemma UnresolvedLineKept(s: Settings, line: string)
    requires forall k :: 0 <= k < |Scan(line)| && Scan(line)[k].Placeholder? ==>
               TryGetValue(s, Scan(line)[k].name).NotFound?
    ensures RewriteLine(s, line) == line
  {
    UnresolvedPiecesKept(s, Scan(line));
    ScanRoundTrip(line);
  }

  /** Every value of the config and of the environment is free of line breaks. */
  predicate ValuesSingleLine(s: Settings)
  {
    && (forall k :: k in s.config ==> Text.NoLineBreak(s.config[k]))
    && (forall k :: k in s.environment ==> Text.NoLineBreak(s.environment[k]))
  }

  lemma {:induction false} RewritePiecesSingleLine(s: Settings, ps: seq<Piece>)
    requires ValuesSingleLine(s)
    requires forall k :: 0 <= k < |ps| ==> Text.NoLineBreak(Source(ps[k]))
    ensures Text.NoLineBreak(RewritePieces(s, ps))
  {
    if ps != [] {
      RewritePiecesSingleLine(s, ps[1..]);
      var head := Substitute(s, ps[0]);
      assert Text.NoLineBreak(head);
      var r := RewritePieces(s, ps);
      assert r == head + RewritePieces(s, ps[1..]);
      forall i | 0 <= i < |r| ensures !Text.IsLineBreak(r[i]) {
        if i >= |head| {
          assert r[i] == RewritePieces(s, ps[1..])[i - |head|];
        }
      }
    }
  }

  lemma {:induction false} ScanPiecesInLine(line: string)
    requires Text.NoLineBreak(line)
    ensures forall k :: 0 <= k < |Scan(line)| ==> Text.NoLineBreak(Source(Scan(line)[k]))
    decreases |line|
  {
    if line != [] {
      match MatchAt(line)
      case Some(k) =>
        ScanPiecesInLine(line[k..]);
        assert Source(Scan(line)[0]) == line[..k];
      case None =>
        ScanPiecesInLine(line[1..]);
    }
  }

  /** When no value holds a line break, a rewritten line is still one line. */
  lemma RewriteLineSingleLine(s: Settings, line: string)
    requires ValuesSingleLine(s) && Text.NoLineBreak(line)
    ensures Text.NoLineBreak(RewriteLine(s, line))
  {
    ScanPiecesInLine(line);
    RewritePiecesSingleLine(s, Scan(line));
  }

  /** The warnings logged while rewriting pieces, in order. */
  function PieceWarnings(s: Settings, ps: seq<Piece>): (ws: seq<Warning>)
    ensures forall k :: 0 <= k < |ws| ==> exists j :: 0 <= j < |ps| && ps[j] == Placeholder(ws[k].variable)
  {
    if ps == [] then []
    else
      var head := match ps[0]
        case Placeholder(name) =>
          (match TryGetValue(s, name) case NotFound(Some(w)) => [w] case _ => [])
        case Literal(_) => [];
      var tail := PieceWarnings(s, ps[1..]);
      assert forall k :: 0 <= k < |tail| ==> exists j :: 0 < j < |ps| && ps[j] == Placeholder(tail[k].variable) by {
        forall k | 0 <= k < |tail| ensures exists j :: 0 < j < |ps| && ps[j] == Placeholder(tail[k].variable) {
          var j :| 0 <= j < |ps[1..]| && ps[1..][j] == Placeholder(tail[k].variable);
          assert ps[j + 1] == ps[1..][j];
        }
      }
      head + tail
  }

  lemma {:induction false} PieceWarningsAppend(s: Settings, a: seq<Piece>, b: seq<Piece>)
    ensures PieceWarnings(s, a + b) == PieceWarnings(s, a) + PieceWarnings(s, b)
  {
    if a == [] {
      assert a + b == b;
    } else {
      assert (a + b)[1..] == a[1..] + b;
      PieceWarningsAppend(s, a[1..], b);
    }
  }

  lemma {:induction false} LiteralsWarnNothing(s: Settings, text: string)
    ensures PieceWarnings(s, Literals(text)) == []
  {
    if text != [] {
      LiteralsWarnNothing(s, text[1..]);
      assert Literals(text)[1..] == Literals(text[1..]);
    }
  }

  /** The warnings `CopyFile` logs for one line. */
  function LineWarnings(s: Settings, line: string): seq<Warning>
  {
    PieceWarnings(s, Scan(line))
  }

  // ---------------------------------------------------------------- files

  function RewriteLines(s: Settings, ls: seq<string>): (out: seq<string>)
    ensures |out| == |ls|
    ensures forall k :: 0 <= k < |ls| ==> out[k] == RewriteLine(s, ls[k])
  {
    if ls == [] then [] else [RewriteLine(s, ls[0])] + RewriteLines(s, ls[1..])
  }

  /** The text `CopyFile` writes for a file whose text is `text`: one `WriteLine` of each rewritten line. */
  function ExpandText(s: Settings, text: string): string
  {
    Text.WriteLines(RewriteLines(s, Text.Lines(text)))
  }

  /** Expanding a text writes its first line, rewritten, and then the expansion of the unread rest. */
  lemma ExpandFirstLine(s: Settings, text: string)
    requires text != []
    ensures var r := Text.ReadLine(text).value;
      ExpandText(s, text) == RewriteLine(s, r.0) + "\n" + ExpandText(s, text[r.1..])
  {
    var r := Text.ReadLine(text).value;
    assert Text.Lines(text) == [r.0] + Text.Lines(text[r.1..]);
    var out := RewriteLines(s, Text.Lines(text));
    assert out[1..] == RewriteLines(s, Text.Lines(text[r.1..]));
  }

  /** One step of writing an expansion line by line: what is written grows by the next line, what is left shrinks by it. */
  lemma ExpandStep(s: Settings, text: string, written: string, unread: string)
    requires unread != [] && ExpandText(s, text) == written + ExpandText(s, unread)
    ensures var r := Text.ReadLine(unread).value;
      ExpandText(s, text) == (written + (RewriteLine(s, r.0) + "\n")) + ExpandText(s, unread[r.1..])
  {
    ExpandFirstLine(s, unread);
  }

  /** Nothing is written for an empty text. */
  lemma ExpandEmpty(s: Settings)
    ensures ExpandText(s, []) == []
  {
    assert Text.Lines([]) == [];
  }

  /**
   * Read back, the expanded file has one line per line of the template, in the same
   * order, each the rewriting of its template line, provided no value holds a line break.
   */
  lemma ExpandTextLines(s: Settings, text: string)
    requires ValuesSingleLine(s)
    ensures Text.Lines(ExpandText(s, text)) == RewriteLines(s, Text.Lines(text))
  {
    var ls := Text.Lines(text);
    var out := RewriteLines(s, ls);
    forall k | 0 <= k < |out| ensures Text.NoLineBreak(out[k]) {
      RewriteLineSingleLine(s, ls[k]);
    }
    Text.LinesOfWriteLines(out);
  }
}
