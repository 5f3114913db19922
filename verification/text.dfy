/**
 * The .NET string primitives the core relies on, written out over `seq<char>`:
 * `string.Trim`, `StreamReader.ReadLine` line splitting and ordinal
 * case-insensitive comparison.
 */
module Text {

  import opened Options

  /** The characters `char.IsWhiteSpace` accepts (Unicode categories Zs, Zl, Zp and the control characters U+0009-U+000D, U+0085). */
  predicate IsWhiteSpace(c: char)
  {
    c == ' ' || ('\t' <= c <= '\r') || c == '\U{0085}' || c == '\U{00A0}' || c == '\U{1680}'
    || ('\U{2000}' <= c <= '\U{200A}') || c == '\U{2028}' || c == '\U{2029}' || c == '\U{202F}'
    || c == '\U{205F}' || c == '\U{3000}'
  }

  /** How many white-space characters `s` starts with. */
  function LeadingSpace(s: string): (n: nat)
    ensures n <= |s|
    ensures forall i :: 0 <= i < n ==> IsWhiteSpace(s[i])
    ensures n < |s| ==> !IsWhiteSpace(s[n])
  {
    if s == [] || !IsWhiteSpace(s[0]) then 0 else 1 + LeadingSpace(s[1..])
  }

  /** How many white-space characters `s` ends with. */
  function TrailingSpace(s: string): (n: nat)
    ensures n <= |s|
    ensures forall i :: |s| - n <= i < |s| ==> IsWhiteSpace(s[i])
    ensures n < |s| ==> !IsWhiteSpace(s[|s| - n - 1])
  {
    if s == [] || !IsWhiteSpace(s[|s| - 1]) then 0 else 1 + TrailingSpace(s[..|s| - 1])
  }

  /**
   * `string.Trim()`: empty exactly when `s` is all white space; otherwise the
   * contiguous middle of `s` between its leading and its trailing white space,
   * which neither starts nor ends with white space.
   */
  function Trim(s: string): (r: string)
    ensures r == [] <==> forall i :: 0 <= i < |s| ==> IsWhiteSpace(s[i])
    ensures r != [] ==> r == s[LeadingSpace(s)..|s| - TrailingSpace(s)]
    ensures r != [] ==> !IsWhiteSpace(r[0]) && !IsWhiteSpace(r[|r| - 1])
  {
    var i, j := LeadingSpace(s), |s| - TrailingSpace(s);
    if i == |s| then [] else
    assert i < j;
    s[i..j]
  }

  /** Trimming twice is trimming once. */
  lemma TrimIdempotent(s: string)
    ensures Trim(Trim(s)) == Trim(s)
  {
    var r := Trim(s);
    if r != [] {
      assert LeadingSpace(r) == 0;
      assert TrailingSpace(r) == 0;
    }
  }

  /** ASCII lower-casing, the part of invariant-culture case folding the model keeps. */
  function ToLower(c: char): (d: char)
    ensures 'A' <= c <= 'Z' ==> d as int == c as int + 32
    ensures !('A' <= c <= 'Z') ==> d == c
  {
    if 'A' <= c <= 'Z' then (c as int + 32) as char else c
  }

  /** Case-insensitive equality of two strings (`StringComparison.InvariantCultureIgnoreCase`, restricted to ASCII letters). */
  predicate EqualsIgnoreCase(a: string, b: string)
  {
    |a| == |b| && forall i :: 0 <= i < |a| ==> ToLower(a[i]) == ToLower(b[i])
  }

  predicate IsLineBreak(c: char)
  {
    c == '\r' || c == '\n'
  }

  /** Index of the first line break in `s`, or `|s|` if there is none. */
  function LineEnd(s: string): (e: nat)
    ensures e <= |s|
    ensures forall i :: 0 <= i < e ==> !IsLineBreak(s[i])
    ensures e < |s| ==> IsLineBreak(s[e])
  {
    if s == [] || IsLineBreak(s[0]) then 0 else 1 + LineEnd(s[1..])
  }

  /**
   * One `StreamReader.ReadLine` call on the unread text `s`: `None` at the end of the
   * text; otherwise the characters up to the next `\r`, `\n` or `\r\n`, and how many
   * characters the call consumes, terminator included.
   */
  function ReadLine(s: string): (r: Option<(string, nat)>)
    ensures r.None? <==> s == []
    ensures r.Some? ==> 0 < r.value.1 <= |s| && r.value.0 == s[..LineEnd(s)]
  {
    if s == [] then None
    else
      var e := LineEnd(s);
      var next := if e == |s| then e
                  else if s[e] == '\r' && e + 1 < |s| && s[e + 1] == '\n' then e + 2
                  else e + 1;
      Some((s[..e], next))
  }

  /** All the lines `ReadLine` returns, in order, until it reports the end of the text. */
  function Lines(s: string): (ls: seq<string>)
    ensures forall k :: 0 <= k < |ls| ==> NoLineBreak(ls[k])
    decreases |s|
  {
    match ReadLine(s)
    case None => []
    case Some((line, next)) => [line] + Lines(s[next..])
  }

  predicate NoLineBreak(s: string)
  {
    forall i :: 0 <= i < |s| ==> !IsLineBreak(s[i])
  }

  /** The three line terminators `ReadLine` recognises. */
  predicate IsTerminator(t: string)
  {
    t == "\n" || t == "\r" || t == "\r\n"
  }

  /**
   * A line followed by a terminator is one `ReadLine`, and reading goes on right after the
   * terminator: `\r\n` counts as one terminator, so a lone `\r` ends a line only when no
   * `\n` follows it.
   */
  lemma ReadLineTerminated(x: string, t: string, y: string)
    requires NoLineBreak(x) && IsTerminator(t)
    requires t == "\r" ==> y == [] || y[0] != '\n'
    ensures ReadLine(x + t + y) == Some((x, |x| + |t|))
    ensures Lines(x + t + y) == [x] + Lines(y)
  {
    var s := x + t + y;
    assert s[|x|] == t[0];
    assert s[..|x|] == x;
    LineEndAt(s, |x|);
    assert s[|x| + |t|..] == y;
  }

  /** The last line of a text needs no terminator. */
  lemma LastLineUnterminated(x: string)
    requires NoLineBreak(x) && x != []
    ensures Lines(x) == [x]
  {
    var e := LineEnd(x);
    assert e == |x|;
    assert x[..e] == x;
    assert ReadLine(x) == Some((x, |x|));
    assert x[|x|..] == [];
  }

  /** The text a `StreamWriter` holds after one `WriteLine` per element of `ls` (line terminator `\n`). */
  function WriteLines(ls: seq<string>): (s: string)
  {
    if ls == [] then [] else ls[0] + "\n" + WriteLines(ls[1..])
  }

  /** Lines written with `WriteLine` read back as the same lines, provided none holds a line break. */
  lemma {:induction false} LinesOfWriteLines(ls: seq<string>)
    requires forall k :: 0 <= k < |ls| ==> NoLineBreak(ls[k])
    ensures Lines(WriteLines(ls)) == ls
  {
    if ls != [] {
      var s := WriteLines(ls);
      var l := ls[0];
      assert s == l + ("\n" + WriteLines(ls[1..]));
      assert s[|l|] == '\n';
      assert s[..|l|] == l;
      LineEndAt(s, |l|);
      assert ReadLine(s) == Some((l, |l| + 1));
      assert s[|l| + 1..] == WriteLines(ls[1..]);
      LinesOfWriteLines(ls[1..]);
    }
  }

  lemma LineEndAt(s: string, e: nat)
    requires e < |s| && IsLineBreak(s[e])
    requires forall i :: 0 <= i < e ==> !IsLineBreak(s[i])
    ensures LineEnd(s) == e
  {
  }
}
