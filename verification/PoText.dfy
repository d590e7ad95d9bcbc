/** The text level of PO files: lines, and quoted strings
    (misc/i18n-sync-pot-files.py:77-113). */
module PoText {
  import opened Options

  // ------------------------------------------------------------------ lines

  /** Where Python's str.splitlines breaks a line. */
  predicate IsBreak(c: char) {
    || c == '\n' || c == '\r' || c == '\U{000b}' || c == '\U{000c}' || c == '\U{001c}' || c == '\U{001d}' || c
        == '\U{001e}'
    || c == '\U{0085}' || c == '\U{2028}' || c == '\U{2029}'
  }

  /** What Python's str.strip removes. */
  predicate IsSpace(c: char) {
    || IsBreak(c) || c == ' ' || c == '\t' || c == '\U{001f}' || c == '\U{00a0}' || c == '\U{1680}'
    || '\U{2000}' <= c <= '\U{200a}' || c == '\U{202f}' || c == '\U{205f}' || c == '\U{3000}'
  }

  /** The number of characters before the first line break. */
  function FirstBreak(text: string): (n: nat)
    ensures n <= |text| && (forall i :: 0 <= i < n ==> !IsBreak(text[i])) && (n < |text| ==> IsBreak(text[n]))
  {
    if text == "" || IsBreak(text[0]) then 0 else 1 + FirstBreak(text[1..])
  }

  /** str.splitlines; a carriage return and a newline behind it are one break. */
  function SplitLines(text: string): seq<string>
    decreases |text|
  {
    if text == "" then []
    else
      var n := FirstBreak(text);
      if n == |text| then [text]
      else
        var crlf := text[n] == '\r' && n + 1 < |text| && text[n + 1] == '\n';
        [text[..n]] + SplitLines(text[if crlf then n + 2 else n + 1..])
  }

  /** The lines with a newline behind each. */
  function JoinLines(lines: seq<string>): string {
    if lines == [] then "" else lines[0] + "\n" + JoinLines(lines[1..])
  }

  predicate Unbroken(line: string) { forall c <- line :: !IsBreak(c) }

  lemma FirstBreakAt(line: string, rest: string)
    requires Unbroken(line)
    ensures FirstBreak(line + "\n" + rest) == |line|
  {
    var text := line + "\n" + rest;
    var n := FirstBreak(text);
    assert text[|line|] == '\n';
    assert forall i :: 0 <= i < |line| ==> text[i] == line[i] && line[i] in line;
  }

  lemma SplitFirst(line: string, rest: string)
    requires Unbroken(line)
    ensures SplitLines(line + "\n" + rest) == [line] + SplitLines(rest)
  {
    FirstBreakAt(line, rest);
    var text := line + "\n" + rest;
    assert text[..|line|] == line && text[|line| + 1..] == rest;
  }

  /** Joined lines split off whatever follows them. */
  lemma {:induction false} SplitJoined(lines: seq<string>, rest: string)
    requires forall i :: 0 <= i < |lines| ==> Unbroken(lines[i])
    ensures SplitLines(JoinLines(lines) + rest) == lines + SplitLines(rest)
    decreases lines
  {
    hide SplitLines, Unbroken;
    if lines == [] {
      assert "" + rest == rest;
    } else {
      var behind := JoinLines(lines[1..]) + rest;
      assert JoinLines(lines) + rest == lines[0] + "\n" + behind;
      SplitFirst(lines[0], behind);
      SplitJoined(lines[1..], rest);
      assert lines == [lines[0]] + lines[1..];
    }
  }

  lemma {:induction false} SplitLinesUnbroken(text: string)
    ensures forall i :: 0 <= i < |SplitLines(text)| ==> Unbroken(SplitLines(text)[i])
    decreases |text|
  {
    if text != "" {
      var n := FirstBreak(text);
      if n < |text| {
        SplitLinesUnbroken(text[if text[n] == '\r' && n + 1 < |text| && text[n + 1] == '\n' then n + 2 else n + 1..]);
      }
    }
  }

  // --------------------------------------------------------------- stripping

  function StripLeft(s: string): string {
    if s != "" && IsSpace(s[0]) then StripLeft(s[1..]) else s
  }

  function StripRight(s: string): string {
    if s != "" && IsSpace(s[|s| - 1]) then StripRight(s[..|s| - 1]) else s
  }

  function Strip(s: string): string { StripRight(StripLeft(s)) }

  predicate IsBlank(line: string) { Strip(line) == "" }

  /** What Python's str.startswith tests. */
  predicate StartsWith(s: string, prefix: string) { prefix <= s }

  lemma StripQuoted(s: string)
    requires |s| >= 1 && s[0] == '"' && s[|s| - 1] == '"'
    ensures Strip(s) == s && !IsBlank(s)
  {
  }

  // ---------------------------------------------------------- quoted strings

  /** str.replace of a character. */
  function Replace(s: string, c: char, repl: string): string {
    if s == "" then "" else (if s[0] == c then repl else [s[0]]) + Replace(s[1..], c, repl)
  }

  /** _escape_po_string. */
  function Escape(value: string): string {
    Replace(Replace(Replace(value, '\\', "\\\\"), '"', "\\\""), '\n', "\\n")
  }

  function EscapeChar(c: char): string {
    if c == '\\' then "\\\\" else if c == '"' then "\\\"" else if c == '\n' then "\\n" else [c]
  }

  function EscapeEach(value: string): string {
    if value == "" then "" else EscapeChar(value[0]) + EscapeEach(value[1..])
  }

  lemma {:induction false} ReplaceConcat(s: string, t: string, c: char, repl: string)
    ensures Replace(s + t, c, repl) == Replace(s, c, repl) + Replace(t, c, repl)
    decreases s
  {
    if s == "" {
      assert s + t == t;
    } else {
      assert (s + t)[0] == s[0] && (s + t)[1..] == s[1..] + t;
      ReplaceConcat(s[1..], t, c, repl);
    }
  }

  /** The three replacements one after the other escape each character by itself. */
  lemma {:induction false} EscapeIsEach(value: string)
    ensures Escape(value) == EscapeEach(value)
    decreases value
  {
    if value != "" {
      EscapeIsEach(value[1..]);
      var c := value[0];
      assert value == [c] + value[1..];
      ReplaceConcat([c], value[1..], '\\', "\\\\");
      var first := Replace([c], '\\', "\\\\");
      ReplaceConcat(first, Replace(value[1..], '\\', "\\\\"), '"', "\\\"");
      ReplaceConcat(Replace(first, '"', "\\\""), Replace(Replace(value[1..], '\\', "\\\\"), '"', "\\\""), '\n', "\\n");
      EscapeOne(c);
    }
  }

  lemma EscapeOne(c: char)
    ensures Replace(Replace(Replace([c], '\\', "\\\\"), '"', "\\\""), '\n', "\\n") == EscapeChar(c)
  {
    assert [c][1..] == "";
    if c == '\\' {
      assert Replace([c], '\\', "\\\\") == "\\\\";
      assert "\\\\"[1..] == "\\" && "\\"[1..] == "";
      assert Replace("\\", '"', "\\\"") == "\\" && Replace("\\\\", '"', "\\\"") == "\\\\";
      assert Replace("\\", '\n', "\\n") == "\\" && Replace("\\\\", '\n', "\\n") == "\\\\";
    } else if c == '"' {
      assert Replace([c], '\\', "\\\\") == [c];
      assert Replace([c], '"', "\\\"") == "\\\"";
      assert "\\\""[1..] == "\"" && "\""[1..] == "";
      assert Replace("\"", '\n', "\\n") == "\"" && Replace("\\\"", '\n', "\\n") == "\\\"";
    }
  }

  /** What stands for the character behind a backslash. None is an escape with
      digits or a name, which this model does not read. */
  function EscapeValue(c: char): Option<string> {
    if c == '\\' || c == '"' || c == '\'' then Some([c])
    else if c == 'n' then Some("\n")
    else if c == 't' then Some("\t")
    else if c == 'r' then Some("\r")
    else if c == 'a' then Some("\U{0007}")
    else if c == 'b' then Some("\U{0008}")
    else if c == 'f' then Some("\U{000c}")
    else if c == 'v' then Some("\U{000b}")
    else if c == '\0' || '0' <= c <= '7' || c == 'x' || c == 'u' || c == 'U' || c == 'N' then None
    else Some(['\\', c])
  }

  /** The rest of a literal behind its opening quote; the closing quote must be the
      last character. */
  function UnescapeRest(s: string): Option<string> {
    if s == "" || s[0] == '\0' then None
    else if s[0] == '"' then if |s| == 1 then Some("") else None
    else if s[0] == '\\' then
      if |s| == 1 || EscapeValue(s[1]).None? then None
      else
        match UnescapeRest(s[2..])
        case None => None
        case Some(rest) => Some(EscapeValue(s[1]).value + rest)
    else
      match UnescapeRest(s[1..])
      case None => None
      case Some(rest) => Some([s[0]] + rest)
  }

  /** _unescape_po_string; None is the ValueError. */
  function Unescape(quoted: string): Option<string> {
    if quoted == "" || quoted[0] != '"' then None else UnescapeRest(quoted[1..])
  }

  function Quote(value: string): string { "\"" + Escape(value) + "\"" }

  lemma {:induction false} UnescapeEach(value: string)
    ensures UnescapeRest(EscapeEach(value) + "\"") == if '\0' in value then None else Some(value)
    decreases value
  {
    if value == "" {
      assert EscapeEach(value) + "\"" == "\"";
    } else {
      var (c, rest) := (value[0], EscapeEach(value[1..]) + "\"");
      UnescapeEach(value[1..]);
      assert EscapeEach(value) + "\"" == EscapeChar(c) + rest;
      var s := EscapeChar(c) + rest;
      assert value == [c] + value[1..];
      if |EscapeChar(c)| == 2 {
        assert s[0] == '\\' && s[1] == EscapeChar(c)[1] && s[2..] == rest;
      } else {
        assert s[0] == c && s[1..] == rest;
      }
    }
  }

  /** Unescaping an escaped string gives it back, for every string without a NUL. */
  lemma UnescapeEscape(value: string)
    ensures Unescape(Quote(value)) == if '\0' in value then None else Some(value)
  {
    EscapeIsEach(value);
    UnescapeEach(value);
    assert Quote(value)[1..] == EscapeEach(value) + "\"";
  }
}
