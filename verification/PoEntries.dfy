/** Entries of PO files: parsing blocks of lines and writing new ones
    (misc/i18n-sync-pot-files.py:84-251). */
module PoEntries {
  import opened Options
  import opened PoText

  /** Of an entry the tool uses its lines and its key. */
  datatype Key = Key(msgctxt: Option<string>, msgid: string, msgidPlural: Option<string>)
  datatype Entry = Entry(rawLines: seq<string>, key: Key)

  predicate IsHeader(e: Entry) { e.key.msgid == "" }

  // ---------------------------------------------------------------- parsing

  datatype Field = Msgctxt | Msgid | MsgidPlural | Msgstr

  datatype Parsing = Parsing(
    msgctxt: Option<string>,
    msgid: Option<string>,
    msgidPlural: Option<string>,
    current: Option<Field>)

  const NOTHING_PARSED := Parsing(None, None, None, None)

  function FirstIndex(s: string, c: char): (n: nat)
    ensures n <= |s| && (n < |s| ==> s[n] == c) && c !in s[..n]
  {
    if s == "" || s[0] == c then 0 else 1 + FirstIndex(s[1..], c)
  }

  /** What stands behind the first space, stripped and unescaped. */
  function QuotedValue(line: string): Option<string> {
    var n := FirstIndex(line, ' ');
    if n == |line| then None else Unescape(Strip(line[n + 1..]))
  }

  predicate IsNumber(s: string) { s != "" && forall c <- s :: '0' <= c <= '9' }

  function SetField(st: Parsing, field: Field, value: string): Parsing {
    match field
    case Msgctxt => st.(msgctxt := Some(value), current := Some(Msgctxt))
    case Msgid => st.(msgid := Some(value), current := Some(Msgid))
    case MsgidPlural => st.(msgidPlural := Some(value), current := Some(MsgidPlural))
    case Msgstr => st.(current := Some(Msgstr))
  }

  function GetField(st: Parsing, field: Field): string {
    var v := match field case Msgctxt =>
      st.msgctxt case Msgid => st.msgid case MsgidPlural => st.msgidPlural case Msgstr => None;
    if v.None? then "" else v.value
  }

  function StartField(st: Parsing, field: Field, line: string): Option<Parsing> {
    match QuotedValue(line)
    case None => None
    case Some(v) => Some(SetField(st, field, v))
  }

  /** One line of an entry; None is a ValueError or IndexError. */
  function ParseLine(st: Parsing, line: string): Option<Parsing> {
    if StartsWith(line, "#") then Some(st)
    else if StartsWith(line, "msgctxt ") then StartField(st, Msgctxt, line)
    else if StartsWith(line, "msgid_plural ") then StartField(st, MsgidPlural, line)
    else if StartsWith(line, "msgid ") then StartField(st, Msgid, line)
    else if StartsWith(line, "msgstr[") then
      if IsNumber(line[..FirstIndex(line, ']')][7..]) then StartField(st, Msgstr, line) else None
    else if StartsWith(line, "msgstr ") then StartField(st, Msgstr, line)
    else if StartsWith(line, "\"") && st.current.Some? then
      match Unescape(Strip(line))
      case None => None
      case Some(v) => Some(SetField(st, st.current.value, GetField(st, st.current.value) + v))
    else Some(st)
  }

  function ParseLines(st: Parsing, lines: seq<string>): Option<Parsing>
    decreases lines
  {
    if lines == [] then Some(st)
    else
      match ParseLine(st, lines[0])
      case None => None
      case Some(st') => ParseLines(st', lines[1..])
  }

  function ToEntry(st: Parsing, lines: seq<string>): Entry {
    Entry(lines, Key(st.msgctxt, if st.msgid.None? then "" else st.msgid.value, st.msgidPlural))
  }

  function ParseEntry(lines: seq<string>): Option<Entry> {
    match ParseLines(NOTHING_PARSED, lines)
    case None => None
    case Some(st) => Some(ToEntry(st, lines))
  }

  predicate IsObsoleteBlock(lines: seq<string>) {
    if lines == [] then false
    else if IsBlank(lines[0]) then IsObsoleteBlock(lines[1..])
    else StartsWith(StripLeft(lines[0]), "#~")
  }

  /** The entry of a finished block, if it is a live one. */
  function Flush(block: seq<string>): Option<seq<Entry>> {
    if block == [] || IsObsoleteBlock(block) then Some([])
    else
      match ParseEntry(block)
      case None => None
      case Some(e) => Some([e])
  }

  function Append(a: Option<seq<Entry>>, b: Option<seq<Entry>>): Option<seq<Entry>> {
    if a.None? || b.None? then None else Some(a.value + b.value)
  }

  /** The entries of the lines, `block` being the lines of the one begun. */
  function ParseBlocks(lines: seq<string>, block: seq<string>): Option<seq<Entry>>
    decreases lines
  {
    if lines == [] then Flush(block)
    else if IsBlank(lines[0]) then Append(Flush(block), ParseBlocks(lines[1..], []))
    else ParseBlocks(lines[1..], block + [lines[0]])
  }

  function ParsePo(text: string): Option<seq<Entry>> { ParseBlocks(SplitLines(text), []) }

  // ---------------------------------------------------------------- writing

  /** str.split("\n"). */
  function Parts(value: string): (r: seq<string>)
    ensures r != []
  {
    if value == "" then [""]
    else if value[0] == '\n' then [""] + Parts(value[1..])
    else var rest := Parts(value[1..]); [[value[0]] + rest[0]] + rest[1..]
  }

  /** The lines behind the first of a multi-line value. */
  function PartLines(parts: seq<string>): seq<string>
    requires parts != []
  {
    if |parts| == 1 then [Quote(parts[0])] else ["\"" + Escape(parts[0]) + "\\n\""] + PartLines(parts[1..])
  }

  function FormatPoString(keyword: string, value: string): seq<string> {
    if '\n' !in value then [keyword + " " + Quote(value)] else [keyword + " \"\""] + PartLines(Parts(value))
  }

  const MARKER := "#: via misc/i18n-sync-pot-files.py"

  function BuildPotEntry(key: Key): seq<string> {
    [MARKER]
    + (if key.msgctxt.Some? then FormatPoString("msgctxt", key.msgctxt.value) else [])
    + FormatPoString("msgid", key.msgid)
    + (if key.msgidPlural.Some?
       then FormatPoString("msgid_plural", key.msgidPlural.value) + FormatPoString("msgstr[0]", "")
           + FormatPoString("msgstr[1]", "")
       else FormatPoString("msgstr", ""))
  }

  // ------------------------------------------------------------- round trip

  predicate NoNul(value: string) { '\0' !in value }

  predicate NoNulKey(key: Key) {
    && (key.msgctxt.Some? ==> NoNul(key.msgctxt.value)) && NoNul(key.msgid)
    && (key.msgidPlural.Some? ==> NoNul(key.msgidPlural.value))
  }

  function Rejoined(parts: seq<string>): string
    requires parts != []
  {
    if |parts| == 1 then parts[0] else parts[0] + "\n" + Rejoined(parts[1..])
  }

  lemma {:induction false} PartsRejoin(value: string)
    ensures Rejoined(Parts(value)) == value
    decreases value
  {
    if value != "" {
      PartsRejoin(value[1..]);
      var (c, rest) := (value[0], Parts(value[1..]));
      assert value == [c] + value[1..];
      if c == '\n' {
        assert Parts(value) == [""] + rest && Parts(value)[1..] == rest;
        assert "" + "\n" + Rejoined(rest) == [c] + value[1..];
      } else {
        RejoinFront(c, rest);
      }
    }
  }

  lemma RejoinFront(c: char, parts: seq<string>)
    requires parts != []
    ensures Rejoined([[c] + parts[0]] + parts[1..]) == [c] + Rejoined(parts)
  {
    var longer := [[c] + parts[0]] + parts[1..];
    assert longer[1..] == parts[1..];
    if |parts| > 1 {
      assert ([c] + parts[0]) + "\n" + Rejoined(parts[1..]) == [c] + (parts[0] + "\n" + Rejoined(parts[1..]));
    }
  }

  lemma {:induction false} PartsCover(value: string)
    ensures forall i :: 0 <= i < |Parts(value)| ==> forall c <- Parts(value)[i] :: c in value && c != '\n'
    ensures |Parts(value)| == 1 <==> '\n' !in value
    decreases value
  {
    if value != "" {
      PartsCover(value[1..]);
      assert value == [value[0]] + value[1..];
    }
  }

  lemma {:induction false} EscapeEachConcat(a: string, b: string)
    ensures EscapeEach(a + b) == EscapeEach(a) + EscapeEach(b)
    decreases a
  {
    if a == "" {
      assert a + b == b;
    } else {
      assert (a + b)[0] == a[0] && (a + b)[1..] == a[1..] + b;
      EscapeEachConcat(a[1..], b);
    }
  }

  /** A part's line is the quoted part with its newline. */
  lemma PartLineIsQuote(part: string)
    ensures "\"" + Escape(part) + "\\n\"" == Quote(part + "\n")
  {
    EscapeIsEach(part);
    EscapeIsEach(part + "\n");
    EscapeEachConcat(part, "\n");
    assert EscapeEach("\n") == "\\n" + EscapeEach("");
  }

  lemma {:induction false} ParseLinesConcat(st: Parsing, a: seq<string>, b: seq<string>)
    ensures ParseLines(st, a + b) == match ParseLines(st, a) case None => None case Some(st') => ParseLines(st', b)
    decreases a
  {
    if a == [] {
      assert a + b == b;
    } else {
      assert (a + b)[0] == a[0] && (a + b)[1..] == a[1..] + b;
      match ParseLine(st, a[0])
      case None =>
      case Some(st') => ParseLinesConcat(st', a[1..], b);
    }
  }

  /** The keywords with which the tool writes a field. */
  predicate IsKeyword(keyword: string, field: Field) {
    match field
    case Msgctxt => keyword == "msgctxt"
    case Msgid => keyword == "msgid"
    case MsgidPlural => keyword == "msgid_plural"
    case Msgstr => keyword == "msgstr" || keyword == "msgstr[0]" || keyword == "msgstr[1]"
  }

  lemma NotPrefix(line: string, prefix: string, i: nat)
    requires i < |line| && i < |prefix| && line[i] != prefix[i]
    ensures !StartsWith(line, prefix)
  {
  }

  lemma KeywordLine(st: Parsing, keyword: string, field: Field, quoted: string)
    requires IsKeyword(keyword, field)
    ensures ParseLine(st, keyword + " " + quoted) == StartField(st, field, keyword + " " + quoted)
    ensures FirstIndex(keyword + " " + quoted, ' ') == |keyword|
  {
    hide StartsWith, FirstIndex;
    var line := keyword + " " + quoted;
    SpaceBehind(keyword, quoted);
    NotPrefix(line, "#", 0);
    if field != Msgctxt { NotPrefix(line, "msgctxt ", 3); }
    if field == Msgid { NotPrefix(line, "msgid_plural ", 5); }
    match field
    case Msgctxt => IsPrefix(line, "msgctxt ");
    case Msgid => IsPrefix(line, "msgid ");
    case MsgidPlural => IsPrefix(line, "msgid_plural ");
    case Msgstr =>
      NotPrefix(line, "msgid_plural ", 3);
      NotPrefix(line, "msgid ", 3);
      MsgstrLine(keyword, line, quoted);
  }

  lemma IsPrefix(line: string, prefix: string)
    requires |prefix| <= |line| && forall i :: 0 <= i < |prefix| ==> line[i] == prefix[i]
    ensures StartsWith(line, prefix)
  {
  }

  lemma MsgstrLine(keyword: string, line: string, quoted: string)
    requires IsKeyword(keyword, Msgstr) && line == keyword + " " + quoted
    ensures if StartsWith(line, "msgstr[") then IsNumber(line[..FirstIndex(line, ']')][7..])
         else StartsWith(line, "msgstr ")
    ensures StartsWith(line, "msgstr[") ==> FirstIndex(line, ']') >= 7
  {
    if keyword == "msgstr" {
      NotPrefix(line, "msgstr[", 6);
    } else {
      BracketBehind(line);
      assert line[..8][7..] == [line[7]];
    }
  }

  lemma {:induction false} FirstIndexSkips(s: string, c: char, n: nat)
    requires n < |s| && s[n] == c && forall i :: 0 <= i < n ==> s[i] != c
    ensures FirstIndex(s, c) == n
    decreases n
  {
    if n > 0 { FirstIndexSkips(s[1..], c, n - 1); }
  }

  lemma SpaceBehind(keyword: string, quoted: string)
    requires forall i :: 0 <= i < |keyword| ==> keyword[i] != ' '
    ensures FirstIndex(keyword + " " + quoted, ' ') == |keyword|
  {
    FirstIndexSkips(keyword + " " + quoted, ' ', |keyword|);
  }

  lemma BracketBehind(line: string)
    requires |line| > 8 && line[8] == ']' && forall i :: 0 <= i < 8 ==> line[i] != ']'
    ensures FirstIndex(line, ']') == 8
  {
    FirstIndexSkips(line, ']', 8);
  }

  lemma QuoteIsQuoted(value: string)
    ensures |Quote(value)| >= 2 && Quote(value)[0] == '"' && Quote(value)[|Quote(value)| - 1] == '"'
    ensures Strip(Quote(value)) == Quote(value)
  {
    StripQuoted(Quote(value));
  }

  lemma ParsesQuotedLine(st: Parsing, keyword: string, field: Field, value: string)
    requires IsKeyword(keyword, field)
    ensures ParseLine(st, keyword + " " + Quote(value)) == if NoNul(value) then Some(SetField(st, field, value))
         else None
  {
    hide Quote, Unescape;
    var line := keyword + " " + Quote(value);
    KeywordLine(st, keyword, field, Quote(value));
    assert line[|keyword| + 1..] == Quote(value);
    QuoteIsQuoted(value);
    UnescapeEscape(value);
  }

  lemma SetFieldTwice(st: Parsing, field: Field, a: string, b: string)
    requires field != Msgstr
    ensures GetField(SetField(st, field, a), field) == a
    ensures SetField(SetField(st, field, a), field, b) == SetField(st, field, b)
    ensures SetField(st, field, a).current == Some(field)
  {
  }

  lemma ParseFirst(st: Parsing, lines: seq<string>)
    requires lines != []
    ensures ParseLines(st, lines)
         == if ParseLine(st, lines[0]).None? then None else ParseLines(ParseLine(st, lines[0]).value, lines[1..])
  {
    hide ParseLine;
  }

  lemma RejoinedFirst(parts: seq<string>)
    requires |parts| > 1
    ensures Rejoined(parts) == (parts[0] + "\n") + Rejoined(parts[1..])
    ensures PartLines(parts) == [Quote(parts[0] + "\n")] + PartLines(parts[1..])
    ensures NoNul(Rejoined(parts)) <==> NoNul(parts[0] + "\n") && NoNul(Rejoined(parts[1..]))
  {
    hide Quote, Escape;
    PartLineIsQuote(parts[0]);
  }

  /** Lines behind the first add to the value. */
  lemma {:induction false} ParsesPartLines(st: Parsing, field: Field, parts: seq<string>)
    requires parts != [] && st.current == Some(field) && field != Msgstr
    ensures ParseLines(st, PartLines(parts))
         == if NoNul(Rejoined(parts)) then Some(SetField(st, field, GetField(st, field) + Rejoined(parts))) else None
    decreases parts
  {
    hide Quote, Unescape, ParseLine, SetField, GetField, NoNul;
    if |parts| == 1 {
      ParsesContinuation(st, field, parts[0]);
      assert PartLines(parts)[1..] == [];
    } else {
      hide ParseLines, PartLines, Rejoined;
      var (value, before, rest) := (parts[0] + "\n", GetField(st, field), Rejoined(parts[1..]));
      RejoinedFirst(parts);
      ParseFirst(st, PartLines(parts));
      ParsesContinuation(st, field, value);
      SetFieldTwice(st, field, before + value, before + value + rest);
      ParsesPartLines(SetField(st, field, before + value), field, parts[1..]);
      assert before + value + rest == before + (value + rest);
    }
  }

  lemma ParsesContinuation(st: Parsing, field: Field, value: string)
    requires st.current == Some(field)
    ensures ParseLine(st, Quote(value)) == if NoNul(value) then Some(SetField(st, field, GetField(st, field) + value))
         else None
  {
    hide Quote, Unescape;
    QuoteIsQuoted(value);
    UnescapeEscape(value);
    assert Quote(value)[..1] == "\"";
  }

  /** Formatting a value and parsing its lines sets the field to the value. */
  lemma ParsesFormatted(st: Parsing, keyword: string, field: Field, value: string)
    requires IsKeyword(keyword, field) && (field == Msgstr ==> value == "")
    ensures ParseLines(st, FormatPoString(keyword, value)) == if NoNul(value) then Some(SetField(st, field, value))
         else None
  {
    hide ParseLine, Quote, Unescape;
    if '\n' !in value {
      ParsesQuotedLine(st, keyword, field, value);
      assert FormatPoString(keyword, value)[1..] == [];
    } else {
      var (first, lines) := (keyword + " \"\"", PartLines(Parts(value)));
      EmptyQuote();
      assert first == keyword + " " + Quote("");
      ParsesQuotedLine(st, keyword, field, "");
      assert FormatPoString(keyword, value)[0] == first && FormatPoString(keyword, value)[1..] == lines;
      PartsRejoin(value);
      ParsesPartLines(SetField(st, field, ""), field, Parts(value));
      assert "" + value == value;
    }
  }

  lemma EmptyQuote()
    ensures Quote("") == "\"\""
  {
  }

  function OptionalField(st: Parsing, field: Field, value: Option<string>): Parsing {
    if value.None? then st else SetField(st, field, value.value)
  }

  /** The block built for a key parses into an entry with that key, whatever the
      strings are but for NULs: absent and empty contexts stay apart, and values
      of several lines come back whole. */
  lemma ParsesBuilt(key: Key)
    ensures ParseEntry(BuildPotEntry(key)) == if NoNulKey(key) then Some(Entry(BuildPotEntry(key), key)) else None
  {
    hide ParseLine, FormatPoString, NoNul;
    var st0 := NOTHING_PARSED;
    var st1 := OptionalField(st0, Msgctxt, key.msgctxt);
    var st2 := SetField(st1, Msgid, key.msgid);
    var st3 := OptionalField(st2, MsgidPlural, key.msgidPlural);
    var ctxt := if key.msgctxt.Some? then FormatPoString("msgctxt", key.msgctxt.value) else [];
    var id := FormatPoString("msgid", key.msgid);
    var tail := if key.msgidPlural.Some?
                then FormatPoString("msgid_plural", key.msgidPlural.value) + FormatPoString("msgstr[0]", "")
                    + FormatPoString("msgstr[1]", "")
                else FormatPoString("msgstr", "");
    ParsesMarker(st0);
    if key.msgctxt.Some? { ParsesFormatted(st0, "msgctxt", Msgctxt, key.msgctxt.value); }
    ParsesFormatted(st1, "msgid", Msgid, key.msgid);
    ParsesTail(st2, key.msgidPlural);
    ParseLinesConcat(st0, [MARKER], ctxt);
    ParseLinesConcat(st0, [MARKER] + ctxt, id);
    ParseLinesConcat(st0, [MARKER] + ctxt + id, tail);
  }

  lemma ParsesMarker(st: Parsing)
    ensures ParseLines(st, [MARKER]) == Some(st)
  {
    assert MARKER[..1] == "#" && [MARKER][1..] == [];
  }

  lemma ParsesTail(st: Parsing, plural: Option<string>)
    ensures var tail := if plural.Some?
                        then FormatPoString("msgid_plural", plural.value) + FormatPoString("msgstr[0]", "")
                            + FormatPoString("msgstr[1]", "")
                        else FormatPoString("msgstr", "");
            ParseLines(st, tail) == if plural.Some? && !NoNul(plural.value) then None
                                    else Some(OptionalField(st, MsgidPlural, plural).(current := Some(Msgstr)))
  {
    hide ParseLine, FormatPoString, NoNul;
    NoNulEmpty();
    if plural.None? {
      ParsesFormatted(st, "msgstr", Msgstr, "");
    } else {
      var st' := OptionalField(st, MsgidPlural, plural);
      var (a, b, c) := (FormatPoString("msgid_plural", plural.value), FormatPoString("msgstr[0]", ""),
          FormatPoString("msgstr[1]", ""));
      ParsesFormatted(st, "msgid_plural", MsgidPlural, plural.value);
      ParsesFormatted(st', "msgstr[0]", Msgstr, "");
      ParsesFormatted(st'.(current := Some(Msgstr)), "msgstr[1]", Msgstr, "");
      ParseLinesConcat(st, a, b);
      ParseLinesConcat(st, a + b, c);
    }
  }

  lemma NoNulEmpty()
    ensures NoNul("")
  {
  }
}
