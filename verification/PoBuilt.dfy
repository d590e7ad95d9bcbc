/** The blocks the synchroniser builds for missing keys, and the entries they
    parse into (misc/i18n-sync-pot-files.py:77-251). */
module PoBuilt {
  import opened Options
  import opened PoText
  import opened PoEntries
  import opened PoSync

  // ------------------------------------------------------------ clean strings

  /** No line break in the string but newlines. */
  predicate Clean(value: string) { forall i :: 0 <= i < |value| ==> IsBreak(value[i]) ==> value[i] == '\n' }

  predicate CleanKey(key: Key) {
    Clean(OrEmpty(key.msgctxt)) && Clean(key.msgid) && Clean(OrEmpty(key.msgidPlural))
  }

  lemma UnbrokenConcat(a: string, b: string)
    ensures Unbroken(a + b) <==> Unbroken(a) && Unbroken(b)
  {
    assert forall c :: c in a + b <==> c in a || c in b;
  }

  /** An escaped string is on one line exactly when the string is clean. */
  lemma {:induction false} EscapedBreaks(value: string)
    ensures Unbroken(EscapeEach(value)) <==> Clean(value)
    decreases value
  {
    if value != "" {
      EscapedBreaks(value[1..]);
      var c := value[0];
      assert Clean(value) <==> (IsBreak(c) ==> c == '\n') && Clean(value[1..]);
      assert EscapeChar(c)[0] in EscapeChar(c);
      UnbrokenConcat(EscapeChar(c), EscapeEach(value[1..]));
    }
  }

  lemma QuoteBreaks(value: string)
    ensures Unbroken(Quote(value)) <==> Clean(value)
  {
    EscapeIsEach(value);
    EscapedBreaks(value);
    UnbrokenConcat("\"", EscapeEach(value));
    UnbrokenConcat("\"" + EscapeEach(value), "\"");
  }

  // -------------------------------------------------------------- built blocks

  ghost predicate AllUnbroken(lines: seq<string>) { forall i :: 0 <= i < |lines| ==> Unbroken(lines[i]) }

  ghost predicate FieldLine(line: string) {
    exists keyword, field, value :: IsKeyword(keyword, field) && line == keyword + " " + Quote(value)
  }

  ghost predicate PartLine(line: string) { exists value :: line == Quote(value) }

  ghost predicate AllWritten(lines: seq<string>) {
    forall i :: 0 <= i < |lines| ==> FieldLine(lines[i]) || PartLine(lines[i])
  }

  lemma UnbrokenLines(a: seq<string>, b: seq<string>)
    ensures AllUnbroken(a + b) <==> AllUnbroken(a) && AllUnbroken(b)
  {
    hide Unbroken;
    assert forall i :: 0 <= i < |a| ==> (a + b)[i] == a[i];
    assert forall i :: 0 <= i < |b| ==> (a + b)[|a| + i] == b[i];
  }

  lemma WrittenLines(a: seq<string>, b: seq<string>)
    requires AllWritten(a) && AllWritten(b)
    ensures AllWritten(a + b)
  {
    hide FieldLine, PartLine;
  }

  lemma CleanConcat(a: string, b: string)
    ensures Clean(a + b) <==> Clean(a) && Clean(b)
  {
    assert forall i :: 0 <= i < |a| ==> (a + b)[i] == a[i];
    assert forall i :: 0 <= i < |b| ==> (a + b)[|a| + i] == b[i];
  }

  lemma OneLine(line: string)
    ensures AllUnbroken([line]) <==> Unbroken(line)
  {
    assert [line][0] == line;
  }

  lemma {:induction false} PartLinesWritten(parts: seq<string>)
    requires parts != []
    ensures AllUnbroken(PartLines(parts)) <==> Clean(Rejoined(parts))
    ensures AllWritten(PartLines(parts))
    decreases parts
  {
    hide Quote, Escape, Clean, Unbroken, AllUnbroken, FieldLine;
    var value := if |parts| == 1 then parts[0] else parts[0] + "\n";
    PartLineIsQuote(parts[0]);
    QuoteBreaks(value);
    OneLine(Quote(value));
    if |parts| > 1 {
      PartLinesWritten(parts[1..]);
      UnbrokenLines([Quote(value)], PartLines(parts[1..]));
      CleanConcat(value, Rejoined(parts[1..]));
      WrittenLines([Quote(value)], PartLines(parts[1..]));
    }
  }

  lemma KeywordUnbroken(keyword: string, field: Field)
    requires IsKeyword(keyword, field)
    ensures Unbroken(keyword + " ") && keyword != "" && !IsSpace(keyword[0])
  {
    forall c | c in keyword + " " ensures !IsBreak(c) {
      assert ' ' <= c <= 'z';
    }
    assert keyword[0] == 'm';
  }

  lemma FieldLineBreaks(keyword: string, field: Field, value: string)
    requires IsKeyword(keyword, field)
    ensures Unbroken(keyword + " " + Quote(value)) <==> Clean(value)
    ensures FieldLine(keyword + " " + Quote(value))
  {
    hide Quote, Clean, Unbroken;
    QuoteBreaks(value);
    KeywordUnbroken(keyword, field);
    UnbrokenConcat(keyword + " ", Quote(value));
  }

  lemma FormatWritten(keyword: string, field: Field, value: string)
    requires IsKeyword(keyword, field)
    ensures AllUnbroken(FormatPoString(keyword, value)) <==> Clean(value)
    ensures FormatPoString(keyword, value) != []
    ensures AllWritten(FormatPoString(keyword, value)) && FieldLine(FormatPoString(keyword, value)[0])
  {
    hide Quote, Escape, Unbroken, AllUnbroken, FieldLine, PartLine;
    var text := if '\n' in value then "" else value;
    var line := keyword + " " + Quote(text);
    EmptyQuote();
    FieldLineBreaks(keyword, field, text);
    OneLine(line);
    if '\n' in value {
      assert keyword + " \"\"" == line;
      PartsRejoin(value);
      PartLinesWritten(Parts(value));
      UnbrokenLines([line], PartLines(Parts(value)));
      WrittenLines([line], PartLines(Parts(value)));
    }
  }

  /** The lines of a field that may be absent. */
  lemma OptionalWritten(keyword: string, field: Field, value: Option<string>)
    requires IsKeyword(keyword, field)
    ensures var lines := if value.Some? then FormatPoString(keyword, value.value) else [];
            (AllUnbroken(lines) <==> Clean(OrEmpty(value))) && AllWritten(lines)
                && (lines != [] ==> FieldLine(lines[0]))
  {
    if value.Some? { FormatWritten(keyword, field, value.value); }
  }

  /** A built block has its lines whole exactly when the key is clean, and behind
      the marker only lines with quoted strings, the first of them with a keyword. */
  lemma BuiltWritten(key: Key)
    ensures AllUnbroken(BuildPotEntry(key)) <==> CleanKey(key)
    ensures |BuildPotEntry(key)| >= 2 && FieldLine(BuildPotEntry(key)[1]) && AllWritten(BuildPotEntry(key)[1..])
    ensures BuildPotEntry(key)[0] == MARKER
  {
    hide FormatPoString, Clean, AllUnbroken, FieldLine, PartLine, AllWritten, BuildPotEntry;
    var ctxt := if key.msgctxt.Some? then FormatPoString("msgctxt", key.msgctxt.value) else [];
    OptionalWritten("msgctxt", Msgctxt, key.msgctxt);
    var id := FormatPoString("msgid", key.msgid);
    FormatWritten("msgid", Msgid, key.msgid);
    var plural := if key.msgidPlural.Some? then FormatPoString("msgid_plural", key.msgidPlural.value) else [];
    OptionalWritten("msgid_plural", MsgidPlural, key.msgidPlural);
    var str := if key.msgidPlural.Some? then FormatPoString("msgstr[0]", "") + FormatPoString("msgstr[1]", "")
        else FormatPoString("msgstr", "");
    StringsWritten(key.msgidPlural.Some?);
    BlockWritten(ctxt, id, plural, str);
    BuiltParts(key);
  }

  lemma BuiltParts(key: Key)
    ensures var ctxt := if key.msgctxt.Some? then FormatPoString("msgctxt", key.msgctxt.value) else [];
            var plural := if key.msgidPlural.Some? then FormatPoString("msgid_plural", key.msgidPlural.value) else [];
            var str := if key.msgidPlural.Some? then FormatPoString("msgstr[0]", "") + FormatPoString("msgstr[1]", "")
                       else FormatPoString("msgstr", "");
            BuildPotEntry(key) == [MARKER] + (ctxt + FormatPoString("msgid", key.msgid) + (plural + str))
  {
    hide FormatPoString;
  }

  lemma StringsWritten(plural: bool)
    ensures var str := if plural then FormatPoString("msgstr[0]", "") + FormatPoString("msgstr[1]", "")
         else FormatPoString("msgstr", "");
            AllUnbroken(str) && AllWritten(str)
  {
    hide FormatPoString, FieldLine, PartLine, AllWritten, AllUnbroken;
    assert Clean("");
    FormatWritten("msgstr[0]", Msgstr, "");
    FormatWritten("msgstr[1]", Msgstr, "");
    FormatWritten("msgstr", Msgstr, "");
    UnbrokenLines(FormatPoString("msgstr[0]", ""), FormatPoString("msgstr[1]", ""));
    WrittenLines(FormatPoString("msgstr[0]", ""), FormatPoString("msgstr[1]", ""));
  }

  lemma PrintableUnbroken(line: string)
    requires forall i :: 0 <= i < |line| ==> ' ' <= line[i] <= 'z'
    ensures Unbroken(line)
  {
  }

  lemma MarkerUnbroken()
    ensures Unbroken(MARKER)
  {
    hide Unbroken;
    var (front, back) := ("#: via misc/i18n-", "sync-pot-files.py");
    PrintableUnbroken(front);
    PrintableUnbroken(back);
    assert MARKER == front + back;
    UnbrokenConcat(front, back);
  }

  lemma BlockWritten(ctxt: seq<string>, id: seq<string>, plural: seq<string>, str: seq<string>)
    requires AllWritten(ctxt) && AllWritten(id) && AllWritten(plural) && AllWritten(str)
    requires id != [] && FieldLine(id[0]) && (ctxt != [] ==> FieldLine(ctxt[0]))
    ensures var lines := ctxt + id + (plural + str);
            && AllWritten(lines) && lines != [] && FieldLine(lines[0])
            && (AllUnbroken([MARKER] + lines)
                <==> AllUnbroken(ctxt) && AllUnbroken(id) && AllUnbroken(plural) && AllUnbroken(str))
  {
    hide FieldLine, PartLine, AllWritten, AllUnbroken, Unbroken;
    WrittenLines(ctxt, id); WrittenLines(plural, str); WrittenLines(ctxt + id, plural + str);
    UnbrokenLines(ctxt, id); UnbrokenLines(plural, str); UnbrokenLines(ctxt + id, plural + str);
    UnbrokenLines([MARKER], ctxt + id + (plural + str));
    MarkerUnbroken();
    OneLine(MARKER);
  }

  lemma {:induction false} StripKeepsFirst(s: string)
    requires s != "" && !IsSpace(s[0])
    ensures StripLeft(s) == s && StripRight(s) != "" && StripRight(s) <= s
    decreases |s|
  {
    if IsSpace(s[|s| - 1]) {
      StripKeepsFirst(s[..|s| - 1]);
    }
  }

  lemma NotBlank(line: string)
    requires line != "" && !IsSpace(line[0])
    ensures !IsBlank(line)
  {
    StripKeepsFirst(line);
  }

  lemma WrittenNotBlank(line: string)
    requires FieldLine(line) || PartLine(line)
    ensures line != "" && !IsSpace(line[0]) && !IsBlank(line)
  {
    hide Quote;
    if FieldLine(line) {
      var keyword, field, value :| IsKeyword(keyword, field) && line == keyword + " " + Quote(value);
      assert line[0] == keyword[0];
    } else {
      var value :| line == Quote(value);
      QuoteIsQuoted(value);
    }
    NotBlank(line);
  }

  /** Behind the marker no block is an obsolete one. */
  lemma MarkedIsLive(block: seq<string>)
    requires block != [] && block[0] == MARKER
    ensures !IsObsoleteBlock(block) && !IsBlank(MARKER)
  {
    NotBlank(MARKER);
    NotPrefix(MARKER, "#~", 1);
  }

  function BuiltEntry(key: Key): Entry { Entry(BuildPotEntry(key), key) }
  function BuiltEntries(ks: seq<Key>): seq<Entry> { seq(|ks|, i requires 0 <= i < |ks| => BuiltEntry(ks[i])) }

  lemma WrittenLinesNotBlank(lines: seq<string>)
    requires AllWritten(lines)
    ensures forall i :: 0 <= i < |lines| ==> !IsBlank(lines[i])
  {
    hide FieldLine, PartLine, IsBlank;
    forall i | 0 <= i < |lines| ensures !IsBlank(lines[i]) { WrittenNotBlank(lines[i]); }
  }

  lemma BuiltNotBlank(key: Key)
    ensures forall i :: 0 <= i < |BuildPotEntry(key)| ==> !IsBlank(BuildPotEntry(key)[i])
  {
    hide BuildPotEntry, IsBlank, FieldLine, PartLine, AllWritten, AllUnbroken, CleanKey, IsObsoleteBlock;
    BuiltWritten(key);
    var block := BuildPotEntry(key);
    MarkedIsLive(block);
    WrittenLinesNotBlank(block[1..]);
    assert forall i :: 1 <= i < |block| ==> block[i] == block[1..][i - 1];
  }

  lemma BuiltParses(key: Key)
    requires CleanKey(key) && NoNulKey(key)
    ensures Parsed(BuiltEntry(key))
  {
    hide BuildPotEntry, IsBlank, CleanKey, NoNulKey, ParseEntry, IsObsoleteBlock;
    BuiltWritten(key);
    BuiltNotBlank(key);
    MarkedIsLive(BuildPotEntry(key));
    ParsesBuilt(key);
  }

  // ------------------------------------------------- keys of parsed entries

  lemma {:induction false} UnescapedHasNoNul(s: string)
    requires UnescapeRest(s).Some?
    ensures NoNul(UnescapeRest(s).value)
    decreases |s|
  {
    if s[0] == '"' {
    } else if s[0] == '\\' {
      UnescapedHasNoNul(s[2..]);
    } else {
      UnescapedHasNoNul(s[1..]);
    }
  }

  predicate NoNulState(st: Parsing) {
    NoNul(OrEmpty(st.msgctxt)) && NoNul(OrEmpty(st.msgid)) && NoNul(OrEmpty(st.msgidPlural))
  }

  lemma LineKeepsNoNul(st: Parsing, line: string)
    requires NoNulState(st) && ParseLine(st, line).Some?
    ensures NoNulState(ParseLine(st, line).value)
  {
    hide UnescapeRest, StartsWith, FirstIndex, Strip, IsNumber;
    if QuotedValue(line).Some? {
      UnescapedHasNoNul(Strip(line[FirstIndex(line, ' ') + 1..])[1..]);
    }
    if Unescape(Strip(line)).Some? {
      UnescapedHasNoNul(Strip(line)[1..]);
    }
  }

  lemma {:induction false} LinesKeepNoNul(st: Parsing, lines: seq<string>)
    requires NoNulState(st) && ParseLines(st, lines).Some?
    ensures NoNulState(ParseLines(st, lines).value)
    decreases lines
  {
    hide ParseLine, NoNulState;
    if lines != [] {
      LineKeepsNoNul(st, lines[0]);
      LinesKeepNoNul(ParseLine(st, lines[0]).value, lines[1..]);
    }
  }

  lemma ParsedHasNoNul(e: Entry)
    requires ParseEntry(e.rawLines) == Some(e)
    ensures NoNulKey(e.key)
  {
    hide ParseLines;
    assert NoNulState(NOTHING_PARSED);
    LinesKeepNoNul(NOTHING_PARSED, e.rawLines);
  }

  lemma {:induction false} ParseAllDelivers(texts: seq<string>)
    requires ParseAll(texts).Some?
    ensures forall e <- ParseAll(texts).value :: Parsed(e)
    decreases texts
  {
    hide ParsePo, Parsed;
    if texts != [] {
      ParsePoDelivers(texts[0]);
      ParseAllDelivers(texts[1..]);
    }
  }
}
