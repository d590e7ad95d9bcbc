/** What becomes of a block built for a key with another line break than newlines:
    its string is cut, and the template no longer parses
    (misc/i18n-sync-pot-files.py:71-113, 208-251). */
module PoBroken {
  import opened Options
  import opened PoText
  import opened PoEntries
  import opened PoSync
  import opened PoBuilt

  // ------------------------------------------------------------- cut strings

  lemma {:induction false} CutUnescapes(value: string, n: nat)
    requires n <= |EscapeEach(value)|
    ensures UnescapeRest(EscapeEach(value)[..n]).None?
    decreases value
  {
    var s := EscapeEach(value)[..n];
    if n > 0 {
      var (first, rest) := (EscapeChar(value[0]), EscapeEach(value[1..]));
      assert EscapeEach(value) == first + rest;
      if n >= |first| {
        CutUnescapes(value[1..], n - |first|);
        assert s == first + rest[..n - |first|];
        if |first| == 2 {
          assert s[2..] == rest[..n - 2] && s[0] == '\\';
        } else {
          assert s[1..] == rest[..n - 1];
        }
      } else {
        assert s == "\\";
      }
    }
  }

  /** A quoted string without its end is no string. */
  lemma CutQuote(value: string, n: nat)
    requires 1 <= n < |Quote(value)|
    ensures Unescape(Strip(Quote(value)[..n])).None?
  {
    hide UnescapeRest;
    var q := Quote(value);
    EscapeIsEach(value);
    StripKeepsFirst(q[..n]);
    var m := |Strip(q[..n])|;
    assert Strip(q[..n]) == q[..m] && q[..m][1..] == EscapeEach(value)[..m - 1];
    CutUnescapes(value, m - 1);
  }

  lemma FirstBreakBehind(a: string, b: string)
    requires Unbroken(a)
    ensures FirstBreak(a + b) == |a| + FirstBreak(b)
    decreases a
  {
    if a == "" {
      assert a + b == b;
    } else {
      assert a[0] in a && (a + b)[1..] == a[1..] + b;
      FirstBreakBehind(a[1..], b);
    }
  }

  lemma BrokenBefore(line: string)
    requires !Unbroken(line)
    ensures FirstBreak(line) < |line|
  {
  }

  lemma CutFieldLine(st: Parsing, keyword: string, field: Field, value: string)
    requires IsKeyword(keyword, field) && !Unbroken(keyword + " " + Quote(value))
    ensures var line := keyword + " " + Quote(value);
            var n := FirstBreak(line);
            n < |line| && ParseLine(st, line[..n]).None? && !IsBlank(line[..n])
  {
    hide Quote, Unescape, Strip, ParseLine, IsBlank, Unbroken, FirstBreak, IsSpace;
    var line := keyword + " " + Quote(value);
    KeywordUnbroken(keyword, field);
    UnbrokenConcat(keyword + " ", Quote(value));
    BrokenBefore(Quote(value));
    var m := FirstBreak(Quote(value));
    FirstBreakBehind(keyword + " ", Quote(value));
    QuoteStarts(value);
    var cut := Quote(value)[..m];
    assert line[..FirstBreak(line)] == keyword + " " + cut;
    KeywordLine(st, keyword, field, cut);
    assert (keyword + " " + cut)[|keyword| + 1..] == cut;
    CutQuote(value, m);
    NotBlank(keyword + " " + cut);
  }

  lemma CutPartLine(st: Parsing, value: string)
    requires st.current.Some? && !Unbroken(Quote(value))
    ensures var n := FirstBreak(Quote(value));
            n < |Quote(value)| && ParseLine(st, Quote(value)[..n]).None? && !IsBlank(Quote(value)[..n])
  {
    hide Quote, Unescape, Strip, IsBlank;
    var n := FirstBreak(Quote(value));
    QuoteStarts(value);
    CutQuote(value, n);
    assert Quote(value)[..n][..1] == "\"";
    NotBlank(Quote(value)[..n]);
  }

  /** A written line up to its first line break does not parse. */
  lemma CutLineFails(st: Parsing, line: string)
    requires FieldLine(line) || (PartLine(line) && st.current.Some?)
    requires !Unbroken(line)
    ensures FirstBreak(line) < |line| && ParseLine(st, line[..FirstBreak(line)]).None?
    ensures !IsBlank(line[..FirstBreak(line)])
  {
    hide Quote, ParseLine, IsBlank, Unbroken;
    if FieldLine(line) {
      var keyword, field, value :| IsKeyword(keyword, field) && line == keyword + " " + Quote(value);
      CutFieldLine(st, keyword, field, value);
    } else {
      var value :| line == Quote(value);
      CutPartLine(st, value);
    }
  }

  lemma QuoteStarts(value: string)
    ensures Quote(value) != "" && Quote(value)[0] == '"' && FirstBreak(Quote(value)) >= 1
  {
  }

  // -------------------------------------------------------------- cut blocks

  lemma {:induction false} CurrentStays(st: Parsing, lines: seq<string>)
    requires st.current.Some? && ParseLines(st, lines).Some?
    ensures ParseLines(st, lines).value.current.Some?
    decreases lines
  {
    if lines != [] {
      CurrentSet(st, lines[0]);
      CurrentStays(ParseLine(st, lines[0]).value, lines[1..]);
    }
  }

  lemma CurrentSet(st: Parsing, line: string)
    requires st.current.Some? && ParseLine(st, line).Some?
    ensures ParseLine(st, line).value.current.Some?
  {
    hide Unescape, Strip, FirstIndex, IsNumber, StartsWith;
  }

  lemma FieldLineSets(st: Parsing, line: string)
    requires FieldLine(line) && ParseLine(st, line).Some?
    ensures ParseLine(st, line).value.current.Some?
  {
    hide Quote, Unescape, ParseLine;
    var keyword, field, value :| IsKeyword(keyword, field) && line == keyword + " " + Quote(value);
    ParsesQuotedLine(st, keyword, field, value);
  }

  lemma {:induction false} FirstBroken(lines: seq<string>) returns (j: nat)
    requires !AllUnbroken(lines)
    ensures j < |lines| && AllUnbroken(lines[..j]) && !Unbroken(lines[j])
    decreases lines
  {
    hide Unbroken;
    if !Unbroken(lines[0]) {
      j := 0;
    } else {
      UnbrokenLines([lines[0]], lines[1..]);
      OneLine(lines[0]);
      assert lines == [lines[0]] + lines[1..];
      var k := FirstBroken(lines[1..]);
      j := k + 1;
      UnbrokenLines([lines[0]], lines[1..][..k]);
      assert lines[..j] == [lines[0]] + lines[1..][..k];
    }
  }

  /** A built block up to the first line break in a string does not parse. */
  lemma CutBlockFails(block: seq<string>, j: nat)
    requires 1 <= j < |block| && block[0] == MARKER && FieldLine(block[1]) && AllWritten(block[1..])
    requires !Unbroken(block[j])
    ensures FirstBreak(block[j]) < |block[j]| && !IsBlank(block[j][..FirstBreak(block[j])])
    ensures ParseLines(NOTHING_PARSED, block[..j] + [block[j][..FirstBreak(block[j])]]).None?
  {
    hide FieldLine, PartLine, ParseLine, Unbroken, FirstBreak, IsBlank;
    var (st0, line) := (NOTHING_PARSED, block[j]);
    assert block[1..][j - 1] == line;
    CutLineFails(st0.(current := Some(Msgid)), line);
    var cut := line[..FirstBreak(line)];
    ParsesMarker(st0);
    assert block[..j] == [MARKER] + block[1..j];
    ParseLinesConcat(st0, [MARKER], block[1..j]);
    ParseLinesConcat(st0, block[..j], [cut]);
    if ParseLines(st0, block[..j]).Some? {
      if j > 1 {
        assert block[1..j][0] == block[1];
        FieldLineSets(st0, block[1]);
        CurrentStays(ParseLine(st0, block[1]).value, block[1..j][1..]);
      }
      CutLineFails(ParseLines(st0, block[..j]).value, line);
    }
  }

  lemma {:induction false} BadBlockFails(lines: seq<string>, block: seq<string>)
    requires block != [] && block[0] == MARKER && ParseLines(NOTHING_PARSED, block).None?
    ensures ParseBlocks(lines, block).None?
    decreases lines
  {
    hide ParseLines, IsBlank, IsObsoleteBlock;
    MarkedIsLive(block);
    if lines != [] && !IsBlank(lines[0]) {
      ParseLinesConcat(NOTHING_PARSED, block, [lines[0]]);
      BadBlockFails(lines[1..], block + [lines[0]]);
    }
  }

  lemma {:induction false} JoinConcat(a: seq<string>, b: seq<string>)
    ensures JoinLines(a + b) == JoinLines(a) + JoinLines(b)
    decreases a
  {
    if a == [] {
      assert a + b == b;
    } else {
      assert (a + b)[0] == a[0] && (a + b)[1..] == a[1..] + b;
      JoinConcat(a[1..], b);
      assert a[0] + "\n" + (JoinLines(a[1..]) + JoinLines(b)) == (a[0] + "\n" + JoinLines(a[1..])) + JoinLines(b);
    }
  }

  lemma SplitBroken(line: string, rest: string)
    requires !Unbroken(line)
    ensures FirstBreak(line) < |line|
    ensures SplitLines(line + rest) != [] && SplitLines(line + rest)[0] == line[..FirstBreak(line)]
  {
    hide IsBreak, Unbroken, FirstBreak, SplitLines;
    BrokenAt(line);
    var (n, text) := (FirstBreak(line), line + rest);
    FirstBreakBehind(line[..n], line[n..] + rest);
    assert text == line[..n] + (line[n..] + rest) && text[..n] == line[..n];
    assert FirstBreak(line[n..] + rest) == 0 by { BreakInFront(line[n..] + rest); }
    FirstLine(text);
  }

  lemma BrokenAt(line: string)
    requires !Unbroken(line)
    ensures FirstBreak(line) < |line| && Unbroken(line[..FirstBreak(line)]) && IsBreak(line[FirstBreak(line)])
  {
    hide IsBreak;
    var n := FirstBreak(line);
    assert forall c <- line[..n] :: !IsBreak(c);
  }

  lemma BreakInFront(text: string)
    requires text != "" && IsBreak(text[0])
    ensures FirstBreak(text) == 0
  {
  }

  lemma FirstLine(text: string)
    requires text != ""
    ensures SplitLines(text) != [] && SplitLines(text)[0] == text[..FirstBreak(text)]
  {
    hide FirstBreak;
  }

  /** The block of an unclean key does not parse back, whatever follows it. */
  lemma UncleanFails(key: Key, rest: string)
    requires !CleanKey(key)
    ensures ParseBlocks(SplitLines(JoinLines(BuildPotEntry(key)) + rest), []).None?
  {
    hide BuildPotEntry, CleanKey, Unbroken, SplitLines, FirstBreak, JoinLines, ParseBlocks, ParseLines, IsBlank,
      FieldLine, AllWritten;
    var block := BuildPotEntry(key);
    BuiltWritten(key);
    BuiltNotBlank(key);
    var j := FirstBroken(block);
    MarkerUnbroken();
    var behind := JoinLines(block[j..]) + rest;
    assert block == block[..j] + block[j..];
    JoinConcat(block[..j], block[j..]);
    assert JoinLines(block) + rest == JoinLines(block[..j]) + behind;
    SplitJoined(block[..j], behind);
    JoinFirst(block[j..]);
    var more := "\n" + JoinLines(block[j..][1..]) + rest;
    assert behind == block[j] + more;
    SplitBroken(block[j], more);
    var cut := block[j][..FirstBreak(block[j])];
    CutBlockFails(block, j);
    var begun := block[..j] + [cut];
    var left := SplitLines(behind)[1..];
    assert block[..j] + SplitLines(behind) == begun + left && [] + begun == begun;
    ParsesBlockLines(begun, left, []);
    BadBlockFails(left, begun);
  }

  lemma JoinFirst(lines: seq<string>)
    requires lines != []
    ensures JoinLines(lines) == lines[0] + "\n" + JoinLines(lines[1..])
  {
  }
}
