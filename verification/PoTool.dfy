/** The synchroniser's loops (misc/i18n-sync-pot-files.py:84-352). */
module PoTool {
  import opened Options
  import opened PoText
  import opened PoEntries
  import opened PoSync
  import opened PoIdempotence

  // ---------------------------------------------------------------- writing

  /** _format_po_string. */
  method WritePoString(keyword: string, value: string) returns (out: seq<string>)
    ensures out == FormatPoString(keyword, value)
  {
    if '\n' !in value {
      out := [keyword + " \"" + Escape(value) + "\""];
      assert out[0] == keyword + " " + Quote(value);
      return;
    }
    var parts := Parts(value);
    out := [keyword + " \"\""];
    var i := 0;
    while i < |parts|
      invariant 0 <= i <= |parts|
      invariant i < |parts| ==> out + PartLines(parts[i..]) == [keyword + " \"\""] + PartLines(parts)
      invariant i == |parts| ==> out == [keyword + " \"\""] + PartLines(parts)
    {
      if i < |parts| - 1 {
        out := out + ["\"" + Escape(parts[i]) + "\\n\""];
        assert parts[i..][1..] == parts[i + 1..];
      } else {
        out := out + ["\"" + Escape(parts[i]) + "\""];
      }
      i := i + 1;
    }
  }

  /** build_pot_entry_from_po. */
  method WritePotEntry(key: Key) returns (lines: seq<string>)
    ensures lines == BuildPotEntry(key)
  {
    lines := [MARKER];
    var more: seq<string>;
    if key.msgctxt.Some? {
      more := WritePoString("msgctxt", key.msgctxt.value);
      lines := lines + more;
    }
    more := WritePoString("msgid", key.msgid);
    lines := lines + more;
    if key.msgidPlural.Some? {
      more := WritePoString("msgid_plural", key.msgidPlural.value);
      lines := lines + more;
      more := WritePoString("msgstr[0]", "");
      lines := lines + more;
      more := WritePoString("msgstr[1]", "");
      lines := lines + more;
    } else {
      more := WritePoString("msgstr", "");
      lines := lines + more;
    }
  }

  // ---------------------------------------------------------------- parsing

  /** _is_obsolete_block. */
  method CheckObsolete(block: seq<string>) returns (obsolete: bool)
    ensures obsolete == IsObsoleteBlock(block)
  {
    var i := 0;
    while i < |block|
      invariant 0 <= i <= |block| && IsObsoleteBlock(block) == IsObsoleteBlock(block[i..])
    {
      if Strip(block[i]) != "" {
        return StartsWith(StripLeft(block[i]), "#~");
      }
      assert block[i..][1..] == block[i + 1..];
      i := i + 1;
    }
    return false;
  }

  /** _parse_entry. */
  method ReadEntry(block: seq<string>) returns (r: Option<Entry>)
    ensures r == ParseEntry(block)
  {
    var msgctxt: Option<string>, msgid: Option<string>, msgidPlural: Option<string> := None, None, None;
    var current: Option<Field> := None;
    var i := 0;
    while i < |block|
      invariant 0 <= i <= |block|
      invariant ParseLines(NOTHING_PARSED, block)
           == ParseLines(Parsing(msgctxt, msgid, msgidPlural, current), block[i..])
    {
      hide Unescape, Strip, FirstIndex, IsNumber, StartsWith, ToEntry;
      var line := block[i];
      assert block[i..][0] == line && block[i..][1..] == block[i + 1..];
      i := i + 1;
      if StartsWith(line, "#") { continue; }
      var field: Option<Field> := None;
      if StartsWith(line, "msgctxt ") {
        field := Some(Msgctxt);
      } else if StartsWith(line, "msgid_plural ") {
        field := Some(MsgidPlural);
      } else if StartsWith(line, "msgid ") {
        field := Some(Msgid);
      } else if StartsWith(line, "msgstr[") {
        if !IsNumber(line[..FirstIndex(line, ']')][7..]) { return None; }
        field := Some(Msgstr);
      } else if StartsWith(line, "msgstr ") {
        field := Some(Msgstr);
      }
      if field.Some? {
        var value := QuotedValue(line);
        if value.None? { return None; }
        match field.value {
          case Msgctxt => msgctxt := value;
          case Msgid => msgid := value;
          case MsgidPlural => msgidPlural := value;
          case Msgstr =>
        }
        current := field;
      } else if StartsWith(line, "\"") && current.Some? {
        var value := Unescape(Strip(line));
        if value.None? { return None; }
        match current.value {
          case Msgctxt => msgctxt := Some(OrEmpty(msgctxt) + value.value);
          case Msgid => msgid := Some(OrEmpty(msgid) + value.value);
          case MsgidPlural => msgidPlural := Some(OrEmpty(msgidPlural) + value.value);
          case Msgstr =>
        }
      }
    }
    r := Some(Entry(block, Key(msgctxt, OrEmpty(msgid), msgidPlural)));
  }

  lemma AppendAhead(done: seq<Entry>, a: Option<seq<Entry>>, b: Option<seq<Entry>>)
    ensures Append(Some([]), b) == b && (a.Some? ==> Append(a, Some([])) == a)
    ensures Append(Some(done), Append(a, b)) == Append(Append(Some(done), a), b)
  {
    if b.Some? { assert [] + b.value == b.value; }
    if a.Some? { assert a.value + [] == a.value; }
    if a.Some? && b.Some? { assert done + (a.value + b.value) == (done + a.value) + b.value; }
  }

  /** parse_po_file, from the text of the file. */
  method ReadPoFile(text: string) returns (r: Option<seq<Entry>>)
    ensures r == ParsePo(text)
  {
    var lines := SplitLines(text);
    var entries: seq<Entry>, buf: seq<string> := [], [];
    var i := 0;
    AppendAhead([], Some([]), ParsePo(text));
    while i < |lines|
      invariant 0 <= i <= |lines|
      invariant ParsePo(text) == Append(Some(entries), ParseBlocks(lines[i..], buf))
    {
      hide ParseEntry, IsObsoleteBlock, StripLeft, StripRight, Append;
      var line := lines[i];
      assert lines[i..][0] == line && lines[i..][1..] == lines[i + 1..];
      i := i + 1;
      AppendAhead(entries, Flush(buf), ParseBlocks(lines[i..], []));
      if Strip(line) != "" {
        buf := buf + [line];
      } else if buf != [] {
        var obsolete := CheckObsolete(buf);
        if !obsolete {
          var e := ReadEntry(buf);
          if e.None? { return None; }
          entries := entries + [e.value];
        }
        buf := [];
      }
    }
    AppendAhead(entries, Flush(buf), Some([]));
    if buf != [] {
      var obsolete := CheckObsolete(buf);
      if !obsolete {
        var e := ReadEntry(buf);
        if e.None? { return None; }
        entries := entries + [e.value];
      }
    }
    assert entries + [] == entries;
    return Some(entries);
  }

  // ------------------------------------------------------------- synchronising

  /** Blocks written one after the other, an empty line between each two. */
  method WriteKept(kept: seq<Entry>) returns (out: seq<string>)
    ensures out == Separate(RawBlocks(kept))
  {
    out := [];
    var i := 0;
    while i < |kept|
      invariant 0 <= i <= |kept|
      invariant i < |kept| ==> out + Separate(RawBlocks(kept)[i..]) == Separate(RawBlocks(kept))
      invariant i == |kept| ==> out == Separate(RawBlocks(kept))
    {
      var (blocks, before) := (RawBlocks(kept)[i..], out);
      assert blocks[0] == kept[i].rawLines && blocks[1..] == RawBlocks(kept)[i + 1..];
      out := out + kept[i].rawLines;
      if i != |kept| - 1 {
        out := out + [""];
        assert before + (blocks[0] + [""] + Separate(blocks[1..])) == out + Separate(blocks[1..]);
      }
      i := i + 1;
    }
  }

  method WriteAdded(toAdd: seq<Key>) returns (out: seq<string>)
    ensures out == Separate(BuiltBlocks(toAdd))
  {
    hide BuildPotEntry;
    out := [];
    var idx := 0;
    while idx < |toAdd|
      invariant 0 <= idx <= |toAdd|
      invariant idx < |toAdd| ==> out + Separate(BuiltBlocks(toAdd)[idx..]) == Separate(BuiltBlocks(toAdd))
      invariant idx == |toAdd| ==> out == Separate(BuiltBlocks(toAdd))
    {
      var (blocks, before) := (BuiltBlocks(toAdd)[idx..], out);
      assert blocks[0] == BuildPotEntry(toAdd[idx]) && blocks[1..] == BuiltBlocks(toAdd)[idx + 1..];
      var block := WritePotEntry(toAdd[idx]);
      out := out + block;
      if idx != |toAdd| - 1 {
        out := out + [""];
        assert before + (blocks[0] + [""] + Separate(blocks[1..])) == out + Separate(blocks[1..]);
      }
      idx := idx + 1;
    }
  }

  lemma {:induction false} SeparateConcat(a: seq<seq<string>>, b: seq<seq<string>>)
    ensures Separate(a + b)
         == if a == [] then Separate(b) else if b == [] then Separate(a) else Separate(a) + [""] + Separate(b)
    decreases a
  {
    if a == [] {
      assert a + b == b;
    } else if b == [] {
      assert a + b == a;
    } else {
      assert (a + b)[0] == a[0] && (a + b)[1..] == a[1..] + b;
      SeparateConcat(a[1..], b);
      if |a| > 1 {
        assert a[0] + [""] + (Separate(a[1..]) + [""] + Separate(b))
            == (a[0] + [""] + Separate(a[1..])) + [""] + Separate(b);
      }
    }
  }

  lemma {:induction false} SeparateEnds(es: seq<Entry>)
    requires es != [] && forall i :: 0 <= i < |es| ==> Parsed(es[i])
    ensures var out := Separate(RawBlocks(es)); out != [] && out[|out| - 1] != ""
    decreases es
  {
    hide ParseEntry, IsObsoleteBlock, IsBlank, Unbroken;
    EmptyIsBlank();
    assert Parsed(es[0]) && RawBlocks(es)[1..] == RawBlocks(es[1..]);
    if |es| > 1 {
      SeparateEnds(es[1..]);
    }
  }

  /** sync_pot. */
  method Synchronise(pot: string, pos: seq<string>, prune: bool) returns (r: Option<Report>)
    ensures r == SyncPot(pot, pos, prune)
  {
    hide ParsePo, KeysOf, Sorted, Separate, Text, Parsed;
    if prune && pos == [] { return None; }
    var poEntries := ReadPoFiles(pos);
    var potEntries := ReadPoFile(pot);
    if poEntries.None? || potEntries.None? { return None; }
    var poKeys := KeysOf(poEntries.value);
    var kept, removed := KeepEntries(potEntries.value, poKeys, prune);
    var missing := FindMissing(poEntries.value, KeysOf(kept));
    var toAdd := Sorted(missing);
    var out := WriteKept(kept);
    var (blocks, built) := (RawBlocks(kept), BuiltBlocks(toAdd));
    ParsePoDelivers(pot);
    KeptDelivers(potEntries.value, poKeys, prune);
    SeparateConcat(blocks, built);
    if toAdd != [] {
      if kept != [] { SeparateEnds(kept); }
      SeparateNone();
      if out != [] && out[|out| - 1] != "" {
        out := out + [""];
      }
      var added := WriteAdded(toAdd);
      out := out + added;
    }
    assert out == OutLines(kept, toAdd) by { SeparateNone(); assert [] + Separate(built) == Separate(built); }
    var newText := Text(out);
    return Some(Report(|kept|, removed, |toAdd|, newText != pot, newText));
  }

  lemma SeparateNone()
    ensures Separate([]) == []
  {
  }

  method ReadPoFiles(texts: seq<string>) returns (r: Option<seq<Entry>>)
    ensures r == ParseAll(texts)
  {
    hide ParsePo, Append;
    var entries: seq<Entry> := [];
    var i := 0;
    AppendAhead([], Some([]), ParseAll(texts));
    while i < |texts|
      invariant 0 <= i <= |texts|
      invariant ParseAll(texts) == Append(Some(entries), ParseAll(texts[i..]))
    {
      var more := ReadPoFile(texts[i]);
      assert texts[i..][0] == texts[i] && texts[i..][1..] == texts[i + 1..];
      AppendAhead(entries, more, ParseAll(texts[i + 1..]));
      AppendFails(Some(entries), ParseAll(texts[i + 1..]));
      if more.None? { return None; }
      entries := entries + more.value;
      i := i + 1;
    }
    AppendAhead([], Some(entries), Some([]));
    return Some(entries);
  }

  lemma AppendFails(a: Option<seq<Entry>>, b: Option<seq<Entry>>)
    ensures Append(None, b) == None && Append(a, None) == None
    ensures forall c :: Append(a, Some(c)) == if a.Some? then Some(a.value + c) else None
  {
  }

  method KeepEntries(pot: seq<Entry>, poKeys: set<Key>, prune: bool) returns (kept: seq<Entry>, removed: nat)
    ensures kept == Kept(pot, poKeys, prune) && removed == |pot| - |kept|
  {
    hide IsHeader;
    kept, removed := [], 0;
    var i := 0;
    while i < |pot|
      invariant 0 <= i <= |pot| && removed == i - |kept|
      invariant Kept(pot, poKeys, prune) == kept + Kept(pot[i..], poKeys, prune)
    {
      var e := pot[i];
      assert pot[i..][0] == e && pot[i..][1..] == pot[i + 1..];
      i := i + 1;
      assert kept + ([e] + Kept(pot[i..], poKeys, prune)) == (kept + [e]) + Kept(pot[i..], poKeys, prune);
      if IsHeader(e) {
        kept := kept + [e];
      } else if prune {
        if e.key in poKeys { kept := kept + [e]; } else { removed := removed + 1; }
      } else {
        kept := kept + [e];
      }
    }
  }

  ghost function Seen(present: set<Key>, found: seq<Key>): set<Key> { present + set k | k in found }

  lemma SeenMore(present: set<Key>, found: seq<Key>, key: Key)
    ensures Seen(present, found + [key]) == Seen(present, found) + {key}
    ensures key in Seen(present, found) <==> key in present || key in found
  {
  }

  lemma NothingSeen(present: set<Key>)
    ensures Seen(present, []) == present
  {
  }

  lemma NothingMissing(seen: set<Key>)
    ensures Missing([], seen) == []
  {
  }

  lemma MissingFirst(po: seq<Entry>, i: nat, seen: set<Key>)
    requires i < |po|
    ensures Missing(po[i..], seen)
         == if IsHeader(po[i]) || po[i].key in seen then Missing(po[i + 1..], seen)
            else [po[i].key] + Missing(po[i + 1..], seen + {po[i].key})
  {
    assert po[i..][1..] == po[i + 1..];
  }

  /** The dictionary keeps its keys in the order they came in. */
  method FindMissing(po: seq<Entry>, present: set<Key>) returns (toAdd: seq<Key>)
    ensures toAdd == Missing(po, present)
  {
    hide IsHeader, Missing, Seen;
    toAdd := [];
    var i := 0;
    NothingSeen(present);
    while i < |po|
      invariant 0 <= i <= |po|
      invariant Missing(po, present) == toAdd + Missing(po[i..], Seen(present, toAdd))
    {
      var e := po[i];
      MissingFirst(po, i, Seen(present, toAdd));
      SeenMore(present, toAdd, e.key);
      i := i + 1;
      if IsHeader(e) || e.key in present { continue; }
      if e.key !in toAdd {
        ghost var later := Missing(po[i..], Seen(present, toAdd + [e.key]));
        assert toAdd + ([e.key] + later) == toAdd + [e.key] + later;
        toAdd := toAdd + [e.key];
      }
    }
    NothingMissing(Seen(present, toAdd));
    assert po[|po|..] == [] && toAdd + [] == toAdd;
  }
}
