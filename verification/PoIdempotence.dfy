/** What a run of the synchroniser leaves behind, and why a second run changes
    nothing (misc/i18n-sync-pot-files.py:254-352). */
module PoIdempotence {
  import opened Options
  import opened PoText
  import opened PoEntries
  import opened PoSync
  import opened PoBuilt
  import opened PoBroken

  // ------------------------------------------------------------------- keys

  lemma KeysOfConcat(a: seq<Entry>, b: seq<Entry>)
    ensures KeysOf(a + b) == KeysOf(a) + KeysOf(b)
  {
    forall k ensures k in KeysOf(a + b) <==> k in KeysOf(a) + KeysOf(b) {
      if k in KeysOf(a) {
        var i :| 0 <= i < |a| && !IsHeader(a[i]) && a[i].key == k;
        assert (a + b)[i] == a[i];
      }
      if k in KeysOf(b) {
        var i :| 0 <= i < |b| && !IsHeader(b[i]) && b[i].key == k;
        assert (a + b)[|a| + i] == b[i];
      }
    }
  }

  lemma KeysOfOne(e: Entry)
    ensures KeysOf([e]) == if IsHeader(e) then {} else {e.key}
  {
    assert [e][0] == e;
  }

  lemma KeysOfNone()
    ensures KeysOf([]) == {}
  {
  }

  /** Which entries stay: with pruning those whose keys the translations have. */
  lemma {:induction false} KeptKeys(pot: seq<Entry>, poKeys: set<Key>, prune: bool)
    ensures KeysOf(Kept(pot, poKeys, prune)) == if prune then KeysOf(pot) * poKeys else KeysOf(pot)
    decreases pot
  {
    hide KeysOf, IsHeader;
    if pot == [] {
      KeysOfNone();
    } else {
      KeptKeys(pot[1..], poKeys, prune);
      assert pot == [pot[0]] + pot[1..];
      KeysOfConcat([pot[0]], pot[1..]);
      KeysOfConcat([pot[0]], Kept(pot[1..], poKeys, prune));
      KeysOfOne(pot[0]);
    }
  }

  /** Headers and wanted entries stay, as often as they were there; no other does. */
  lemma {:induction false} KeptEntries(pot: seq<Entry>, poKeys: set<Key>, prune: bool)
    ensures forall e :: multiset(Kept(pot, poKeys, prune))[e]
                     == if IsHeader(e) || !prune || e.key in poKeys then multiset(pot)[e] else 0
    decreases pot
  {
    if pot != [] {
      KeptEntries(pot[1..], poKeys, prune);
      assert pot == [pot[0]] + pot[1..];
    }
  }

  /** The entries that stay do so in their order. */
  lemma {:induction false} KeptInOrder(a: seq<Entry>, b: seq<Entry>, poKeys: set<Key>, prune: bool)
    ensures Kept(a + b, poKeys, prune) == Kept(a, poKeys, prune) + Kept(b, poKeys, prune)
    decreases a
  {
    hide IsHeader;
    if a == [] {
      assert a + b == b;
    } else {
      assert (a + b)[0] == a[0] && (a + b)[1..] == a[1..] + b;
      KeptInOrder(a[1..], b, poKeys, prune);
    }
  }

  /** The missing keys, none of them twice. */
  lemma {:induction false} MissingKeys(po: seq<Entry>, present: set<Key>)
    ensures forall k :: multiset(Missing(po, present))[k] == if k in KeysOf(po) - present then 1 else 0
    decreases po
  {
    hide KeysOf, IsHeader;
    if po == [] {
      KeysOfNone();
    } else {
      var (e, rest) := (po[0], po[1..]);
      assert po == [e] + rest;
      KeysOfConcat([e], rest);
      KeysOfOne(e);
      if IsHeader(e) || e.key in present {
        MissingKeys(rest, present);
      } else {
        MissingKeys(rest, present + {e.key});
      }
    }
  }

  lemma {:induction false} NothingMissing(po: seq<Entry>, present: set<Key>)
    requires KeysOf(po) <= present
    ensures Missing(po, present) == []
    decreases po
  {
    hide KeysOf, IsHeader;
    if po != [] {
      assert po == [po[0]] + po[1..];
      KeysOfConcat([po[0]], po[1..]);
      KeysOfOne(po[0]);
      NothingMissing(po[1..], present);
    }
  }

  lemma {:induction false} AllKept(es: seq<Entry>, poKeys: set<Key>, prune: bool)
    requires prune ==> KeysOf(es) <= poKeys
    ensures Kept(es, poKeys, prune) == es
    decreases es
  {
    hide KeysOf, IsHeader;
    if es != [] {
      assert es == [es[0]] + es[1..];
      KeysOfConcat([es[0]], es[1..]);
      KeysOfOne(es[0]);
      AllKept(es[1..], poKeys, prune);
    }
  }

  lemma KeysOfBuilt(ks: seq<Key>)
    requires forall i :: 0 <= i < |ks| ==> ks[i].msgid != ""
    ensures KeysOf(BuiltEntries(ks)) == set k | k in ks
  {
    hide BuildPotEntry;
    var es := BuiltEntries(ks);
    forall i | 0 <= i < |ks| ensures ks[i] in KeysOf(es) {
      assert es[i].key == ks[i] && !IsHeader(es[i]);
    }
  }

  lemma {:induction false} KeptDelivers(pot: seq<Entry>, poKeys: set<Key>, prune: bool)
    requires forall i :: 0 <= i < |pot| ==> Parsed(pot[i])
    ensures forall i :: 0 <= i < |Kept(pot, poKeys, prune)| ==> Parsed(Kept(pot, poKeys, prune)[i])
    decreases pot
  {
    hide Parsed;
    if pot != [] { KeptDelivers(pot[1..], poKeys, prune); }
  }

  // ---------------------------------------------------------- the text read back

  lemma {:induction false} SeparateUnbroken(es: seq<Entry>)
    requires forall i :: 0 <= i < |es| ==> Parsed(es[i])
    ensures AllUnbroken(Separate(RawBlocks(es)))
    decreases es
  {
    hide LiveBlock, Unbroken, ParseEntry, AllUnbroken;
    if es == [] {
      NoneBroken();
    } else {
      assert Parsed(es[0]) && RawBlocks(es)[1..] == RawBlocks(es[1..]);
      ParsedUnbroken(es[0]);
      if |es| > 1 {
        SeparateUnbroken(es[1..]);
        UnbrokenLines(es[0].rawLines, [""]);
        UnbrokenLines(es[0].rawLines + [""], Separate(RawBlocks(es[1..])));
        OneLine("");
        EmptyUnbroken();
      }
    }
  }

  lemma NoneBroken()
    ensures AllUnbroken([])
  {
  }

  lemma EmptyUnbroken()
    ensures Unbroken("")
  {
  }

  lemma ParsedUnbroken(e: Entry)
    requires Parsed(e)
    ensures AllUnbroken(e.rawLines)
  {
  }

  /** Entries written out parse back into themselves. */
  lemma WrittenParses(es: seq<Entry>)
    requires forall i :: 0 <= i < |es| ==> Parsed(es[i])
    ensures ParsePo(Text(Separate(RawBlocks(es)))) == Some(es)
  {
    hide LiveBlock, Unbroken, ParseEntry;
    var lines := Separate(RawBlocks(es));
    ParsesSeparated(es);
    if lines == [] {
      NewlineIsEmpty();
    } else {
      SeparateUnbroken(es);
      SplitJoined(lines, "");
      assert JoinLines(lines) + "" == JoinLines(lines) && lines + [] == lines;
    }
  }

  lemma NewlineIsEmpty()
    ensures ParsePo("\n") == Some([])
    ensures ParseBlocks([], []) == Some([])
  {
    EmptyUnbroken();
    SplitFirst("", "");
    var (text, none: seq<Entry>) := ("" + "\n" + "", []);
    assert text == "\n";
    var lines := SplitLines(text);
    assert lines == [""] && lines[1..] == [];
    EmptyIsBlank();
    assert none + none == none;
  }

  // ------------------------------------------------------------------ the runs

  /** The entries left by a run. */
  ghost function Left(kept: seq<Entry>, added: seq<Key>): seq<Entry> { kept + BuiltEntries(added) }

  lemma OutIsLeft(kept: seq<Entry>, added: seq<Key>)
    ensures OutLines(kept, added) == Separate(RawBlocks(Left(kept, added)))
  {
    hide BuildPotEntry, Separate;
    assert RawBlocks(Left(kept, added)) == RawBlocks(kept) + BuiltBlocks(added);
  }

  /** What a run leaves parses into the kept entries as they were, in order, and
      behind them the added ones. */
  lemma LeftParses(kept: seq<Entry>, added: seq<Key>)
    requires forall i :: 0 <= i < |kept| ==> Parsed(kept[i])
    requires forall i :: 0 <= i < |added| ==> CleanKey(added[i]) && NoNulKey(added[i])
    ensures ParsePo(Text(OutLines(kept, added))) == Some(Left(kept, added))
  {
    hide Parsed, BuildPotEntry, OutLines, CleanKey, NoNulKey;
    OutIsLeft(kept, added);
    forall i | 0 <= i < |added| ensures Parsed(BuiltEntries(added)[i]) {
      BuiltParses(added[i]);
    }
    WrittenParses(Left(kept, added));
  }

  /** The keys a run adds: those of the translations that the template lacks. */
  ghost predicate Adds(pot: seq<Entry>, po: seq<Entry>, added: seq<Key>) {
    && (forall k :: multiset(added)[k] == if k in KeysOf(po) - KeysOf(pot) then 1 else 0)
    && InOrder(added)
  }

  lemma AddedKeys(pot: seq<Entry>, po: seq<Entry>, prune: bool)
    ensures Adds(pot, po, Sorted(Missing(po, KeysOf(Kept(pot, KeysOf(po), prune)))))
  {
    hide KeysOf, KeyLess, Kept, Missing, Sorted;
    KeptKeys(pot, KeysOf(po), prune);
    var present := KeysOf(Kept(pot, KeysOf(po), prune));
    MissingKeys(po, present);
    SortedOrders(Missing(po, present));
    assert KeysOf(po) - present == KeysOf(po) - KeysOf(pot);
  }

  lemma KeysAreNoHeaders(po: seq<Entry>)
    requires forall i :: 0 <= i < |po| ==> Parsed(po[i])
    ensures forall k <- KeysOf(po) :: k.msgid != "" && NoNulKey(k)
  {
    hide LiveBlock, ParseEntry, NoNulKey;
    forall k | k in KeysOf(po) ensures k.msgid != "" && NoNulKey(k) {
      var i :| 0 <= i < |po| && !IsHeader(po[i]) && po[i].key == k;
      assert Parsed(po[i]);
      ParsedHasNoNul(po[i]);
    }
  }

  /** After a run the template has the translations' keys when pruning and both
      files' keys otherwise, and synchronising again finds nothing to do. */
  lemma LeftIsSynchronised(pot: seq<Entry>, po: seq<Entry>, prune: bool)
    requires forall i :: 0 <= i < |po| ==> Parsed(po[i])
    ensures var kept := Kept(pot, KeysOf(po), prune);
            var left := Left(kept, Sorted(Missing(po, KeysOf(kept))));
            && KeysOf(left) == (if prune then KeysOf(po) else KeysOf(pot) + KeysOf(po))
            && Kept(left, KeysOf(po), prune) == left
            && Missing(po, KeysOf(left)) == []
  {
    hide KeysOf, Parsed, Kept, Missing, Sorted, InOrder, BuildPotEntry;
    var kept := Kept(pot, KeysOf(po), prune);
    var added := Sorted(Missing(po, KeysOf(kept)));
    AddedKeys(pot, po, prune);
    KeysAreNoHeaders(po);
    forall i | 0 <= i < |added| ensures added[i] in KeysOf(po) - KeysOf(pot) {
      assert added[i] in multiset(added);
    }
    KeysOfBuilt(added);
    assert (set k | k in added) == KeysOf(po) - KeysOf(pot) by {
      forall k ensures k in added <==> k in KeysOf(po) - KeysOf(pot) {
        assert k in added <==> k in multiset(added);
      }
    }
    KeptKeys(pot, KeysOf(po), prune);
    KeysOfConcat(kept, BuiltEntries(added));
    AllKept(Left(kept, added), KeysOf(po), prune);
    NothingMissing(po, KeysOf(Left(kept, added)));
  }

  /** What one run leaves in the template, when no key it adds has another line
      break than newlines: the kept entries unchanged and in order, then the
      missing keys, each once, in order. */
  lemma RunDelivers(pot: string, pos: seq<string>, prune: bool)
    requires SyncPot(pot, pos, prune).Some?
    requires forall k <- KeysOf(ParseAll(pos).value) - KeysOf(ParsePo(pot).value) :: CleanKey(k)
    ensures var (po, entries, r) := (ParseAll(pos).value, ParsePo(pot).value, SyncPot(pot, pos, prune).value);
            var kept := Kept(entries, KeysOf(po), prune);
            exists added :: Adds(entries, po, added) && r.added == |added| && r.kept == |kept|
              && ParsePo(r.text) == Some(Left(kept, added))
    ensures var (po, entries, left) := (ParseAll(pos).value, ParsePo(pot).value,
         ParsePo(SyncPot(pot, pos, prune).value.text));
            left.Some? && KeysOf(left.value) == if prune then KeysOf(po) else KeysOf(entries) + KeysOf(po)
  {
    hide KeysOf, Parsed, Kept, Missing, Sorted, InOrder, ParsePo, ParseAll, OutLines, Text, CleanKey, NoNulKey;
    var (po, entries, r) := (ParseAll(pos).value, ParsePo(pot).value, SyncPot(pot, pos, prune).value);
    var kept := Kept(entries, KeysOf(po), prune);
    var added := Sorted(Missing(po, KeysOf(kept)));
    AddedKeys(entries, po, prune);
    ParseAllDelivers(pos);
    ParsePoDelivers(pot);
    KeysAreNoHeaders(po);
    KeptDelivers(entries, KeysOf(po), prune);
    forall i | 0 <= i < |added| ensures CleanKey(added[i]) && NoNulKey(added[i]) {
      assert added[i] in multiset(added);
    }
    LeftParses(kept, added);
    LeftIsSynchronised(entries, po, prune);
  }

  // -------------------------------------------------------------- second runs

  /** With an unclean key among the added ones the written template does not parse. */
  lemma {:induction false} UncleanLeftFails(es: seq<Entry>, m: nat, key: Key)
    requires m < |es| && (forall i :: 0 <= i < m ==> Parsed(es[i])) && es[m] == BuiltEntry(key) && !CleanKey(key)
    ensures ParseBlocks(SplitLines(JoinLines(Separate(RawBlocks(es)))), []).None?
    decreases m
  {
    hide IsBlank, Flush, ParseBlocks, CleanKey, SplitLines, JoinLines, BuildPotEntry, Unbroken, ParseEntry,
      IsObsoleteBlock;
    var (blocks, first) := (RawBlocks(es), es[0].rawLines);
    assert blocks[1..] == RawBlocks(es[1..]);
    var behind := if |es| == 1 then [] else [""] + Separate(blocks[1..]);
    assert Separate(blocks) == first + behind by { assert first + [] == first; }
    JoinConcat(first, behind);
    if m == 0 {
      UncleanFails(key, JoinLines(behind));
    } else {
      assert Parsed(es[0]);
      var rest := Separate(blocks[1..]);
      JoinFirst(behind);
      EmptyUnbroken();
      SplitJoined(first, JoinLines(behind));
      assert behind[1..] == rest && "" + "\n" + JoinLines(rest) == JoinLines(behind);
      SplitFirst("", JoinLines(rest));
      var lines := [""] + SplitLines(JoinLines(rest));
      assert SplitLines(JoinLines(Separate(blocks))) == first + lines;
      ParsesBlockLines(first, lines, []);
      assert [] + first == first;
      UncleanLeftFails(es[1..], m - 1, key);
      BlankFlushes(lines, first);
      assert lines[1..] == SplitLines(JoinLines(rest));
    }
  }

  lemma BlankFlushes(lines: seq<string>, block: seq<string>)
    requires lines != [] && lines[0] == ""
    ensures ParseBlocks(lines, block) == Append(Flush(block), ParseBlocks(lines[1..], []))
  {
    EmptyIsBlank();
  }

  lemma UncleanAddedFails(kept: seq<Entry>, added: seq<Key>)
    requires forall i :: 0 <= i < |kept| ==> Parsed(kept[i])
    requires forall i :: 0 <= i < |added| ==> NoNulKey(added[i])
    requires exists i :: 0 <= i < |added| && !CleanKey(added[i])
    ensures ParsePo(Text(OutLines(kept, added))).None?
  {
    hide Parsed, BuildPotEntry, CleanKey, NoNulKey, SplitLines, JoinLines, Separate;
    var es := Left(kept, added);
    OutIsLeft(kept, added);
    var i := FirstUnclean(added);
    forall j | 0 <= j < |kept| + i ensures Parsed(es[j]) {
      if j >= |kept| { BuiltParses(added[j - |kept|]); }
    }
    UncleanLeftFails(es, |kept| + i, added[i]);
    NoLinesParse();
  }

  lemma {:induction false} FirstUnclean(ks: seq<Key>) returns (i: nat)
    requires exists i :: 0 <= i < |ks| && !CleanKey(ks[i])
    ensures i < |ks| && !CleanKey(ks[i]) && forall j :: 0 <= j < i ==> CleanKey(ks[j])
    decreases ks
  {
    hide CleanKey;
    if !CleanKey(ks[0]) {
      i := 0;
    } else {
      var k :| 0 <= k < |ks| && !CleanKey(ks[k]);
      assert ks[1..][k - 1] == ks[k];
      var n := FirstUnclean(ks[1..]);
      i := n + 1;
    }
  }

  lemma NoLinesParse()
    ensures ParseBlocks(SplitLines(JoinLines([])), []).Some?
  {
  }

  /** When a second run with the same translations and flags reports no change: just
      when every key missing from the template has no line break but newlines.
      Otherwise the second run fails, as the template it reads no longer parses. */
  lemma SecondRun(pot: string, pos: seq<string>, prune: bool)
    requires SyncPot(pot, pos, prune).Some?
    ensures var (missing, r) := (KeysOf(ParseAll(pos).value) - KeysOf(ParsePo(pot).value),
         SyncPot(pot, pos, prune).value);
            SyncPot(r.text, pos, prune)
              == if forall k <- missing ::
                  CleanKey(k) then Some(Report(r.kept + r.added, 0, 0, false, r.text)) else None
  {
    hide KeysOf, Parsed, Kept, Missing, Sorted, InOrder, ParsePo, ParseAll, OutLines, Text, CleanKey, NoNulKey;
    var (po, entries, r) := (ParseAll(pos).value, ParsePo(pot).value, SyncPot(pot, pos, prune).value);
    var missing := KeysOf(po) - KeysOf(entries);
    var kept := Kept(entries, KeysOf(po), prune);
    var added := Sorted(Missing(po, KeysOf(kept)));
    AddedKeys(entries, po, prune);
    ParseAllDelivers(pos);
    ParsePoDelivers(pot);
    KeysAreNoHeaders(po);
    KeptDelivers(entries, KeysOf(po), prune);
    forall i | 0 <= i < |added| ensures added[i] in missing && NoNulKey(added[i]) {
      assert added[i] in multiset(added);
    }
    if forall k <- missing :: CleanKey(k) {
      LeftParses(kept, added);
      LeftIsSynchronised(entries, po, prune);
      LeftIsWritten(kept, added);
      SortedNone();
    } else {
      var k :| k in missing && !CleanKey(k);
      assert multiset(added)[k] == 1 && k in added;
      UncleanAddedFails(kept, added);
    }
  }

  lemma SortedNone()
    ensures Sorted([]) == []
  {
  }

  lemma LeftIsWritten(kept: seq<Entry>, added: seq<Key>)
    ensures OutLines(Left(kept, added), []) == OutLines(kept, added)
  {
    hide Separate, BuildPotEntry;
    OutIsLeft(kept, added);
    OutIsLeft(Left(kept, added), []);
    assert Left(Left(kept, added), []) == Left(kept, added);
  }

  const RETURN_LITERAL := "\"a\\rb\""

  lemma ReturnUnescapes()
    ensures Unescape(Strip(RETURN_LITERAL)) == Some("a\rb")
  {
    var s := RETURN_LITERAL;
    StripQuoted(s);
    assert ['b'] + "" == "b" && "\r" + "b" == "\rb" && ['a'] + "\rb" == "a\rb";
    assert s[4..][1..] == s[5..] && s[2..][2..] == s[4..] && s[1..][1..] == s[2..];
    assert UnescapeRest(s[5..]) == Some("");
    assert UnescapeRest(s[4..]) == Some("b");
    assert UnescapeRest(s[2..]) == Some("\rb");
  }

  lemma ReturnParses(line: string)
    requires line == "msgid " + RETURN_LITERAL
    ensures Unbroken(line) && !IsBlank(line) && line != ""
    ensures ParseEntry([line]) == Some(Entry([line], Key(None, "a\rb", None))) && !IsObsoleteBlock([line])
  {
    hide Unescape, Strip, StartsWith, FirstIndex;
    forall c | c in line ensures !IsBreak(c) {
      assert ' ' <= c <= 'z';
    }
    NotBlank(line);
    StripKeepsFirst(line);
    NotPrefix(line, "#~", 0);
    ReturnUnescapes();
    KeywordLine(NOTHING_PARSED, "msgid", Msgid, RETURN_LITERAL);
    assert "msgid" + " " + RETURN_LITERAL == line && line[5 + 1..] == RETURN_LITERAL;
    var st := SetField(NOTHING_PARSED, Msgid, "a\rb");
    assert ParseLine(NOTHING_PARSED, line) == StartField(NOTHING_PARSED, Msgid, line) == Some(st);
    assert [line][1..] == [];
    assert ParseLines(NOTHING_PARSED, [line]) == Some(st);
  }

  /** Such a key: a translation of a string with an escaped carriage return. */
  lemma CarriageReturnBreaks()
    ensures var pos := ["msgid " + RETURN_LITERAL + "\n"];
            SyncPot("", pos, false).Some? && SyncPot(SyncPot("", pos, false).value.text, pos, false).None?
  {
    hide SyncPot, KeysOf, ParseBlocks, SplitLines, ParseEntry, IsBlank, IsObsoleteBlock, ParseAll;
    var (line, none: seq<Entry>) := ("msgid " + RETURN_LITERAL, []);
    var (pos, key) := ([line + "\n"], Key(None, "a\rb", None));
    var entry := Entry([line], key);
    ReturnParses(line);
    SplitFirst(line, "");
    assert line + "\n" + "" == pos[0];
    OneEntryParses(line, entry);
    assert "a\rb"[1] == '\r';
    KeysOfNone();
    KeysOfOne(entry);
    CanRun("", pos);
    assert key in KeysOf(ParseAll(pos).value) - KeysOf(ParsePo("").value) && !CleanKey(key);
    SecondRun("", pos, false);
  }

  lemma CanRun(pot: string, pos: seq<string>)
    requires ParseAll(pos).Some? && ParsePo(pot).Some?
    ensures SyncPot(pot, pos, false).Some?
  {
  }

  lemma OneEntryParses(line: string, e: Entry)
    requires ParseEntry([line]) == Some(e) && !IsObsoleteBlock([line]) && !IsBlank(line)
    requires SplitLines(line + "\n") == [line] + SplitLines("")
    ensures ParsePo("") == Some([]) && ParseAll([line + "\n"]) == Some([e])
  {
    hide ParseEntry, IsObsoleteBlock, IsBlank;
    var none: seq<Entry> := [];
    assert SplitLines(line + "\n") == [line];
    ParsesBlockLines([line], [], []);
    assert [line] + [] == [line] && [] + [line] == [line] && [e] + none == [e];
    assert [line + "\n"][1..] == [];
  }
}
