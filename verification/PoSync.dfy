/** Synchronising a template with its translations
    (misc/i18n-sync-pot-files.py:254-352), and why a second run changes nothing. */
module PoSync {
  import opened Options
  import opened PoText
  import opened PoEntries

  // ----------------------------------------------------------------- sorting

  /** Python's order on strings, by code points. */
  predicate StringLess(a: string, b: string)
    decreases a
  {
    if a == "" then b != ""
    else b != "" && (a[0] < b[0] || (a[0] == b[0] && StringLess(a[1..], b[1..])))
  }

  function OrEmpty(s: Option<string>): string { if s.None? then "" else s.value }

  /** Whether `_stable_key_sort` puts `k` strictly before `l`. */
  predicate KeyLess(k: Key, l: Key) {
    var (a, b) := (OrEmpty(k.msgctxt), OrEmpty(l.msgctxt));
    var (c, d) := (OrEmpty(k.msgidPlural), OrEmpty(l.msgidPlural));
    || StringLess(a, b)
    || (a == b && StringLess(k.msgid, l.msgid))
    || (a == b && k.msgid == l.msgid && StringLess(c, d))
  }

  /** Into a sorted list, in front of what does not come before it. */
  function InsertSorted(k: Key, ks: seq<Key>): seq<Key> {
    if ks == [] || !KeyLess(ks[0], k) then [k] + ks else [ks[0]] + InsertSorted(k, ks[1..])
  }

  /** Python's stable sort. */
  function Sorted(ks: seq<Key>): seq<Key> {
    if ks == [] then [] else InsertSorted(ks[0], Sorted(ks[1..]))
  }

  lemma {:induction false} InsertKeeps(k: Key, ks: seq<Key>)
    ensures multiset(InsertSorted(k, ks)) == multiset{k} + multiset(ks)
    decreases ks
  {
    if ks != [] && KeyLess(ks[0], k) {
      InsertKeeps(k, ks[1..]);
      assert ks == [ks[0]] + ks[1..];
    }
  }

  lemma {:induction false} SortedKeeps(ks: seq<Key>)
    ensures multiset(Sorted(ks)) == multiset(ks)
    decreases ks
  {
    if ks != [] {
      SortedKeeps(ks[1..]);
      InsertKeeps(ks[0], Sorted(ks[1..]));
      assert ks == [ks[0]] + ks[1..];
    }
  }

  lemma {:induction false} StringOrder(a: string, b: string, c: string)
    ensures !(StringLess(a, b) && StringLess(b, a)) && (StringLess(a, b) || a == b || StringLess(b, a))
    ensures StringLess(a, b) && StringLess(b, c) ==> StringLess(a, c)
    decreases a
  {
    if a != "" && b != "" {
      StringOrder(a[1..], b[1..], if c == "" then "" else c[1..]);
      assert a == [a[0]] + a[1..] && b == [b[0]] + b[1..];
    }
  }

  /** What comes before nothing that `l` comes before comes before nothing behind it. */
  lemma KeyOrder(k: Key, l: Key, m: Key)
    ensures !(KeyLess(k, l) && KeyLess(l, k))
    ensures KeyLess(k, m) ==> KeyLess(k, l) || KeyLess(l, m)
  {
    hide StringLess;
    var (a, b, c) := (OrEmpty(k.msgctxt), OrEmpty(l.msgctxt), OrEmpty(m.msgctxt));
    StringOrder(a, b, c); StringOrder(a, c, b); StringOrder(b, a, c); StringOrder(c, b, a);
    StringOrder(k.msgid, l.msgid, m.msgid); StringOrder(k.msgid, m.msgid, l.msgid); StringOrder(l.msgid, k.msgid,
        m.msgid);
    var (d, e, f) := (OrEmpty(k.msgidPlural), OrEmpty(l.msgidPlural), OrEmpty(m.msgidPlural));
    StringOrder(d, e, f); StringOrder(d, f, e); StringOrder(e, d, f);
  }

  ghost predicate InOrder(ks: seq<Key>) { forall i, j :: 0 <= i < j < |ks| ==> !KeyLess(ks[j], ks[i]) }

  lemma {:induction false} InsertOrders(k: Key, ks: seq<Key>)
    requires InOrder(ks)
    ensures InOrder(InsertSorted(k, ks))
    decreases ks
  {
    hide KeyLess;
    var out := InsertSorted(k, ks);
    if ks == [] {
    } else if !KeyLess(ks[0], k) {
      forall j | 1 <= j < |out| ensures !KeyLess(out[j], k) {
        assert out[j] == ks[j - 1];
        KeyOrder(ks[j - 1], ks[0], k);
      }
    } else {
      InsertOrders(k, ks[1..]);
      KeyOrder(k, ks[0], k);
      InsertKeeps(k, ks[1..]);
      forall j | 1 <= j < |out| ensures !KeyLess(out[j], ks[0]) {
        assert out[j] == InsertSorted(k, ks[1..])[j - 1];
        assert out[j] in multiset{k} + multiset(ks[1..]);
      }
    }
  }

  /** The result is in order and holds the keys given, each as often. */
  lemma {:induction false} SortedOrders(ks: seq<Key>)
    ensures InOrder(Sorted(ks)) && multiset(Sorted(ks)) == multiset(ks)
    decreases ks
  {
    SortedKeeps(ks);
    if ks != [] {
      SortedOrders(ks[1..]);
      InsertOrders(ks[0], Sorted(ks[1..]));
    }
  }

  // -------------------------------------------------------------- the tool

  function KeysOf(es: seq<Entry>): set<Key> {
    set i | 0 <= i < |es| && !IsHeader(es[i]) :: es[i].key
  }

  /** Headers stay; other entries stay unless they are pruned. */
  function Kept(pot: seq<Entry>, poKeys: set<Key>, prune: bool): (r: seq<Entry>)
    ensures |r| <= |pot|
  {
    if pot == [] then []
    else if IsHeader(pot[0]) || !prune || pot[0].key in poKeys then [pot[0]] + Kept(pot[1..], poKeys, prune)
    else Kept(pot[1..], poKeys, prune)
  }

  /** The keys that are missing, each once, in the order of their first entry. */
  function Missing(po: seq<Entry>, present: set<Key>): seq<Key> {
    if po == [] then []
    else if IsHeader(po[0]) || po[0].key in present then Missing(po[1..], present)
    else [po[0].key] + Missing(po[1..], present + {po[0].key})
  }

  /** Blocks with an empty line between each two. */
  function Separate(blocks: seq<seq<string>>): seq<string> {
    if blocks == [] then [] else if |blocks| == 1 then blocks[0] else blocks[0] + [""] + Separate(blocks[1..])
  }

  function RawBlocks(es: seq<Entry>): seq<seq<string>> { seq(|es|, i requires 0 <= i < |es| => es[i].rawLines) }
  function BuiltBlocks(ks: seq<Key>): seq<seq<string>> { seq(|ks|, i requires 0 <= i < |ks| => BuildPotEntry(ks[i])) }

  /** The new lines: kept blocks as they are, then the built ones. */
  function OutLines(kept: seq<Entry>, added: seq<Key>): seq<string> {
    Separate(RawBlocks(kept) + BuiltBlocks(added))
  }

  /** "\n".join(lines) + "\n". */
  function Text(lines: seq<string>): string {
    if lines == [] then "\n" else JoinLines(lines)
  }

  /** What a run reports and writes. */
  datatype Report = Report(kept: nat, removed: nat, added: nat, changed: bool, text: string)

  function ParseAll(texts: seq<string>): Option<seq<Entry>> {
    if texts == [] then Some([]) else Append(ParsePo(texts[0]), ParseAll(texts[1..]))
  }

  /** sync_pot on the texts of the template and, in file order, of the
      translations. None is an exception. */
  function SyncPot(pot: string, pos: seq<string>, prune: bool): Option<Report> {
    if prune && pos == [] then None
    else
      match (ParseAll(pos), ParsePo(pot))
      case (Some(po), Some(entries)) =>
        var kept := Kept(entries, KeysOf(po), prune);
        var added := Sorted(Missing(po, KeysOf(kept)));
        var text := Text(OutLines(kept, added));
        Some(Report(|kept|, |entries| - |kept|, |added|, text != pot, text))
      case _ => None
  }

  // ------------------------------------------------------ parsing the output

  /** A block that parses as one live entry. */
  ghost predicate LiveBlock(block: seq<string>) {
    && block != [] && (forall i :: 0 <= i < |block| ==> !IsBlank(block[i]))
    && !IsObsoleteBlock(block) && ParseEntry(block).Some?
  }

  lemma {:induction false} ParsesBlockLines(lines: seq<string>, rest: seq<string>, begun: seq<string>)
    requires forall i :: 0 <= i < |lines| ==> !IsBlank(lines[i])
    ensures ParseBlocks(lines + rest, begun) == ParseBlocks(rest, begun + lines)
    decreases lines
  {
    if lines == [] {
      assert lines + rest == rest && begun + lines == begun;
    } else {
      assert (lines + rest)[0] == lines[0] && (lines + rest)[1..] == lines[1..] + rest;
      ParsesBlockLines(lines[1..], rest, begun + [lines[0]]);
      assert (begun + [lines[0]]) + lines[1..] == begun + lines;
    }
  }

  lemma EmptyIsBlank()
    ensures IsBlank("")
  {
  }

  // ----------------------------------------------- what parsing delivers

  /** An entry as parsing delivers it: its lines are a live block without line
      breaks, and parse into it. */
  ghost predicate Parsed(e: Entry) {
    LiveBlock(e.rawLines) && ParseEntry(e.rawLines) == Some(e) && forall i :: 0 <= i < |e.rawLines| ==>
        Unbroken(e.rawLines[i])
  }

  ghost predicate GoodLines(lines: seq<string>) {
    forall i :: 0 <= i < |lines| ==> Unbroken(lines[i]) && !IsBlank(lines[i])
  }

  lemma FlushDelivers(block: seq<string>)
    requires GoodLines(block) && Flush(block).Some?
    ensures forall e <- Flush(block).value :: Parsed(e)
  {
    hide IsBlank, IsObsoleteBlock, ParseLines;
    if block != [] && !IsObsoleteBlock(block) {
      assert ParseEntry(block).value.rawLines == block;
    }
  }

  lemma {:induction false} ParsingDelivers(lines: seq<string>, block: seq<string>)
    requires GoodLines(block) && (forall i :: 0 <= i < |lines| ==> Unbroken(lines[i]))
    requires ParseBlocks(lines, block).Some?
    ensures forall e <- ParseBlocks(lines, block).value :: Parsed(e)
    decreases lines
  {
    hide IsBlank, Flush, Parsed, Unbroken;
    if lines == [] {
      FlushDelivers(block);
    } else if IsBlank(lines[0]) {
      FlushDelivers(block);
      ParsingDelivers(lines[1..], []);
    } else {
      ParsingDelivers(lines[1..], block + [lines[0]]);
    }
  }

  lemma ParsePoDelivers(text: string)
    requires ParsePo(text).Some?
    ensures forall e <- ParsePo(text).value :: Parsed(e)
  {
    SplitLinesUnbroken(text);
    ParsingDelivers(SplitLines(text), []);
  }

  /** Entries written apart from each other parse into themselves. */
  lemma {:induction false} ParsesSeparated(es: seq<Entry>)
    requires forall i :: 0 <= i < |es| ==> Parsed(es[i])
    ensures ParseBlocks(Separate(RawBlocks(es)), []) == Some(es)
    decreases es
  {
    hide IsBlank, IsObsoleteBlock, ParseEntry;
    if es != [] {
      var (blocks, first) := (RawBlocks(es), es[0].rawLines);
      assert Parsed(es[0]) && blocks[1..] == RawBlocks(es[1..]) && [] + first == first;
      if |es| == 1 {
        ParsesBlockLines(first, [], []);
        assert first + [] == first && es == [es[0]];
      } else {
        var rest := [""] + Separate(blocks[1..]);
        assert Separate(blocks) == first + rest;
        ParsesBlockLines(first, rest, []);
        EmptyIsBlank();
        assert rest[1..] == Separate(blocks[1..]);
        ParsesSeparated(es[1..]);
        assert es == [es[0]] + es[1..];
      }
    }
  }
}
