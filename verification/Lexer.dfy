/** What the lexer reads at a position of a script: white space, strings, names,
    numbers, punctuations (src/botlib/l_script.c:277-1023). */
module Lexer {
  import opened Options
  import opened Tokens
  import opened Numerals
  import opened Punctuations

  // ---------------------------------------------------------------- buffers

  const NUL: char := '\0'

  /** A loaded script: plain characters, and a NUL behind the last. */
  ghost predicate Buffer(s: string) {
    |s| > 0 && s[|s| - 1] == NUL && forall i :: 0 <= i < |s| ==> s[i] < '\U{0080}'
  }

  /** The newlines among the first `n` characters. */
  function Newlines(s: string, n: nat): nat
    requires n <= |s|
  {
    if n == 0 then 0 else Newlines(s, n - 1) + (if s[n - 1] == '\n' then 1 else 0)
  }

  /** No newline from `i` up to `j`. */
  ghost predicate SameLine(s: string, i: nat, j: nat) {
    i <= j <= |s| && forall k :: i <= k < j ==> s[k] != '\n'
  }

  lemma {:induction false} SameLineCounts(s: string, i: nat, j: nat)
    requires SameLine(s, i, j)
    ensures Newlines(s, j) == Newlines(s, i)
    decreases j
  {
    if i < j { SameLineCounts(s, i, j - 1); }
  }

  // ------------------------------------------------------------- white space

  /** The first newline or NUL. */
  function LineEnd(s: string, p: nat): (r: nat)
    requires Buffer(s) && p < |s|
    ensures p <= r < |s| && (s[r] == '\n' || s[r] == NUL) && SameLine(s, p, r) && forall k :: p <= k < r ==> s[k] != NUL
    decreases |s| - p
  {
    if s[p] == '\n' || s[p] == NUL then p else LineEnd(s, p + 1)
  }

  predicate ClosesComment(s: string, p: nat) {
    p + 1 < |s| && s[p] == '*' && s[p + 1] == '/'
  }

  /** The first end of a comment, or NUL. */
  function CommentEnd(s: string, p: nat): (r: nat)
    requires Buffer(s) && p < |s|
    ensures p <= r < |s| && (s[r] == NUL || ClosesComment(s, r)) && forall k :: p <= k < r ==>
         s[k] != NUL && !ClosesComment(s, k)
    decreases |s| - p
  {
    if s[p] == NUL || ClosesComment(s, p) then p else CommentEnd(s, p + 1)
  }

  /** Behind the one blank or comment at `p`, or `p` itself if none is there. A
      comment without an end goes on to the NUL. */
  function SkipOne(s: string, p: nat): (r: nat)
    requires Buffer(s) && p < |s|
    ensures p <= r < |s| && (r == p ==> s[p] == NUL || s[p] > ' ')
  {
    if s[p] == NUL then p
    else if s[p] <= ' ' then p + 1
    else if s[p] == '/' && s[p + 1] == '/' then var e := LineEnd(s, p + 2); if s[e] == NUL then e else e + 1
    else if s[p] == '/' && s[p + 1] == '*' then var e := CommentEnd(s, p + 2); if s[e] == NUL then e else e + 2
    else p
  }

  /** Behind white space and comments: at the next token, or at a NUL. */
  function White(s: string, p: nat): (r: nat)
    requires Buffer(s) && p < |s|
    ensures p <= r < |s| && (s[r] == NUL || s[r] > ' ')
    decreases |s| - p
  {
    if SkipOne(s, p) == p then p else White(s, SkipOne(s, p))
  }

  /** White space and whole comments only, from `p` up to `q`. */
  ghost predicate Blank(s: string, p: nat, q: nat)
    decreases q - p
  {
    || p == q
    || (p < q <= |s| && s[p] != NUL && s[p] <= ' ' && Blank(s, p + 1, q))
    || (exists e :: p + 2 <= e < q <= |s| && IsLineComment(s, p, e) && Blank(s, e + 1, q))
    || (exists e :: p + 2 <= e && e + 1 < q <= |s| && IsComment(s, p, e) && Blank(s, e + 2, q))
  }

  ghost predicate IsLineComment(s: string, p: nat, e: nat) {
    && p + 2 <= e < |s| && s[p] == '/' && s[p + 1] == '/' && s[e] == '\n'
    && SameLine(s, p + 2, e) && forall k :: p <= k < e ==> s[k] != NUL
  }

  ghost predicate IsComment(s: string, p: nat, e: nat) {
    && p + 2 <= e < |s| && s[p] == '/' && s[p + 1] == '*' && ClosesComment(s, e)
    && forall k :: p + 2 <= k < e ==> s[k] != NUL && !ClosesComment(s, k)
  }

  predicate StartsBlank(s: string, p: nat)
    requires p < |s|
  {
    s[p] <= ' ' || (s[p] == '/' && p + 1 < |s| && (s[p + 1] == '/' || s[p + 1] == '*'))
  }

  lemma LineEndIs(s: string, p: nat, e: nat)
    requires Buffer(s) && p <= e < |s| && SameLine(s, p, e) && s[e] == '\n' && forall k :: p <= k < e ==> s[k] != NUL
    ensures LineEnd(s, p) == e
  {
    var r := LineEnd(s, p);
  }

  lemma CommentEndIs(s: string, p: nat, e: nat)
    requires Buffer(s) && p <= e < |s| && ClosesComment(s, e) && forall k :: p <= k < e ==>
         s[k] != NUL && !ClosesComment(s, k)
    ensures CommentEnd(s, p) == e
  {
    var r := CommentEnd(s, p);
  }

  /** Skipping white space skips all of it and nothing else: it ends at a character
      exactly if blanks and comments lead there and none begins there. */
  lemma {:induction false} WhiteIsBlank(s: string, p: nat, q: nat)
    requires Buffer(s) && p <= q < |s| && s[q] != NUL
    ensures White(s, p) == q <==> Blank(s, p, q) && !StartsBlank(s, q)
    decreases q - p
  {
    hide Blank, SkipOne, StartsBlank, Buffer;
    BlankUnfolds(s, p, q);
    SkipsOne(s, p);
    var e := SkipOne(s, p);
    if p < e <= q { WhiteIsBlank(s, e, q); }
  }

  lemma SkipsOne(s: string, p: nat)
    requires Buffer(s) && p < |s|
    ensures SkipOne(s, p) == p <==> s[p] == NUL || !StartsBlank(s, p)
  {
  }

  lemma LineCommentIs(s: string, p: nat, e: nat)
    requires Buffer(s) && p < |s| && s[p] != NUL
    ensures IsLineComment(s, p, e) <==> s[p] == '/' && s[p + 1] == '/' && e == LineEnd(s, p + 2) && s[e] == '\n'
  {
    if IsLineComment(s, p, e) { LineEndIs(s, p + 2, e); }
  }

  lemma CommentIs(s: string, p: nat, e: nat)
    requires Buffer(s) && p < |s| && s[p] != NUL
    ensures IsComment(s, p, e) <==> s[p] == '/' && s[p + 1] == '*' && e == CommentEnd(s, p + 2) && s[e] != NUL
  {
    if IsComment(s, p, e) { CommentEndIs(s, p + 2, e); }
  }

  lemma NulIsNotBlank(s: string, p: nat, q: nat)
    requires p < q <= |s| && s[p] == NUL
    ensures !Blank(s, p, q)
  {
  }

  lemma BlankUnfolds(s: string, p: nat, q: nat)
    requires Buffer(s) && p <= q < |s| && s[q] != NUL
    ensures Blank(s, p, q) <==> p == q || (p < SkipOne(s, p) <= q && Blank(s, SkipOne(s, p), q))
  {
    hide IsLineComment, IsComment, LineEnd, CommentEnd;
    if p < q && s[p] == NUL {
      NulIsNotBlank(s, p, q);
    } else if p < q {
      forall e: nat
        ensures IsLineComment(s, p, e) <==> s[p] == '/' && s[p + 1] == '/' && e == LineEnd(s, p + 2) && s[e] == '\n'
      {
        LineCommentIs(s, p, e);
      }
      forall e: nat
        ensures IsComment(s, p, e) <==> s[p] == '/' && s[p + 1] == '*' && e == CommentEnd(s, p + 2) && s[e] != NUL
      {
        CommentIs(s, p, e);
      }
      var e := SkipOne(s, p);
      if e < q && s[e] == NUL { NulIsNotBlank(s, e, q); }
    }
  }

  // ----------------------------------------------------------------- escapes

  function HexDigit(c: char): (v: Option<nat>) {
    if '0' <= c <= '9' then Some(c as nat - '0' as nat)
    else if 'A' <= c <= 'Z' then Some(c as nat - 'A' as nat + 10)
    else if 'a' <= c <= 'z' then Some(c as nat - 'a' as nat + 10)
    else None
  }

  function DecimalDigit(c: char): (v: Option<nat>) {
    if '0' <= c <= '9' then Some(c as nat - '0' as nat) else None
  }

  /** The value of a run of digits, entered with `val`, and where the run ends. */
  function DigitRun(s: string, p: nat, base: nat, val: nat): (r: (nat, nat))
    requires Buffer(s) && p < |s| && (base == 16 || base == 10)
    ensures p <= r.1 < |s| && SameLine(s, p, r.1)
    decreases |s| - p
  {
    var d := if base == 16 then HexDigit(s[p]) else DecimalDigit(s[p]);
    if d.None? then (val, p) else DigitRun(s, p + 1, base, val * base + d.value)
  }

  function SimpleEscape(c: char): Option<char> {
    if c == '\\' || c == '\'' || c == '"' || c == '?' then Some(c)
    else if c == 'n' then Some('\n')
    else if c == 'r' then Some('\r')
    else if c == 't' then Some('\t')
    else if c == 'v' then Some('\U{000b}')
    else if c == 'b' then Some('\U{0008}')
    else if c == 'f' then Some('\U{000c}')
    else if c == 'a' then Some('\U{0007}')
    else None
  }

  function AtMostFF(val: nat): char { if val > 0xFF then 0xFF as char else val as char }

  /** The character for the escape at `p`, and where it ends. A letter that is no
      escape stands for the character 0 and is not stepped over. */
  function Escape(s: string, p: nat): (r: (char, nat))
    requires Buffer(s) && p < |s| && s[p] == '\\'
    ensures p < r.1 < |s| && SameLine(s, p, r.1)
  {
    var simple := SimpleEscape(s[p + 1]);
    if simple.Some? then (simple.value, p + 2)
    else if s[p + 1] == 'x' then var (val, q) := DigitRun(s, p + 2, 16, 0); (AtMostFF(val), q)
    else var (val, q) := DigitRun(s, p + 1, 10, 0); (AtMostFF(val), q)
  }

  // ----------------------------------------------------------------- strings

  /** A reading: whether it succeeded, what it stored, and where the cursor is. */
  datatype Reading = Reading(ok: bool, text: string, next: nat)

  datatype Flags = Flags(noEscapes: bool, noWhiteSpaces: bool)

  /** The rest of a string, behind `text`. Strings with white space between them
      are read as one. */
  function StringRest(s: string, p: nat, quote: char, text: string, flags: Flags): (r: Reading)
    requires Buffer(s) && p < |s| && (quote == '"' || quote == '\'')
    ensures p <= r.next < |s| && (r.ok ==> p < r.next)
    decreases |s| - p
  {
    if |text| >= MAX_TOKEN - 2 then Reading(false, text, p)
    else if s[p] == '\\' && !flags.noEscapes then
      var (c, q) := Escape(s, p);
      StringRest(s, q, quote, text + [c], flags)
    else if s[p] == quote then
      if flags.noWhiteSpaces then Reading(true, text + [quote], p + 1)
      else
        var q := White(s, p + 1);
        if s[q] == quote then StringRest(s, q + 1, quote, text, flags) else Reading(true, text + [quote], p + 1)
    else if s[p] == NUL || s[p] == '\n' then Reading(false, text, p)
    else StringRest(s, p + 1, quote, text + [s[p]], flags)
  }

  function StringAt(s: string, p: nat, flags: Flags): (r: Reading)
    requires Buffer(s) && p < |s| && (s[p] == '"' || s[p] == '\'')
    ensures p < r.next < |s|
  {
    StringRest(s, p + 1, s[p], [s[p]], flags)
  }

  /** Characters that stand for themselves in a string. */
  predicate StandsForItself(c: char, quote: char) { c != quote && c != '\\' && c != '\n' && c != NUL }

  lemma {:induction false} PlainRest(s: string, p: nat, q: nat, quote: char, text: string, flags: Flags)
    requires Buffer(s) && p <= q < |s| && (quote == '"' || quote == '\'') && |text| + (q - p) < MAX_TOKEN - 2
    requires forall k :: p <= k < q ==> StandsForItself(s[k], quote)
    ensures StringRest(s, p, quote, text, flags) == StringRest(s, q, quote, text + s[p..q], flags)
    decreases q - p
  {
    hide Buffer, Escape, White;
    if p == q {
      assert text + s[p..q] == text;
    } else {
      PlainRest(s, p + 1, q, quote, text + [s[p]], flags);
      assert (text + [s[p]]) + s[p + 1..q] == text + s[p..q];
    }
  }

  /** A string of such characters is read as it stands, up to its closing quote at
      `q`; if another string comes behind white space, it is read on into that one. */
  lemma PlainStringReads(s: string, p: nat, q: nat, flags: Flags)
    requires Buffer(s) && p < q < |s| && (s[p] == '"' || s[p] == '\'') && s[q] == s[p] && q - p < MAX_TOKEN - 2
    requires forall k :: p < k < q ==> StandsForItself(s[k], s[p])
    ensures var next := White(s, q + 1);
            StringAt(s, p, flags) == if !flags.noWhiteSpaces
                && s[next] == s[p] then StringRest(s, next + 1, s[p], s[p..q], flags)
                                     else Reading(true, s[p..q + 1], q + 1)
  {
    hide White;
    PlainRest(s, p + 1, q, s[p], [s[p]], flags);
    assert [s[p]] + s[p + 1..q] == s[p..q] && s[p..q] + [s[q]] == s[p..q + 1];
  }

  // ---------------------------------------------------------- runs of letters

  predicate IsDigit(c: char) { '0' <= c <= '9' }
  predicate IsNameStart(c: char) { 'a' <= c <= 'z' || 'A' <= c <= 'Z' || c == '_' }
  predicate IsNameChar(c: char) { IsNameStart(c) || IsDigit(c) }
  predicate IsHexChar(c: char) { IsDigit(c) || 'a' <= c <= 'f' || 'A' <= c <= 'F' }
  predicate IsBinaryChar(c: char) { c == '0' || c == '1' }
  predicate IsNumberChar(c: char) { IsDigit(c) || c == '.' }

  /** The first character that is not of the kind, but no further than `most`. */
  function RunEnd(s: string, p: nat, kind: char -> bool, most: nat): (r: nat)
    requires Buffer(s) && p < |s| && p <= most && !kind(NUL)
    ensures p <= r < |s| && r <= most && (forall k :: p <= k < r ==> kind(s[k])) && (r < most ==> !kind(s[r]))
    decreases |s| - p
  {
    if p == most || !kind(s[p]) then p else RunEnd(s, p + 1, kind, most)
  }

  lemma RunUnfolds(s: string, p: nat, kind: char -> bool, most: nat)
    requires Buffer(s) && p < |s| && p <= most && !kind(NUL)
    ensures RunEnd(s, p, kind, most) == if p == most || !kind(s[p]) then p else RunEnd(s, p + 1, kind, most)
    ensures kind(s[p]) ==> p + 1 < |s|
  {
  }

  function NameAt(s: string, p: nat): (r: Reading)
    requires Buffer(s) && p < |s| && IsNameStart(s[p])
    ensures p < r.next < |s|
  {
    var e := RunEnd(s, p, IsNameChar, p + MAX_TOKEN);
    Reading(e < p + MAX_TOKEN, s[p..e], e)
  }

  // ----------------------------------------------------------------- numbers

  /** NumberValue's loop for a base, entered with `acc`. */
  function ValueFrom(acc: int, digits: string, base: int): int
    decreases digits
  {
    if digits == "" then acc
    else
      var c := digits[0];
      var d := if base == 16 && 'a' <= c <= 'f' then c as int - 'a' as int + 10
               else if base == 16 && 'A' <= c <= 'F' then c as int - 'A' as int + 10
               else c as int - '0' as int;
      ValueFrom(acc * base + d, digits[1..], base)
  }

  /** NumberValue's loop for a floating point number; `dot` is 0 before the dot. A
      dot at the end takes the closing NUL for a digit. */
  function FloatFrom(value: real, dot: int, text: string): real
    decreases text
  {
    if text == "" || (text[0] == '.' && dot != 0) then value
    else
      var (d, rest) := if text[0] == '.' then (10, text[1..]) else (dot, text);
      var c := if rest == "" then NUL else rest[0];
      var digit := (c as int - '0' as int) as real;
      var value' := if d == 0 then value * 10.0 + digit else value + digit / d as real;
      if rest == "" then value' else FloatFrom(value', d * 10, rest[1..])
  }

  /** Whether that loop comes upon a second dot, where it returns at once; the
      character behind the first dot is not looked at. */
  predicate StopsAtDot(dot: int, text: string)
    decreases text
  {
    if text == "" then false
    else if text[0] == '.' && dot != 0 then true
    else
      var (d, rest) := if text[0] == '.' then (10, text[1..]) else (dot, text);
      rest != "" && StopsAtDot(d * 10, rest[1..])
  }

  function Truncate(v: real): int { if v < 0.0 then -((-v).Floor) else v.Floor }

  datatype NumberKind = Hex | Binary | Plain(octal: bool, float: bool)

  function KindBits(kind: NumberKind): int {
    match kind
    case Hex => TT_HEX
    case Binary => TT_BINARY
    case Plain(octal, float) => (if octal then TT_OCTAL else TT_DECIMAL) + (if float then TT_FLOAT else 0)
  }

  predicate IsFloat(kind: NumberKind) { kind.Plain? && kind.float }

  /** NumberValue: the integer and the float value of a number's text. A second dot
      leaves the integer at 0. */
  function ValueOf(text: string, kind: NumberKind): (int, real) {
    if IsFloat(kind) then var v := FloatFrom(0.0, 0, text); (if StopsAtDot(0, text) then 0 else Truncate(v), v)
    else
      var n := match kind
        case Hex => if |text| < 2 then 0 else ValueFrom(0, text[2..], 16)
        case Binary => if |text| < 2 then 0 else ValueFrom(0, text[2..], 2)
        case Plain(octal, _) =>
          if octal then (if text == "" then 0 else ValueFrom(0, text[1..], 8)) else ValueFrom(0, text, 10);
      (n, n as real)
  }

  /** The suffixes: a long and an unsigned mark, in either order. */
  function Suffix(s: string, p: nat, float: bool, long: bool, unsigned: bool, rounds: nat): (r: (bool, bool, nat))
    requires Buffer(s) && p < |s|
    ensures p <= r.2 < |s| && SameLine(s, p, r.2)
    decreases rounds
  {
    if rounds == 0 then (long, unsigned, p)
    else if (s[p] == 'l' || s[p] == 'L') && !long then Suffix(s, p + 1, float, true, unsigned, rounds - 1)
    else if (s[p] == 'u' || s[p] == 'U') && !unsigned && !float then Suffix(s, p + 1, float, long, true, rounds - 1)
    else Suffix(s, p, float, long, unsigned, rounds - 1)
  }

  /** Whether a number without a prefix is octal, given its first character. */
  predicate IsOctal(first: char, text: string) { first == '0' && '8' !in text && '9' !in text }

  lemma IsOctalGrows(first: char, text: string, c: char)
    ensures IsOctal(first, text + [c]) == (IsOctal(first, text) && c != '8' && c != '9')
    ensures '.' in text + [c] <==> '.' in text || c == '.'
  {
  }

  datatype Number = Number(ok: bool, text: string, kind: NumberKind, next: nat)

  /** The digits of a number. */
  function DigitsAt(s: string, p: nat): (r: Number)
    requires Buffer(s) && p < |s| && IsNumberChar(s[p])
    ensures p < r.next < |s| && SameLine(s, p, r.next)
  {
    if s[p] == '0' && (s[p + 1] == 'x' || s[p + 1] == 'X') then
      var e := RunEnd(s, p + 2, IsHexChar, p + MAX_TOKEN);
      Number(e < p + MAX_TOKEN, s[p..e], Hex, e)
    else if s[p] == '0' && (s[p + 1] == 'b' || s[p + 1] == 'B') then
      var e := RunEnd(s, p + 2, IsBinaryChar, p + MAX_TOKEN);
      Number(e < p + MAX_TOKEN, s[p..e], Binary, e)
    else
      var e := RunEnd(s, p, IsNumberChar, p + MAX_TOKEN - 1);
      var text := s[p..e];
      Number(e < p + MAX_TOKEN - 1, text, Plain(IsOctal(s[p], text), '.' in text), e)
  }

  // ------------------------------------------------------------ punctuations

  predicate MatchesAt(s: string, p: nat, text: string) {
    p + |text| < |s| && s[p..p + |text|] == text
  }

  function FirstMatch(nodes: seq<Punctuation>, s: string, p: nat): Option<Punctuation> {
    if nodes == [] then None
    else if MatchesAt(s, p, nodes[0].p) then Some(nodes[0])
    else FirstMatch(nodes[1..], s, p)
  }

  /** The punctuation read at `p`, by the bucket of the character there. */
  function PunctuationAt(ps: seq<Punctuation>, s: string, p: nat): Option<Punctuation>
    requires p < |s|
  {
    FirstMatch(Bucket(ps, s[p] as int), s, p)
  }

  lemma {:induction false} FirstMatchIsLongest(nodes: seq<Punctuation>, s: string, p: nat)
    requires LongestFirst(nodes)
    ensures match FirstMatch(nodes, s, p)
            case None => forall x <- nodes :: !MatchesAt(s, p, x.p)
            case Some(y) =>
              y in nodes && MatchesAt(s, p, y.p) && forall x <- nodes :: MatchesAt(s, p, x.p) ==> |x.p| <= |y.p|
    decreases nodes
  {
    hide MatchesAt;
    if nodes != [] {
      FirstMatchIsLongest(nodes[1..], s, p);
      assert nodes == [nodes[0]] + nodes[1..];
      assert forall i :: 0 <= i < |nodes| ==> |nodes[0].p| >= |nodes[i].p|;
    }
  }

  /** Maximal munch: what is read is the longest punctuation of the list that the
      script has at the cursor, and nothing is read only if it has none. */
  lemma LongestMatch(ps: seq<Punctuation>, s: string, p: nat)
    requires Usable(ps) && p < |s|
    ensures match PunctuationAt(ps, s, p)
            case None => forall x <- ps :: !MatchesAt(s, p, x.p)
            case Some(y) =>
              y in ps && MatchesAt(s, p, y.p) && forall x <- ps :: MatchesAt(s, p, x.p) ==> x.p == y.p || |x.p| < |y.p|
  {
    var c := s[p] as int;
    BucketHolds(ps, c);
    BucketMembers(ps, c);
    FirstMatchIsLongest(Bucket(ps, c), s, p);
    forall x | x in ps && MatchesAt(s, p, x.p) ensures x in Bucket(ps, c) {
      MatchStarts(ps, x, s, p);
      assert multiset(Bucket(ps, c))[x] > 0;
    }
  }

  lemma MatchStarts(ps: seq<Punctuation>, x: Punctuation, s: string, p: nat)
    requires Usable(ps) && x in ps && MatchesAt(s, p, x.p)
    ensures p < |s| && StartsAt(x, s[p] as int)
  {
    assert s[p..p + |x.p|][0] == s[p];
  }

  // ------------------------------------------------------------------ tokens

  /** A token, if one was read, and where the cursor is then. */
  datatype Lexed = Lexed(token: Option<Token>, next: nat)

  /** The token that begins at `p`. */
  function TokenAt(ps: seq<Punctuation>, s: string, p: nat, flags: Flags, linescrossed: nat,
          whitespace: bool): (r: Lexed)
    requires Buffer(s) && p < |s| && s[p] != NUL && Usable(ps)
    ensures p <= r.next < |s| && (r.token.Some? ==> p < r.next)
  {
    if s[p] == '"' || s[p] == '\'' then
      var r := StringAt(s, p, flags);
      var typ := if s[p] == '"' then TT_STRING else TT_LITERAL;
      Lexed(if r.ok then Some(Token(r.text, typ, |r.text|, 0, 0.0, linescrossed, whitespace)) else None, r.next)
    else if IsDigit(s[p]) || (s[p] == '.' && IsDigit(s[p + 1])) then
      var n := DigitsAt(s, p);
      if !n.ok then Lexed(None, n.next)
      else
        var (long, unsigned, next) := Suffix(s, n.next, IsFloat(n.kind), false, false, 2);
        var (intvalue, floatvalue) := ValueOf(n.text, n.kind);
        var subtype := KindBits(n.kind) + (if long then TT_LONG else 0) + (if unsigned then TT_UNSIGNED else 0)
                       + (if IsFloat(n.kind) then 0 else TT_INTEGER);
        Lexed(Some(Token(n.text, TT_NUMBER, subtype, intvalue, floatvalue, linescrossed, whitespace)), next)
    else if IsNameStart(s[p]) then
      var r := NameAt(s, p);
      Lexed(if r.ok then Some(Token(r.text, TT_NAME, |r.text|, 0, 0.0, linescrossed, whitespace)) else None, r.next)
    else
      match PunctuationAt(ps, s, p)
      case None => Lexed(None, p)
      case Some(x) =>
        LongestMatch(ps, s, p);
        Lexed(Some(Token(x.p, TT_PUNCTUATION, x.n, 0, 0.0, linescrossed, whitespace)), p + |x.p|)
  }

  /** Reading one token with the cursor at `p`. */
  function LexAt(ps: seq<Punctuation>, s: string, p: nat, flags: Flags): (r: Lexed)
    requires Buffer(s) && p < |s| && Usable(ps)
    ensures p <= r.next < |s| && (r.token.Some? ==> p < r.next)
  {
    var q := White(s, p);
    if s[q] == NUL then Lexed(None, q)
    else
      NewlinesGrow(s, p, q);
      TokenAt(ps, s, q, flags, Newlines(s, q) - Newlines(s, p), p < q)
  }

  lemma {:induction false} NewlinesGrow(s: string, p: nat, q: nat)
    requires p <= q <= |s|
    ensures Newlines(s, p) <= Newlines(s, q)
    decreases q
  {
    if p < q { NewlinesGrow(s, p, q - 1); }
  }

  // --------------------------------------------------------- printed numbers

  lemma {:induction false} ValueIsDecimal(acc: int, digits: string)
    ensures ValueFrom(acc, digits, 10) == DecimalValueFrom(acc, digits)
    decreases digits
  {
    if digits != "" {
      ValueIsDecimal(acc * 10 + (digits[0] as int - '0' as int), digits[1..]);
    }
  }

  lemma {:induction false} NoLeadingZero(n: nat)
    ensures Decimal(n)[0] == '0' <==> n == 0
  {
    if n >= 10 {
      NoLeadingZero(n / 10);
    }
  }

  lemma {:induction false} RunEndIs(s: string, p: nat, kind: char -> bool, most: nat, e: nat)
    requires Buffer(s) && p <= e < |s| && e < most && !kind(NUL) && !kind(s[e])
    requires forall k :: p <= k < e ==> kind(s[k])
    ensures RunEnd(s, p, kind, most) == e
    decreases e - p
  {
    if p < e { RunEndIs(s, p + 1, kind, most, e); }
  }

  /** Lexing the decimal numeral of a number gives one number token with its value. */
  lemma PrintedNumberReads(ps: seq<Punctuation>, s: string, p: nat, flags: Flags, n: nat)
    requires Buffer(s) && Usable(ps) && p + |Decimal(n)| < |s| && s[p..p + |Decimal(n)|] == Decimal(n)
    requires |Decimal(n)| < MAX_TOKEN - 1 && !IsNumberChar(s[p + |Decimal(n)|]) && !IsNameStart(s[p + |Decimal(n)|])
    ensures var r := LexAt(ps, s, p, flags);
            && r.next == p + |Decimal(n)|
            && r.token.Some? && r.token.value.typ == TT_NUMBER && r.token.value.str == Decimal(n)
            && r.token.value.intvalue == n && r.token.value.floatvalue == n as real
  {
    hide RunEnd, Decimal, ValueFrom, Suffix;
    var (e, text) := (p + |Decimal(n)|, Decimal(n));
    forall k | p <= k < e ensures '0' <= s[k] <= '9' {
      assert s[k] == text[k - p] && text[k - p] in text;
    }
    assert White(s, p) == p by { assert SkipOne(s, p) == p; }
    RunEndIs(s, p, IsNumberChar, p + MAX_TOKEN - 1, e);
    NoLeadingZero(n);
    assert s[p] == text[0];
    DigitsOnly(s, p, e, n);
    NoSuffix(s, e);
    PrintedValue(n);
  }

  lemma DigitsOnly(s: string, p: nat, e: nat, n: nat)
    requires Buffer(s) && p < e < |s| && s[p..e] == Decimal(n) && (s[p] == '0' <==> n == 0)
    requires !IsNumberChar(s[e]) && !IsNameStart(s[e])
    requires RunEnd(s, p, IsNumberChar, p + MAX_TOKEN - 1) == e < p + MAX_TOKEN - 1
    requires IsDigit(s[p])
    ensures DigitsAt(s, p) == Number(true, Decimal(n), Plain(n == 0, false), e)
  {
    hide RunEnd;
    var text := Decimal(n);
    if s[p] == '0' {
      ZeroIsShort();
      assert e == p + 1;
    } else {
      assert !IsOctal(s[p], text);
    }
    assert '.' !in text;
  }

  lemma ZeroIsShort()
    ensures Decimal(0) == "0"
  {
  }

  lemma NoSuffix(s: string, e: nat)
    requires Buffer(s) && e < |s| && !IsNameStart(s[e])
    ensures Suffix(s, e, false, false, false, 2) == (false, false, e)
  {
    assert Suffix(s, e, false, false, false, 0) == (false, false, e);
    assert Suffix(s, e, false, false, false, 1) == (false, false, e);
  }

  lemma PrintedValue(n: nat)
    ensures ValueOf(Decimal(n), Plain(n == 0, false)) == (n, n as real)
  {
    hide Decimal;
    if n == 0 {
      ZeroIsShort();
      assert Decimal(0)[1..] == "";
    } else {
      ValueIsDecimal(0, Decimal(n));
      DecimalRoundTrip(n);
    }
  }

  lemma {:induction false} DigitRunIs(s: string, p: nat, e: nat, val: nat)
    requires Buffer(s) && p <= e < |s| && !IsDigit(s[e]) && forall k :: p <= k < e ==> IsDigit(s[k])
    ensures DigitRun(s, p, 10, val) == (DecimalValueFrom(val, s[p..e]), e)
    decreases e - p
  {
    hide Buffer;
    if p < e {
      DigitRunIs(s, p + 1, e, val * 10 + DecimalDigit(s[p]).value);
      assert s[p..e][0] == s[p] && s[p..e][1..] == s[p + 1..e];
    }
  }

  /** A backslash and the decimal numeral of a character read as that character;
      they are decimal, not octal. */
  lemma EscapedNumberReads(s: string, p: nat, n: nat)
    requires Buffer(s) && p + 1 + |Decimal(n)| < |s| && s[p] == '\\' && s[p + 1..p + 1 + |Decimal(n)|] == Decimal(n)
    requires !IsDigit(s[p + 1 + |Decimal(n)|]) && n <= 0xFF
    ensures Escape(s, p) == (n as char, p + 1 + |Decimal(n)|)
  {
    hide Decimal;
    var e := p + 1 + |Decimal(n)|;
    forall k | p + 1 <= k < e ensures IsDigit(s[k]) {
      assert s[k] == Decimal(n)[k - p - 1] && Decimal(n)[k - p - 1] in Decimal(n);
    }
    DigitRunIs(s, p + 1, e, 0);
    DecimalRoundTrip(n);
  }
}
