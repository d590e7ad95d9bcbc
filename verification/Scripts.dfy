/** A script being lexed: a cursor over a buffer that ends with a NUL, and a line
    counter (src/botlib/l_script.c:277-1023, 1547-1583). */
module Scripts {
  import opened Options
  import opened Tokens
  import opened Punctuations
  import opened Lexer

  /** Punctuations a script can be read with: none holds a newline or a NUL. */
  ghost predicate Readable(ps: seq<Punctuation>) {
    && Usable(ps)
    && forall i :: 0 <= i < |ps| ==> OnOneLine(ps[i].p)
  }

  ghost predicate OnOneLine(text: string) { forall k :: 0 <= k < |text| ==> text[k] != '\n' && text[k] != NUL }

  class LoadedScript {
    const buffer: string
    const flags: Flags
    const punctuationtable: array<Punctuation?>
    ghost const punctuations: seq<Punctuation>
    var script_p: nat
    var line: nat
    var lastscript_p: nat
    var lastline: nat

    /** The cursor is in the buffer, and the line is one more than the newlines
        before it. */
    ghost predicate Valid()
      reads this
    {
      && Buffer(buffer) && Readable(punctuations)
      && script_p < |buffer| && line == 1 + Newlines(buffer, script_p)
    }

    ghost predicate TableReady()
      reads punctuationtable, set c, x | 0 <= c < TABLE_SIZE && x in Bucket(punctuations, c) :: x
    {
      && punctuationtable.Length == TABLE_SIZE
      && forall c :: 0 <= c < TABLE_SIZE ==> Chain(punctuationtable[c], Bucket(punctuations, c))
    }

    /** LoadScriptMemory. */
    constructor (text: string, flags: Flags, punctuations: seq<Punctuation>)
      requires forall i :: 0 <= i < |text| ==> text[i] < '\U{0080}'
      requires Readable(punctuations) && forall i, j :: 0 <= i < j < |punctuations| ==>
           punctuations[i] != punctuations[j]
      modifies set x | x in punctuations
      ensures Valid() && TableReady() && fresh(punctuationtable)
      ensures buffer == text + [NUL] && script_p == 0 && line == 1 && this.flags == flags
      ensures this.punctuations == punctuations
    {
      this.buffer, this.flags, this.punctuations := text + [NUL], flags, punctuations;
      var table := new Punctuation?[TABLE_SIZE](_ => null);
      this.punctuationtable := table;
      this.script_p, this.line, this.lastscript_p, this.lastline := 0, 1, 0, 1;
      new;
      CreatePunctuationTable(punctuationtable, punctuations);
    }

    /** PS_ReadWhiteSpace. */
    method ReadWhiteSpace() returns (ok: bool)
      requires Valid()
      modifies this`script_p, this`line
      ensures Valid() && script_p == White(buffer, old(script_p)) && ok == (buffer[script_p] != NUL)
    {
      hide White, Readable, LineEnd, CommentEnd, SkipOne;
      while true
        invariant Valid() && White(buffer, script_p) == White(buffer, old(script_p))
        decreases |buffer| - script_p
      {
        while buffer[script_p] <= ' '
          invariant Valid() && White(buffer, script_p) == White(buffer, old(script_p))
          decreases |buffer| - script_p
        {
          WhiteUnfolds(buffer, script_p);
          if buffer[script_p] == NUL { return false; }
          if buffer[script_p] == '\n' { line := line + 1; }
          script_p := script_p + 1;
        }
        WhiteUnfolds(buffer, script_p);
        if buffer[script_p] == '/' && buffer[script_p + 1] == '/' {
          ok := SkipLineComment();
          WhiteUnfolds(buffer, script_p);
          if !ok { return; }
        } else if buffer[script_p] == '/' && buffer[script_p + 1] == '*' {
          ok := SkipComment();
          WhiteUnfolds(buffer, script_p);
          if !ok { return; }
        } else {
          return true;
        }
      }
    }

    method SkipLineComment() returns (ok: bool)
      requires Valid() && buffer[script_p] == '/' && buffer[script_p + 1] == '/'
      modifies this`script_p, this`line
      ensures Valid() && script_p == SkipOne(buffer, old(script_p)) && old(script_p) < script_p
      ensures ok == (buffer[script_p] != NUL)
    {
      hide Readable, Buffer;
      ghost var start := script_p + 2;
      BeforeNul(buffer, script_p);
      BeforeNul(buffer, script_p + 1);
      assert Newlines(buffer, script_p + 1) == Newlines(buffer, script_p);
      script_p := script_p + 2;
      while buffer[script_p] != '\n'
        invariant Valid() && start <= script_p && LineEnd(buffer, script_p) == LineEnd(buffer, start)
        decreases |buffer| - script_p
      {
        if buffer[script_p] == NUL { return false; }
        BeforeNul(buffer, script_p);
        script_p := script_p + 1;
      }
      BeforeNul(buffer, script_p);
      line := line + 1;
      script_p := script_p + 1;
      ok := buffer[script_p] != NUL;
    }

    method SkipComment() returns (ok: bool)
      requires Valid() && buffer[script_p] == '/' && buffer[script_p + 1] == '*'
      modifies this`script_p, this`line
      ensures Valid() && script_p == SkipOne(buffer, old(script_p)) && old(script_p) < script_p
      ensures ok == (buffer[script_p] != NUL)
    {
      hide Readable, Buffer, Newlines, CommentEnd, SkipOne;
      ghost var start := script_p + 2;
      BeforeNul(buffer, script_p);
      BeforeNul(buffer, script_p + 1);
      SkipsComment(buffer, script_p);
      NewlinesNext(buffer, script_p);
      NewlinesNext(buffer, script_p + 1);
      script_p := script_p + 2;
      while !(buffer[script_p] == '*' && buffer[script_p + 1] == '/')
        invariant Valid() && start <= script_p && CommentEnd(buffer, script_p) == CommentEnd(buffer, start)
        decreases |buffer| - script_p
      {
        CommentEndUnfolds(buffer, script_p);
        if buffer[script_p] == NUL { return false; }
        if buffer[script_p] == '\n' { line := line + 1; }
        BeforeNul(buffer, script_p);
        NewlinesNext(buffer, script_p);
        script_p := script_p + 1;
      }
      CommentEndUnfolds(buffer, script_p);
      BeforeNul(buffer, script_p);
      NewlinesNext(buffer, script_p);
      script_p := script_p + 1;
      BeforeNul(buffer, script_p);
      NewlinesNext(buffer, script_p);
      script_p := script_p + 1;
      ok := buffer[script_p] != NUL;
    }

    /** The digits of an escape. */
    method ReadDigits(base: nat) returns (val: nat)
      requires Valid() && (base == 16 || base == 10)
      modifies this`script_p
      ensures Valid() && (val, script_p) == DigitRun(buffer, old(script_p), base, 0)
    {
      hide Readable;
      ghost var start := script_p;
      val := 0;
      while true
        invariant script_p < |buffer| && start <= script_p && SameLine(buffer, start, script_p)
        invariant DigitRun(buffer, script_p, base, val) == DigitRun(buffer, start, base, 0)
        decreases |buffer| - script_p
      {
        var d := if base == 16 then HexDigit(buffer[script_p]) else DecimalDigit(buffer[script_p]);
        if d.None? { break; }
        val := val * base + d.value;
        script_p := script_p + 1;
      }
      SameLineCounts(buffer, start, script_p);
    }

    /** PS_ReadEscapeCharacter. */
    method ReadEscapeCharacter() returns (ch: char)
      requires Valid() && buffer[script_p] == '\\'
      modifies this`script_p
      ensures Valid() && (ch, script_p) == Escape(buffer, old(script_p))
    {
      hide Readable, DigitRun, SimpleEscape;
      assert Newlines(buffer, script_p + 1) == Newlines(buffer, script_p);
      script_p := script_p + 1;
      var c := buffer[script_p];
      SimpleIsLetter(c);
      assert c != '\n' && c != NUL ==>
          script_p + 1 < |buffer| && Newlines(buffer, script_p + 1) == Newlines(buffer, script_p);
      if SimpleEscape(c).Some? {
        ch := SimpleEscape(c).value;
        script_p := script_p + 1;
      } else if c == 'x' {
        script_p := script_p + 1;
        var val := ReadDigits(16);
        ch := AtMostFF(val);
      } else {
        var val := ReadDigits(10);
        ch := AtMostFF(val);
      }
    }

    /** Over white space to a further string, and past its quote; without one the
        cursor stays where it is. */
    method ReadNextQuote(quote: char) returns (more: bool)
      requires Valid() && (quote == '"' || quote == '\'')
      modifies this`script_p, this`line
      ensures Valid()
      ensures var q := White(buffer, old(script_p));
              more == (buffer[q] == quote) && script_p == if more then q + 1 else old(script_p)
    {
      hide Readable, White, Newlines;
      var (tmpscript_p, tmpline) := (script_p, line);
      more := ReadWhiteSpace();
      if !more {
        script_p, line := tmpscript_p, tmpline;
        return;
      }
      if buffer[script_p] != quote {
        script_p, line := tmpscript_p, tmpline;
        more := false;
        return;
      }
      NewlinesNext(buffer, script_p);
      script_p := script_p + 1;
    }

    /** PS_ReadString. */
    method ReadString(quote: char) returns (ok: bool, text: string)
      requires Valid() && buffer[script_p] == quote && (quote == '"' || quote == '\'')
      modifies this`script_p, this`line
      ensures Valid() && Reading(ok, text, script_p) == StringAt(buffer, old(script_p), flags)
    {
      hide Readable, Escape, White, Newlines, StringRest;
      ghost var start := script_p;
      text := [quote];
      NewlinesNext(buffer, script_p);
      script_p := script_p + 1;
      while true
        invariant Valid()
        invariant StringRest(buffer, script_p, quote, text, flags)
             == StringRest(buffer, start + 1, quote, [quote], flags)
        decreases |buffer| - script_p
      {
        StringRestUnfolds(buffer, script_p, quote, text, flags);
        if |text| >= MAX_TOKEN - 2 { return false, text; }
        if buffer[script_p] == '\\' && !flags.noEscapes {
          var ch := ReadEscapeCharacter();
          text := text + [ch];
        } else if buffer[script_p] == quote {
          NewlinesNext(buffer, script_p);
          script_p := script_p + 1;
          if flags.noWhiteSpaces { break; }
          var more := ReadNextQuote(quote);
          if !more { break; }
        } else {
          if buffer[script_p] == NUL { return false, text; }
          if buffer[script_p] == '\n' { return false, text; }
          NewlinesNext(buffer, script_p);
          text := text + [buffer[script_p]];
          script_p := script_p + 1;
        }
      }
      text := text + [quote];
      ok := true;
    }

    /** Characters of one kind, stored behind the one at `start`. */
    method ReadRun(kind: char -> bool, start: nat, limit: nat) returns (text: string)
      requires Valid() && start <= script_p <= start + limit && !kind(NUL) && !kind('\n')
      modifies this`script_p
      ensures Valid() && script_p == RunEnd(buffer, old(script_p), kind, start + limit)
      ensures text == buffer[start..script_p]
    {
      hide Readable;
      ghost var first := script_p;
      text := buffer[start..script_p];
      while |text| < limit && kind(buffer[script_p])
        invariant script_p < |buffer| && first <= script_p && |text| <= limit && text == buffer[start..script_p]
        invariant RunEnd(buffer, script_p, kind, start + limit) == RunEnd(buffer, first, kind, start + limit)
        invariant SameLine(buffer, first, script_p)
        decreases |buffer| - script_p
      {
        text := text + [buffer[script_p]];
        script_p := script_p + 1;
      }
      SameLineCounts(buffer, first, script_p);
    }

    /** PS_ReadName. */
    method ReadName() returns (ok: bool, text: string)
      requires Valid() && IsNameStart(buffer[script_p])
      modifies this`script_p
      ensures Valid() && Reading(ok, text, script_p) == NameAt(buffer, old(script_p))
    {
      text := ReadRun(IsNameChar, script_p, MAX_TOKEN);
      ok := |text| < MAX_TOKEN;
    }

    /** The two characters of a prefix, and the digits behind it. */
    method ReadPrefixed(kind: char -> bool) returns (text: string)
      requires Valid() && buffer[script_p] == '0' && 'B' <= buffer[script_p + 1] && !kind(NUL) && !kind('\n')
      modifies this`script_p
      ensures Valid() && script_p == RunEnd(buffer, old(script_p) + 2, kind, old(script_p) + MAX_TOKEN)
      ensures text == buffer[old(script_p)..script_p]
    {
      hide Readable, RunEnd;
      var start := script_p;
      BeforeNul(buffer, script_p);
      BeforeNul(buffer, script_p + 1);
      SameLineCounts(buffer, script_p, script_p + 2);
      script_p := script_p + 2;
      text := ReadRun(kind, start, MAX_TOKEN);
    }

    /** PS_ReadNumber, up to the suffixes. */
    method ReadDigitText() returns (ok: bool, text: string, kind: NumberKind)
      requires Valid() && IsNumberChar(buffer[script_p])
      modifies this`script_p
      ensures Valid() && Number(ok, text, kind, script_p) == DigitsAt(buffer, old(script_p))
    {
      hide Readable, RunEnd, Newlines, Buffer;
      BeforeNul(buffer, script_p);
      var (c, d) := (buffer[script_p], buffer[script_p + 1]);
      if c == '0' && (d == 'x' || d == 'X') {
        text := ReadPrefixed(IsHexChar);
        ok, kind := |text| < MAX_TOKEN, Hex;
      } else if c == '0' && (d == 'b' || d == 'B') {
        text := ReadPrefixed(IsBinaryChar);
        ok, kind := |text| < MAX_TOKEN, Binary;
      } else {
        var octal, dot: bool;
        text, octal, dot := ReadDecimal();
        ok, kind := |text| < MAX_TOKEN - 1, Plain(octal, dot);
      }
    }

    /** The loop over a decimal, octal or floating point number. */
    method ReadDecimal() returns (text: string, octal: bool, dot: bool)
      requires Valid()
      modifies this`script_p
      ensures Valid() && script_p == RunEnd(buffer, old(script_p), IsNumberChar, old(script_p) + MAX_TOKEN - 1)
      ensures text == buffer[old(script_p)..script_p]
      ensures octal == IsOctal(buffer[old(script_p)], text) && dot == ('.' in text)
    {
      hide Readable, IsOctal, Newlines, RunEnd, Buffer;
      ghost var (first, most) := (script_p, script_p + MAX_TOKEN - 1);
      octal, dot, text := buffer[script_p] == '0', false, "";
      NothingOctal(buffer[script_p]);
      while |text| < MAX_TOKEN - 1
        invariant script_p < |buffer| && first <= script_p <= most && text == buffer[first..script_p]
        invariant octal == IsOctal(buffer[first], text) && dot == ('.' in text)
        invariant RunEnd(buffer, script_p, IsNumberChar, most) == RunEnd(buffer, first, IsNumberChar, most)
        invariant SameLine(buffer, first, script_p)
        decreases |buffer| - script_p
      {
        var c := buffer[script_p];
        RunUnfolds(buffer, script_p, IsNumberChar, most);
        IsOctalGrows(buffer[first], text, c);
        if c == '.' {
          dot := true;
        } else if c == '8' || c == '9' {
          octal := false;
        } else if c < '0' || c > '9' {
          break;
        }
        text := text + [c];
        script_p := script_p + 1;
      }
      RunUnfolds(buffer, script_p, IsNumberChar, most);
      SameLineCounts(buffer, first, script_p);
    }

    /** The suffixes of a number. */
    method ReadSuffixes(float: bool) returns (long: bool, unsigned: bool)
      requires Valid()
      modifies this`script_p
      ensures Valid() && (long, unsigned, script_p) == Suffix(buffer, old(script_p), float, false, false, 2)
    {
      hide Readable;
      ghost var first := script_p;
      long, unsigned := false, false;
      var i := 0;
      while i < 2
        invariant 0 <= i <= 2 && first <= script_p < |buffer| && SameLine(buffer, first, script_p)
        invariant Suffix(buffer, script_p, float, long, unsigned, 2 - i)
             == Suffix(buffer, first, float, false, false, 2)
      {
        var c := buffer[script_p];
        if (c == 'l' || c == 'L') && !long {
          script_p := script_p + 1;
          long := true;
        } else if (c == 'u' || c == 'U') && !unsigned && !float {
          script_p := script_p + 1;
          unsigned := true;
        }
        i := i + 1;
      }
      SameLineCounts(buffer, first, script_p);
    }

    /** PS_ReadPunctuation. */
    method ReadPunctuation() returns (punc: Option<Punctuation>)
      requires Valid() && TableReady()
      modifies this`script_p
      ensures Valid() && punc == PunctuationAt(punctuations, buffer, old(script_p))
      ensures script_p == old(script_p) + if punc.Some? then |punc.value.p| else 0
    {
      hide Bucket, Newlines;
      var c := buffer[script_p] as int;
      ghost var (nodes, k) := (Bucket(punctuations, c), 0);
      var node := punctuationtable[c];
      while node != null
        invariant k <= |nodes| && node == NodeAt(nodes, k)
        invariant FirstMatch(nodes[k..], buffer, script_p) == FirstMatch(nodes, buffer, script_p)
        decreases |nodes| - k
      {
        assert LinkedOn(nodes, k) && nodes[k..][1..] == nodes[k + 1..];
        if script_p + |node.p| < |buffer| && buffer[script_p..script_p + |node.p|] == node.p {
          punc := Some(node);
          LongestMatch(punctuations, buffer, script_p);
          MatchOnLine(punctuations, node, buffer, script_p);
          script_p := script_p + |node.p|;
          return;
        }
        node := node.next;
        k := k + 1;
      }
      punc := None;
    }

    /** PS_ReadToken. A successful call moves the cursor forward; the token says how
        many newlines were skipped in front of it. Whatever happens, the cursor stays
        in the buffer and the line counter right. */
    method ReadToken() returns (token: Option<Token>)
      requires Valid() && TableReady()
      modifies this`script_p, this`line, this`lastscript_p, this`lastline
      ensures Valid() && TableReady() && lastscript_p == old(script_p) && lastline == old(line)
      ensures Lexed(token, script_p) == LexAt(punctuations, buffer, old(script_p), flags)
      ensures token.Some? ==> old(script_p) < script_p
      ensures token.Some? ==> token.value.linescrossed
                              == Newlines(buffer, White(buffer, old(script_p))) - Newlines(buffer, old(script_p))
    {
      hide Readable, White, StringAt, NameAt, DigitsAt, Suffix, ValueOf, PunctuationAt, Newlines;
      lastscript_p, lastline := script_p, line;
      var more := ReadWhiteSpace();
      TableStays();
      if !more { return None; }
      NewlinesGrow(buffer, lastscript_p, script_p);
      var (whitespace, linescrossed: nat) := (lastscript_p < script_p, line - lastline);
      token := ReadTokenHere(linescrossed, whitespace);
      TableStays();
    }

    /** Reading leaves the table as it is. */
    twostate lemma TableStays()
      requires old(TableReady())
      requires unchanged(punctuationtable) && forall x <- punctuations :: unchanged(x)
      ensures TableReady()
    {
      forall c | 0 <= c < TABLE_SIZE ensures Chain(punctuationtable[c], Bucket(punctuations, c)) {
        BucketMembers(punctuations, c);
        assert old(Chain(punctuationtable[c], Bucket(punctuations, c)));
      }
    }

    method ReadTokenHere(linescrossed: nat, whitespace: bool) returns (token: Option<Token>)
      requires Valid() && TableReady() && buffer[script_p] != NUL
      modifies this`script_p, this`line
      ensures Valid()
      ensures Lexed(token, script_p) == TokenAt(punctuations, buffer, old(script_p), flags, linescrossed, whitespace)
      ensures token.Some? ==> token.value.linescrossed == linescrossed
    {
      hide Readable, White, StringAt, NameAt, DigitsAt, Suffix, ValueOf, PunctuationAt, Newlines, Chain, Bucket;
      BeforeNul(buffer, script_p);
      var c := buffer[script_p];
      if c == '"' || c == '\'' {
        var ok, text := ReadString(c);
        if !ok { return None; }
        return Some(Token(text, if c == '"' then TT_STRING else TT_LITERAL, |text|, 0, 0.0, linescrossed, whitespace));
      } else if IsDigit(c) || (c == '.' && IsDigit(buffer[script_p + 1])) {
        token := ReadNumber(linescrossed, whitespace);
      } else if IsNameStart(c) {
        var ok, text := ReadName();
        if !ok { return None; }
        return Some(Token(text, TT_NAME, |text|, 0, 0.0, linescrossed, whitespace));
      } else {
        var punc := ReadPunctuation();
        if punc.None? { return None; }
        return Some(Token(punc.value.p, TT_PUNCTUATION, punc.value.n, 0, 0.0, linescrossed, whitespace));
      }
    }

    /** PS_ReadNumber. */
    method ReadNumber(linescrossed: nat, whitespace: bool) returns (token: Option<Token>)
      requires Valid() && buffer[script_p] != NUL
      requires IsDigit(buffer[script_p]) || (buffer[script_p] == '.' && IsDigit(buffer[script_p + 1]))
      modifies this`script_p
      ensures Valid()
      ensures Lexed(token, script_p) == TokenAt(punctuations, buffer, old(script_p), flags, linescrossed, whitespace)
      ensures token.Some? ==> token.value.linescrossed == linescrossed
    {
      hide Readable, DigitsAt, Suffix, ValueOf, Newlines;
      var ok, text, kind := ReadDigitText();
      if !ok { return None; }
      var long, unsigned := ReadSuffixes(IsFloat(kind));
      var intvalue, floatvalue := NumberValue(text, kind);
      var subtype := KindBits(kind);
      if long { subtype := subtype + TT_LONG; }
      if unsigned { subtype := subtype + TT_UNSIGNED; }
      if !IsFloat(kind) { subtype := subtype + TT_INTEGER; }
      token := Some(Token(text, TT_NUMBER, subtype, intvalue, floatvalue, linescrossed, whitespace));
    }
  }

  lemma BeforeNul(s: string, p: nat)
    requires Buffer(s) && p < |s| && s[p] != NUL
    ensures p + 1 < |s|
  {
  }

  lemma StringRestUnfolds(s: string, p: nat, quote: char, text: string, flags: Flags)
    requires Buffer(s) && p < |s| && (quote == '"' || quote == '\'')
    ensures |text| >= MAX_TOKEN - 2 ==> StringRest(s, p, quote, text, flags) == Reading(false, text, p)
    ensures |text| < MAX_TOKEN - 2 && s[p] == '\\' && !flags.noEscapes ==>
              StringRest(s, p, quote, text, flags)
                  == StringRest(s, Escape(s, p).1, quote, text + [Escape(s, p).0], flags)
    ensures |text| < MAX_TOKEN - 2 && s[p] == quote && (flags.noWhiteSpaces || s[White(s, p + 1)] != quote) ==>
              StringRest(s, p, quote, text, flags) == Reading(true, text + [quote], p + 1)
    ensures |text| < MAX_TOKEN - 2 && s[p] == quote && !flags.noWhiteSpaces && s[White(s, p + 1)] == quote ==>
              StringRest(s, p, quote, text, flags) == StringRest(s, White(s, p + 1) + 1, quote, text, flags)
    ensures |text| < MAX_TOKEN - 2 && !(s[p] == '\\' && !flags.noEscapes) && s[p] != quote ==>
              StringRest(s, p, quote, text, flags)
                == if s[p] == NUL || s[p] == '\n' then Reading(false, text, p)
                    else StringRest(s, p + 1, quote, text + [s[p]], flags)
  {
    hide Escape, White;
  }

  lemma NewlinesNext(s: string, p: nat)
    requires p < |s|
    ensures Newlines(s, p + 1) == Newlines(s, p) + if s[p] == '\n' then 1 else 0
  {
  }

  lemma SkipsComment(s: string, p: nat)
    requires Buffer(s) && p + 2 < |s| && s[p] == '/' && s[p + 1] == '*'
    ensures SkipOne(s, p) == var e := CommentEnd(s, p + 2); if s[e] == NUL then e else e + 2
  {
  }

  lemma CommentEndUnfolds(s: string, p: nat)
    requires Buffer(s) && p < |s|
    ensures CommentEnd(s, p) == if s[p] == NUL || (s[p] == '*' && s[p + 1] == '/') then p else CommentEnd(s, p + 1)
  {
  }

  lemma WhiteUnfolds(s: string, p: nat)
    requires Buffer(s) && p < |s|
    ensures White(s, p) == if SkipOne(s, p) == p then p else White(s, SkipOne(s, p))
    ensures s[p] == NUL ==> SkipOne(s, p) == p
    ensures NUL != s[p] && s[p] <= ' ' ==> SkipOne(s, p) == p + 1
    ensures s[p] > ' ' && !(s[p] == '/' && (s[p + 1] == '/' || s[p + 1] == '*')) ==> SkipOne(s, p) == p
  {
  }

  lemma SimpleIsLetter(c: char)
    ensures SimpleEscape(c).Some? ==> c != '\n' && c != NUL
  {
  }

  /** A punctuation in the script holds no newline. */
  lemma MatchOnLine(ps: seq<Punctuation>, x: Punctuation, s: string, p: nat)
    requires Readable(ps) && x in ps && MatchesAt(s, p, x.p)
    ensures Newlines(s, p + |x.p|) == Newlines(s, p)
  {
    forall k | p <= k < p + |x.p| ensures s[k] != '\n' {
      assert s[p..p + |x.p|][k - p] == s[k];
    }
    SameLineCounts(s, p, p + |x.p|);
  }

  lemma NothingOctal(first: char)
    ensures IsOctal(first, "") == (first == '0')
  {
  }

  // ------------------------------------------------------------ NumberValue

  /** The loop of NumberValue over the digits of an integer. */
  method IntegerValue(digits: string, base: int) returns (intvalue: int)
    ensures intvalue == ValueFrom(0, digits, base)
  {
    intvalue := 0;
    var i := 0;
    while i < |digits|
      invariant 0 <= i <= |digits| && ValueFrom(intvalue, digits[i..], base) == ValueFrom(0, digits, base)
    {
      var c := digits[i];
      assert digits[i..][0] == c && digits[i..][1..] == digits[i + 1..];
      intvalue := intvalue * base;
      if base == 16 && 'a' <= c <= 'f' {
        intvalue := intvalue + (c as int - 'a' as int + 10);
      } else if base == 16 && 'A' <= c <= 'F' {
        intvalue := intvalue + (c as int - 'A' as int + 10);
      } else {
        intvalue := intvalue + (c as int - '0' as int);
      }
      i := i + 1;
    }
  }

  /** The loop over a floating point number, on reals. */
  method FloatValue(text: string) returns (floatvalue: real, stopped: bool)
    ensures floatvalue == FloatFrom(0.0, 0, text) && stopped == StopsAtDot(0, text)
  {
    floatvalue, stopped := 0.0, false;
    var (i, dotfound) := (0, 0);
    while i < |text|
      invariant 0 <= i <= |text| && FloatFrom(floatvalue, dotfound, text[i..]) == FloatFrom(0.0, 0, text)
      invariant !stopped && StopsAtDot(dotfound, text[i..]) == StopsAtDot(0, text)
    {
      ghost var rest := text[i..];
      assert rest[0] == text[i] && rest[1..] == text[i + 1..];
      if text[i] == '.' {
        if dotfound != 0 { return floatvalue, true; }
        dotfound := 10;
        i := i + 1;
      }
      var digit := ((if i < |text| then text[i] else NUL) as int - '0' as int) as real;
      if dotfound != 0 {
        floatvalue := floatvalue + digit / dotfound as real;
        dotfound := dotfound * 10;
      } else {
        floatvalue := floatvalue * 10.0 + digit;
      }
      if i == |text| { return; }
      assert rest != [] && (text[i..][1..] == text[i + 1..]);
      i := i + 1;
    }
  }

  method NumberValue(text: string, kind: NumberKind) returns (intvalue: int, floatvalue: real)
    ensures (intvalue, floatvalue) == ValueOf(text, kind)
  {
    hide ValueFrom, FloatFrom, StopsAtDot;
    if IsFloat(kind) {
      var stopped: bool;
      floatvalue, stopped := FloatValue(text);
      intvalue := if stopped then 0 else Truncate(floatvalue);
      return;
    }
    intvalue := 0;
    match kind {
      case Hex => if |text| >= 2 { intvalue := IntegerValue(text[2..], 16); }
      case Binary => if |text| >= 2 { intvalue := IntegerValue(text[2..], 2); }
      case Plain(octal, _) =>
        if !octal { intvalue := IntegerValue(text, 10); }
        else if text != "" { intvalue := IntegerValue(text[1..], 8); }
    }
    floatvalue := intvalue as real;
  }
}
