/** From a script's characters to the tokens the pre-compiler reads: what repeated
    PS_ReadToken calls deliver until one fails (src/botlib/l_script.c:941-1023,
    src/botlib/l_precomp.c:208-250). */
module LexedFiles {
  import opened Tokens
  import opened Punctuations
  import opened Lexer
  import opened Precompiler
  import opened StringJoining
  import Scripts

  /** The tokens from `p` on; clean if the first failing call is at the end of the
      script, where EndOfScript holds. */
  function LexFrom(ps: seq<Punctuation>, s: string, p: nat, flags: Flags): File
    requires Buffer(s) && p < |s| && Usable(ps)
    decreases |s| - p
  {
    var r := LexAt(ps, s, p, flags);
    if r.token.None? then File([], r.next == |s| - 1)
    else
      var rest := LexFrom(ps, s, r.next, flags);
      File([r.token.value] + rest.toks, rest.clean)
  }

  /** Reading a script to its end, or to the first token that cannot be lexed. */
  method ReadScript(script: Scripts.LoadedScript) returns (file: File)
    requires script.Valid() && script.TableReady()
    modifies script`script_p, script`line, script`lastscript_p, script`lastline
    ensures script.Valid() && script.TableReady()
    ensures file == LexFrom(script.punctuations, script.buffer, old(script.script_p), script.flags)
  {
    hide LexAt, LexFrom;
    var toks: seq<Token> := [];
    while true
      invariant script.Valid() && script.TableReady() && old(script.script_p) <= script.script_p
      invariant var rest := LexFrom(script.punctuations, script.buffer, script.script_p, script.flags);
                LexFrom(script.punctuations, script.buffer, old(script.script_p), script.flags)
                    == File(toks + rest.toks, rest.clean)
      decreases |script.buffer| - script.script_p
    {
      LexUnfolds(script.punctuations, script.buffer, script.script_p, script.flags);
      var token := script.ReadToken();
      if token.None? { file := File(toks, script.script_p == |script.buffer| - 1); assert toks + [] == toks; return; }
      ghost var later := LexFrom(script.punctuations, script.buffer, script.script_p, script.flags).toks;
      assert toks + ([token.value] + later) == (toks + [token.value]) + later;
      toks := toks + [token.value];
    }
  }

  lemma LexUnfolds(ps: seq<Punctuation>, s: string, p: nat, flags: Flags)
    requires Buffer(s) && p < |s| && Usable(ps)
    ensures var r := LexAt(ps, s, p, flags);
            LexFrom(ps, s, p, flags)
              == if r.token.None? then File([], r.next == |s| - 1)
                 else File([r.token.value] + LexFrom(ps, s, r.next, flags).toks, LexFrom(ps, s, r.next, flags).clean)
  {
    hide LexAt;
  }

  lemma {:induction false} RestIsQuoted(s: string, p: nat, quote: char, text: string, flags: Flags)
    requires Buffer(s) && p < |s| && (quote == '"' || quote == '\'') && text != "" && text[0] == quote
    ensures var r := StringRest(s, p, quote, text, flags);
            r.ok ==> 2 <= |r.text| < MAX_TOKEN && r.text[0] == quote && r.text[|r.text| - 1] == quote
    decreases |s| - p
  {
    hide Escape, White;
    if |text| < MAX_TOKEN - 2 {
      if s[p] == '\\' && !flags.noEscapes {
        var (c, q) := Escape(s, p);
        RestIsQuoted(s, q, quote, text + [c], flags);
      } else if s[p] == quote {
        if !flags.noWhiteSpaces && s[White(s, p + 1)] == quote {
          RestIsQuoted(s, White(s, p + 1) + 1, quote, text, flags);
        }
      } else if s[p] != NUL && s[p] != '\n' {
        RestIsQuoted(s, p + 1, quote, text + [s[p]], flags);
      }
    }
  }

  /** A string token comes with both its quotes and fits a token. */
  lemma LexedIsQuoted(ps: seq<Punctuation>, s: string, p: nat, flags: Flags)
    requires Buffer(s) && p < |s| && Usable(ps) && LexAt(ps, s, p, flags).token.Some?
    ensures var t := LexAt(ps, s, p, flags).token.value;
            t.typ == TT_STRING ==> 2 <= |t.str| < MAX_TOKEN && t.str[0] == '"' && t.str[|t.str| - 1] == '"'
  {
    hide StringRest, DigitsAt, Suffix, NameAt, ValueOf, PunctuationAt, White;
    var q := White(s, p);
    if s[q] == '"' { RestIsQuoted(s, q + 1, '"', ['"'], flags); }
  }

  /** Whatever the characters, the tokens are no more than the characters, and all
      strings among them are fit for joining. */
  lemma {:induction false} LexedFile(ps: seq<Punctuation>, s: string, p: nat, flags: Flags)
    requires Buffer(s) && p < |s| && Usable(ps)
    ensures var f := LexFrom(ps, s, p, flags);
            |f.toks| < |s| - p && Quoted(f.toks) && forall t <- f.toks :: t.typ == TT_STRING ==> |t.str| < MAX_TOKEN
    decreases |s| - p
  {
    hide LexAt, Buffer;
    var r := LexAt(ps, s, p, flags);
    if r.token.Some? {
      LexedIsQuoted(ps, s, p, flags);
      LexedFile(ps, s, r.next, flags);
    }
  }
}
