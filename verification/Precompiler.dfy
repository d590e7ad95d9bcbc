/** The pre-compiler as a state machine over source states
    (src/botlib/l_precomp.c). Every function takes the state a call finds and
    returns the state it leaves, also when the call reports failure.

    A call that need not return, because macro expansion can go on for ever,
    carries a bound `fuel` on the length of its loops and the depth of its
    recursion; running out of it is `Stuck`, like the null pointers the
    expression evaluator can follow. */
module Precompiler {
  import opened Options
  import opened Tokens
  import Bits
  import opened Numerals
  import opened Macros
  import E = Evaluator


  /** A script is what is left to lex of one file; `clean` says that lexing it
      ends at the end of the file and not at a lexing error. */
  datatype Script = Script(id: nat, filename: string, toks: seq<Token>, clean: bool)

  datatype IndentType = INDENT_IF | INDENT_ELSE | INDENT_ELIF | INDENT_IFDEF | INDENT_IFNDEF

  datatype Indent = Indent(typ: IndentType, skip: bool, script: nat)

  datatype File = File(toks: seq<Token>, clean: bool)

  /** `tokens` are the tokens to read first; the head of `scripts` is the script
      being read and the head of `indents` the innermost conditional. */
  datatype Source = Source(
    tokens: seq<Token>,
    scripts: seq<Script>,
    defs: map<string, Define>,
    indents: seq<Indent>,
    skip: int,
    loaded: nat,
    files: map<string, File>,
    includepath: string)

  datatype Read = Got(token: Token, src: Source) | NotRead(src: Source) | ReadStuck
  datatype Done = Ok(src: Source) | Fail(src: Source) | Stuck

  /** A step of PC_ReadToken's loop: a token for the caller, another round, or
      the return of false. */
  datatype Step = Returns(token: Token, src: Source) | Continues(src: Source) | Stops(src: Source) | StepStuck

  ghost predicate Valid(s: Source) { s.scripts != [] }

  function Bit(skip: bool): int { if skip then 1 else 0 }

  function ScriptTokens(scripts: seq<Script>): nat {
    if scripts == [] then 0 else |scripts[0].toks| + ScriptTokens(scripts[1..])
  }

  /** How many tokens can still be read without expanding anything. */
  function Remaining(s: Source): nat { |s.tokens| + ScriptTokens(s.scripts) }

  // ----------------------------------------------------- indents and scripts

  function PushIndent(s: Source, typ: IndentType, skip: bool): (r: Source)
    requires Valid(s)
  {
    s.(indents := [Indent(typ, skip, s.scripts[0].id)] + s.indents, skip := s.skip + Bit(skip))
  }

  /** The innermost indent, if it belongs to the script being read. */
  function TopIndent(s: Source): Option<Indent>
    requires Valid(s)
  {
    if s.indents == [] || s.indents[0].script != s.scripts[0].id then None else Some(s.indents[0])
  }

  function PopIndent(s: Source): Source
    requires Valid(s)
  {
    if TopIndent(s).None? then s
    else s.(indents := s.indents[1..], skip := s.skip - Bit(s.indents[0].skip))
  }

  function DropIndents(s: Source): (r: Source)
    requires Valid(s)
    ensures r.scripts == s.scripts && r.tokens == s.tokens && r.defs == s.defs
    decreases |s.indents|
  {
    if TopIndent(s).None? then s else DropIndents(PopIndent(s))
  }

  function Fold(name: string): string {
    seq(|name|, i requires 0 <= i < |name| => if 'a' <= name[i] <= 'z' then (name[i] as int - 32) as char else name[i])
  }

  predicate OnStack(scripts: seq<Script>, filename: string) {
    exists i :: 0 <= i < |scripts| && Fold(scripts[i].filename) == Fold(filename)
  }

  function PushScript(s: Source, filename: string, file: File): Source {
    if OnStack(s.scripts, filename) then s
    else s.(scripts := [Script(s.loaded, filename, file.toks, file.clean)] + s.scripts, loaded := s.loaded + 1)
  }

  // ---------------------------------------------------------- source tokens

  function ReadSourceToken(s: Source): (r: Read)
    requires Valid(s)
    ensures r.Got? ==> Valid(r.src) && Remaining(r.src) == Remaining(s) - 1
    ensures r.NotRead? ==> Valid(r.src) && Remaining(r.src) == 0
    ensures !r.ReadStuck?
    decreases |s.scripts|
  {
    if s.tokens != [] then Got(s.tokens[0], s.(tokens := s.tokens[1..]))
    else
      var script := s.scripts[0];
      if script.toks != [] then
        var scripts' := [script.(toks := script.toks[1..])] + s.scripts[1..];
        assert scripts'[1..] == s.scripts[1..];
        Got(script.toks[0], s.(scripts := scripts'))
      else
        var s' := if script.clean then DropIndents(s) else s;
        assert |s.scripts| == 1 ==> ScriptTokens(s.scripts) == 0 + ScriptTokens([]) by {
          assert |s.scripts| == 1 ==> s.scripts[1..] == [];
        }
        if |s.scripts| == 1 then NotRead(s') else ReadSourceToken(s'.(scripts := s.scripts[1..]))
  }

  function UnreadSourceToken(s: Source, t: Token): Source { s.(tokens := [t] + s.tokens) }

  /** Read a token of the current line; a backslash continues on the next one. */
  function ReadLineFrom(s: Source, crossline: nat): (r: Read)
    requires Valid(s)
    ensures r.Got? ==> Valid(r.src) && Remaining(r.src) < Remaining(s)
    ensures r.NotRead? ==> Valid(r.src)
    ensures !r.ReadStuck?
    decreases Remaining(s)
  {
    match ReadSourceToken(s)
    case Got(t, s') =>
      if t.linescrossed > crossline then NotRead(UnreadSourceToken(s', t))
      else if t.str == "\\" then ReadLineFrom(s', 1)
      else Got(t, s')
    case NotRead(s') => NotRead(s')
  }

  function ReadLine(s: Source): (r: Read)
    requires Valid(s)
    ensures r.Got? ==> Valid(r.src) && Remaining(r.src) < Remaining(s)
    ensures r.NotRead? ==> Valid(r.src)
    ensures !r.ReadStuck?
  {
    ReadLineFrom(s, 0)
  }

  // -------------------------------------------------------- macro expansion

  /** The arguments of a call read so far: `args[k]` is the one being read. */
  datatype Arguments = Arguments(args: seq<seq<Token>>, src: Source) | NoArguments(src: Source) | ArgumentsStuck

  function AppendTo(args: seq<seq<Token>>, k: nat, t: Token): (r: seq<seq<Token>>)
    requires k < |args|
    ensures |r| == |args|
  {
    args[k := args[k] + [t]]
  }

  function ReadArguments(s: Source, args: seq<seq<Token>>, k: nat, depth: nat, fuel: nat): (r: Arguments)
    requires Valid(s) && k < |args| && depth > 0
    ensures r.Arguments? ==> |r.args| == |args| && Valid(r.src)
    ensures r.NoArguments? ==> Valid(r.src)
    decreases fuel, 1
  {
    if fuel == 0 then ArgumentsStuck
    else
      match ReadSourceToken(s)
      case NotRead(s') => NoArguments(s')
      case Got(t, s') =>
        if t.str == "," && depth <= 1 then
          if k + 1 < |args| then ReadArguments(s', args, k + 1, depth, fuel - 1) else NoArguments(s')
        else if t.str == "(" then ReadArguments(s', AppendTo(args, k, t), k, depth + 1, fuel - 1)
        else if t.str == ")" then
          if depth == 1 then Arguments(args, s') else ReadArguments(s', AppendTo(args, k, t), k, depth - 1, fuel - 1)
        else if t.typ == TT_NAME && t.str in s'.defs then
          match ExpandDefineIntoSource(s', s'.defs[t.str], fuel - 1)
          case Ok(s'') => ReadArguments(s'', args, k, depth, fuel - 1)
          case Fail(s'') => NoArguments(s'')
          case Stuck => ArgumentsStuck
        else ReadArguments(s', AppendTo(args, k, t), k, depth, fuel - 1)
  }

  /** PC_ReadDefineParms for a define with `n` > 0 parameters. */
  function ReadDefineParms(s: Source, n: nat, fuel: nat): (r: Arguments)
    requires Valid(s) && n > 0
    ensures r.Arguments? ==> |r.args| == n && Valid(r.src)
    ensures r.NoArguments? ==> Valid(r.src)
    decreases fuel, 2
  {
    match ReadSourceToken(s)
    case NotRead(s') => NoArguments(s')
    case Got(t, s') =>
      if n > MAX_DEFINEPARMS then NoArguments(s')
      else if t.str != "(" then NoArguments(UnreadSourceToken(s', t))
      else ReadArguments(s', seq(n, _ => []), 0, 1, fuel)
  }

  /** Splice a non-empty expansion in front of the tokens to read first. */
  function Splice(s: Source, expansion: Option<seq<Token>>): (r: Done)
    ensures !r.Stuck?
    ensures Valid(s) ==> Valid(r.src)
  {
    if expansion.None? || expansion.value == [] then Fail(s) else Ok(s.(tokens := expansion.value + s.tokens))
  }

  function ExpandDefineIntoSource(s: Source, d: Define, fuel: nat): (r: Done)
    requires Valid(s)
    ensures !r.Stuck? ==> Valid(r.src)
    decreases fuel, 3
  {
    if d.parms == [] then Splice(s, MergePass(Substitute(d.body, [], [])))
    else
      match ReadDefineParms(s, |d.parms|, fuel)
      case Arguments(args, s') => Splice(s', MergePass(Substitute(d.body, d.parms, args)))
      case NoArguments(s') => Fail(s')
      case ArgumentsStuck => Stuck
  }

  // ------------------------------------------------------------- evaluation

  datatype Evaluation = Value(intvalue: int, floatvalue: real, src: Source) | NoValue(src: Source) | EvaluationStuck

  function EvaluateList(s: Source, toks: seq<Token>, integer: bool): (r: Evaluation)
    ensures r.Value? ==> r.src == s
    ensures r.NoValue? ==> r.src == s
  {
    match E.Evaluate(s.defs.Keys, toks, integer)
    case Success(i, f) => Value(i, f, s)
    case Failure => NoValue(s)
    case Crash => EvaluationStuck
  }

  /** PC_Evaluate from the point where token `t` of the line has been read.
      `defined` says that the token before it was `defined`. */
  function CollectLine(s: Source, t: Token, acc: seq<Token>, defined: bool, integer: bool, fuel: nat): (r: Evaluation)
    requires Valid(s)
    ensures !r.EvaluationStuck? ==> Valid(r.src)
    decreases fuel, 1
  {
    if t.typ == TT_NAME && !defined && t.str != "defined" then
      if t.str !in s.defs then NoValue(s)
      else
        match ExpandDefineIntoSource(s, s.defs[t.str], fuel)
        case Ok(s') => CollectNext(s', acc, defined, integer, fuel)
        case Fail(s') => NoValue(s')
        case Stuck => EvaluationStuck
    else if t.typ == TT_STRING || t.typ == TT_LITERAL then NoValue(s)
    else CollectNext(s, acc + [t], if t.typ == TT_NAME then !defined else defined, integer, fuel)
  }

  function CollectNext(s: Source, acc: seq<Token>, defined: bool, integer: bool, fuel: nat): (r: Evaluation)
    requires Valid(s)
    ensures !r.EvaluationStuck? ==> Valid(r.src)
    decreases fuel, 0
  {
    match ReadLine(s)
    case NotRead(s') => EvaluateList(s', acc, integer)
    case Got(t, s') => if fuel == 0 then EvaluationStuck else CollectLine(s', t, acc, defined, integer, fuel - 1)
  }

  function EvaluateLine(s: Source, integer: bool, fuel: nat): (r: Evaluation)
    requires Valid(s)
    ensures !r.EvaluationStuck? ==> Valid(r.src)
  {
    match ReadLine(s)
    case NotRead(s') => NoValue(s')
    case Got(t, s') => CollectLine(s', t, [], false, integer, fuel)
  }

  /** PC_DollarEvaluate from the point where token `t` has been read, inside
      `depth` open parentheses. */
  function CollectDollar(s: Source, t: Token, acc: seq<Token>, defined: bool, depth: int, integer: bool,
          fuel: nat): (r: Evaluation)
    requires Valid(s)
    ensures !r.EvaluationStuck? ==> Valid(r.src)
    decreases fuel, 1
  {
    if t.typ == TT_NAME then
      if defined || t.str == "defined" then CollectDollarNext(s, acc + [t], !defined, depth, integer, fuel)
      else if t.str !in s.defs then NoValue(s)
      else
        match ExpandDefineIntoSource(s, s.defs[t.str], fuel)
        case Ok(s') => CollectDollarNext(s', acc, defined, depth, integer, fuel)
        case Fail(s') => NoValue(s')
        case Stuck => EvaluationStuck
    else if t.typ == TT_STRING || t.typ == TT_LITERAL then NoValue(s)
    else
      var depth' := if t.str != "" && t.str[0] == '(' then depth + 1
          else if t.str != "" && t.str[0] == ')' then depth - 1 else depth;
      if depth' <= 0 then EvaluateList(s, acc, integer)
      else CollectDollarNext(s, acc + [t], defined, depth', integer, fuel)
  }

  function CollectDollarNext(s: Source, acc: seq<Token>, defined: bool, depth: int, integer: bool,
          fuel: nat): (r: Evaluation)
    requires Valid(s)
    ensures !r.EvaluationStuck? ==> Valid(r.src)
    decreases fuel, 0
  {
    match ReadSourceToken(s)
    case NotRead(s') => EvaluateList(s', acc, integer)
    case Got(t, s') =>
      if fuel == 0 then EvaluationStuck else CollectDollar(s', t, acc, defined, depth, integer, fuel - 1)
  }

  /** The first token is taken for the opening parenthesis without a look. */
  function DollarEvaluate(s: Source, integer: bool, fuel: nat): (r: Evaluation)
    requires Valid(s)
    ensures !r.EvaluationStuck? ==> Valid(r.src)
  {
    match ReadSourceToken(s)
    case NotRead(s') => NoValue(s')
    case Got(_, s') =>
      match ReadSourceToken(s')
      case NotRead(s'') => NoValue(s'')
      case Got(t, s'') => CollectDollar(s'', t, [], false, 1, integer, fuel)
  }

  function SignToken(): Token { Token("-", TT_PUNCTUATION, P_SUB, 0, 0.0, 0, false) }

  /** The number an evaluation puts back into the source, and its sign. */
  function UnreadNumber(s: Source, t: Token, negative: bool): Source {
    var s' := UnreadSourceToken(s, t);
    if negative then UnreadSourceToken(s', SignToken()) else s'
  }

  function IntegerToken(v: int): Token {
    Token(Decimal(Bits.Abs(v)), TT_NUMBER, TT_INTEGER + TT_LONG + TT_DECIMAL, v, v as real, 0, false)
  }

  function FloatToken(f: real): Token {
    Token(FixedPoint(f), TT_NUMBER, TT_FLOAT + TT_LONG + TT_DECIMAL, if f < 0.0 then -(-f).Floor else f.Floor, f, 0,
        false)
  }

  function PutBack(e: Evaluation, integer: bool): (r: Done)
    requires !e.EvaluationStuck? ==> Valid(e.src)
    ensures !r.Stuck? ==> Valid(r.src)
  {
    match e
    case Value(i, f, s) =>
      Ok(if integer then UnreadNumber(s, IntegerToken(i), i < 0) else UnreadNumber(s, FloatToken(f), f < 0.0))
    case NoValue(s) => Fail(s)
    case EvaluationStuck => Stuck
  }

  // --------------------------------------------------------- the directives

  function DirectiveIfdef(s: Source, typ: IndentType): (r: Done)
    requires Valid(s)
    ensures !r.Stuck? && Valid(r.src)
  {
    match ReadLine(s)
    case NotRead(s') => Fail(s')
    case Got(t, s') =>
      if t.typ != TT_NAME then Fail(UnreadSourceToken(s', t))
      else Ok(PushIndent(s', typ, (typ == INDENT_IFDEF) == (t.str !in s'.defs)))
  }

  function DirectiveElse(s: Source): (r: Done)
    requires Valid(s)
    ensures !r.Stuck? && Valid(r.src)
  {
    var top := TopIndent(s);
    var s' := PopIndent(s);
    if top.None? || top.value.typ == INDENT_ELSE then Fail(s') else Ok(PushIndent(s', INDENT_ELSE, !top.value.skip))
  }

  function DirectiveEndif(s: Source): (r: Done)
    requires Valid(s)
    ensures !r.Stuck? && Valid(r.src)
  {
    if TopIndent(s).None? then Fail(s) else Ok(PopIndent(s))
  }

  function PushCondition(e: Evaluation, typ: IndentType): (r: Done)
    requires !e.EvaluationStuck? ==> Valid(e.src)
    ensures !r.Stuck? ==> Valid(r.src)
  {
    match e
    case Value(i, _, s) => Ok(PushIndent(s, typ, i == 0))
    case NoValue(s) => Fail(s)
    case EvaluationStuck => Stuck
  }

  function DirectiveIf(s: Source, fuel: nat): (r: Done)
    requires Valid(s)
    ensures !r.Stuck? ==> Valid(r.src)
  {
    PushCondition(EvaluateLine(s, true, fuel), INDENT_IF)
  }

  function DirectiveElif(s: Source, fuel: nat): (r: Done)
    requires Valid(s)
    ensures !r.Stuck? ==> Valid(r.src)
  {
    var top := TopIndent(s);
    var s' := PopIndent(s);
    if top.None? || top.value.typ == INDENT_ELSE then Fail(s')
    else PushCondition(EvaluateLine(s', true, fuel), INDENT_ELIF)
  }

  /** The define of that name goes, unless it is fixed. */
  function Undefine(s: Source, name: string): Source {
    if name in s.defs && !s.defs[name].fixed then s.(defs := s.defs - {name}) else s
  }

  function DirectiveUndef(s: Source): (r: Done)
    requires Valid(s)
    ensures !r.Stuck? && Valid(r.src)
  {
    if s.skip > 0 then Ok(s)
    else
      match ReadLine(s)
      case NotRead(s') => Fail(s')
      case Got(t, s') => if t.typ != TT_NAME then Fail(UnreadSourceToken(s', t)) else Ok(Undefine(s', t.str))
  }

  function SetDefine(s: Source, d: Define): Source { s.(defs := s.defs[d.name := d]) }

  function ClearWhiteSpace(t: Token): Token { t.(whitespace := false, linescrossed := 0) }

  /** The rest of the line becomes the body, from token `t` on. The define's own
      name is left out. A ## may be neither first nor last. */
  function ReadBody(s: Source, d: Define, t: Token): (r: Done)
    requires Valid(s)
    ensures !r.Stuck? && Valid(r.src)
    decreases Remaining(s)
  {
    var d' := if t.typ == TT_NAME && t.str == d.name then d else d.(body := d.body + [ClearWhiteSpace(t)]);
    match ReadLine(s)
    case Got(u, s') => ReadBody(s', d', u)
    case NotRead(s') =>
      var s'' := SetDefine(s', d');
      if d'.body != [] && (d'.body[0].str == "##" || d'.body[|d'.body| - 1].str == "##") then Fail(s'') else Ok(s'')
  }

  /** The names between the parentheses, up to the closing one; None is an error. */
  function ReadParmNames(s: Source, d: Define): (r: (Option<Define>, Source))
    requires Valid(s)
    ensures Valid(r.1) && (r.0.Some? ==> r.0.value.name == d.name)
    decreases Remaining(s)
  {
    match ReadLine(s)
    case NotRead(s') => (None, SetDefine(s', d))
    case Got(t, s') =>
      if t.typ != TT_NAME || t.str in d.parms then (None, SetDefine(s', d))
      else
        var d' := d.(parms := d.parms + [t.str]);
        match ReadLine(s')
        case NotRead(s'') => (None, SetDefine(s'', d'))
        case Got(u, s'') =>
          if u.str == ")" then (Some(d'), s'')
          else if u.str != "," then (None, SetDefine(s'', d'))
          else ReadParmNames(s'', d')
  }

  /** PC_CheckTokenString: the next token is expanded like any other. */
  function CheckTokenString(s: Source, str: string, fuel: nat): (r: (Option<bool>, Source))
    requires Valid(s)
    ensures Valid(r.1)
    decreases fuel, 0
  {
    if fuel == 0 then (None, s)
    else
      match ReadToken(s, fuel - 1, fuel - 1)
      case ReadStuck => (None, s)
      case NotRead(s') => (Some(false), s')
      case Got(t, s') => if t.str == str then (Some(true), s') else (Some(false), UnreadSourceToken(s', t))
  }

  /** #define from the point where the name is in the table, without a body. */
  function DefineTail(s: Source, d: Define, fuel: nat): (r: Done)
    requires Valid(s)
    ensures !r.Stuck? ==> Valid(r.src)
    decreases fuel, 1
  {
    match ReadLine(s)
    case NotRead(s1) => Ok(s1)
    case Got(u, s1) =>
      if u.whitespace || u.str != "(" then ReadBody(s1, d, u)
      else
        match CheckTokenString(s1, ")", fuel)
        case (None, _) => Stuck
        case (Some(empty), s2) =>
          var (d', s3) := if empty then (Some(d), s2) else ReadParmNames(s2, d);
          if d'.None? then Fail(s3)
          else
            match ReadLine(s3)
            case NotRead(s4) => Ok(SetDefine(s4, d'.value))
            case Got(v, s4) => ReadBody(SetDefine(s4, d'.value), d'.value, v)
  }

  function DirectiveDefine(s: Source, fuel: nat): (r: Done)
    requires Valid(s)
    ensures !r.Stuck? ==> Valid(r.src)
    decreases fuel, 2
  {
    if s.skip > 0 then Ok(s)
    else
      match ReadLine(s)
      case NotRead(s') => Fail(s')
      case Got(t, s') =>
        if t.typ != TT_NAME then Fail(UnreadSourceToken(s', t))
        else if t.str in s'.defs && s'.defs[t.str].fixed then Fail(s')
        else
          var undefined := if t.str in s'.defs then DirectiveUndef(UnreadSourceToken(s', t)) else Ok(s');
          if undefined.Fail? then undefined else
          var d := Define(t.str, [], [], false);
          DefineTail(SetDefine(undefined.src, d), d, fuel)
  }

  // ---------------------------------------------------------------- include

  predicate IsSeparator(c: char) { c == '\\' || c == '/' }

  /** Doubled path separators become one, and all become the system's. */
  function ConvertPath(path: string): string {
    if path == "" then ""
    else if IsSeparator(path[0]) && |path| > 1 && IsSeparator(path[1]) then ConvertPath(path[1..])
    else [if IsSeparator(path[0]) then '/' else path[0]] + ConvertPath(path[1..])
  }

  function StripDoubleQuotes(str: string): string {
    var s := if str != "" && str[0] == '"' then str[1..] else str;
    if s != "" && s[|s| - 1] == '"' then s[..|s| - 1] else s
  }

  /** The spellings up to > or the end of the line. */
  function ReadAngled(s: Source, path: string): (r: (string, Source))
    requires Valid(s)
    ensures Valid(r.1)
    decreases Remaining(s)
  {
    match ReadSourceToken(s)
    case NotRead(s') => (path, s')
    case Got(t, s') =>
      if t.linescrossed > 0 then (path, UnreadSourceToken(s', t))
      else if t.typ == TT_PUNCTUATION && t.str != "" && t.str[0] == '>' then (path, s')
      else ReadAngled(s', path + t.str)
  }

  function Load(s: Source, filename: string): Option<Source> {
    if filename in s.files then Some(PushScript(s, filename, s.files[filename])) else None
  }

  function DirectiveInclude(s: Source): (r: Done)
    requires Valid(s)
    ensures !r.Stuck? && Valid(r.src)
  {
    if s.skip > 0 then Ok(s)
    else
      match ReadSourceToken(s)
      case NotRead(s') => Fail(s')
      case Got(t, s') =>
        if t.linescrossed > 0 then Fail(s')
        else if t.typ == TT_STRING then
          var name := ConvertPath(StripDoubleQuotes(t.str));
          var r := if Load(s', name).Some? then Load(s', name) else Load(s', s'.includepath + name);
          if r.Some? then Ok(r.value) else Fail(s')
        else if t.typ == TT_PUNCTUATION && t.str != "" && t.str[0] == '<' then
          var (path, s'') := ReadAngled(s', s'.includepath);
          var r := Load(s'', ConvertPath(path));
          if path != "" && r.Some? then Ok(r.value) else Fail(s'')
        else Fail(s')
  }

  function SkipLine(s: Source): (r: Source)
    requires Valid(s)
    ensures Valid(r)
    decreases Remaining(s)
  {
    match ReadLine(s)
    case NotRead(s') => s'
    case Got(_, s') => SkipLine(s')
  }

  // --------------------------------------------------------------- dispatch

  function Directive(name: string, s: Source, fuel: nat): (r: Done)
    requires Valid(s)
    ensures !r.Stuck? ==> Valid(r.src)
    decreases fuel, 3
  {
    if name == "if" then DirectiveIf(s, fuel)
    else if name == "ifdef" then DirectiveIfdef(s, INDENT_IFDEF)
    else if name == "ifndef" then DirectiveIfdef(s, INDENT_IFNDEF)
    else if name == "elif" then DirectiveElif(s, fuel)
    else if name == "else" then DirectiveElse(s)
    else if name == "endif" then DirectiveEndif(s)
    else if name == "include" then DirectiveInclude(s)
    else if name == "define" then DirectiveDefine(s, fuel)
    else if name == "undef" then DirectiveUndef(s)
    else if name == "line" then Fail(s)
    else if name == "error" then var r := ReadSourceToken(s); Fail(r.src)
    else if name == "pragma" then Ok(SkipLine(s))
    else if name == "eval" then PutBack(EvaluateLine(s, true, fuel), true)
    else if name == "evalfloat" then PutBack(EvaluateLine(s, false, fuel), false)
    else Fail(s)
  }

  /** The name after a # or $ must stand on the same line. */
  function ReadDirective(s: Source, fuel: nat): (r: Done)
    requires Valid(s)
    ensures !r.Stuck? ==> Valid(r.src)
    decreases fuel, 4
  {
    match ReadSourceToken(s)
    case NotRead(s') => Fail(s')
    case Got(t, s') =>
      if t.linescrossed > 0 then Fail(UnreadSourceToken(s', t))
      else if t.typ == TT_NAME then Directive(t.str, s', fuel)
      else Fail(s')
  }

  function ReadDollarDirective(s: Source, fuel: nat): (r: Done)
    requires Valid(s)
    ensures !r.Stuck? ==> Valid(r.src)
  {
    match ReadSourceToken(s)
    case NotRead(s') => Fail(s')
    case Got(t, s') =>
      if t.linescrossed > 0 then Fail(UnreadSourceToken(s', t))
      else if t.typ == TT_NAME && t.str == "evalint" then PutBack(DollarEvaluate(s', true, fuel), true)
      else if t.typ == TT_NAME && t.str == "evalfloat" then PutBack(DollarEvaluate(s', false, fuel), false)
      else Fail(UnreadSourceToken(s', t))
  }

  predicate StartsWith(t: Token, c: char) { t.typ == TT_PUNCTUATION && t.str != "" && t.str[0] == c }

  function After(d: Done): (r: Step)
  {
    match d
    case Ok(s) => Continues(s)
    case Fail(s) => Stops(s)
    case Stuck => StepStuck
  }

  /** One round of PC_ReadToken's loop, up to the joining of strings. */
  function ReadStep(s: Source, fuel: nat): (r: Step)
    requires Valid(s)
    ensures !r.StepStuck? ==> Valid(r.src)
    decreases fuel, 5
  {
    match ReadSourceToken(s)
    case NotRead(s') => Stops(s')
    case Got(t, s') =>
      if StartsWith(t, '#') then After(ReadDirective(s', fuel))
      else if StartsWith(t, '$') then After(ReadDollarDirective(s', fuel))
      else if s'.skip != 0 then Continues(s')
      else if t.typ == TT_NAME && t.str in s'.defs then After(ExpandDefineIntoSource(s', s'.defs[t.str], fuel))
      else Returns(t, s')
  }

  predicate JoinFits(t: Token, u: Token) { |t.str| + |u.str| - 1 < MAX_TOKEN }

  function JoinStrings(t: Token, u: Token): Token
    requires t.str != "" && u.str != ""
  {
    t.(str := t.str[..|t.str| - 1] + u.str[1..])
  }

  /** PC_ReadToken, with at most `rounds` rounds of its loop. A string is joined
      with the strings that follow it; a failure while looking for them is not
      reported. */
  function ReadToken(s: Source, rounds: nat, fuel: nat): (r: Read)
    requires Valid(s)
    ensures !r.ReadStuck? ==> Valid(r.src)
    decreases fuel, 6, rounds
  {
    if rounds == 0 then ReadStuck
    else
      match ReadStep(s, fuel)
      case StepStuck => ReadStuck
      case Stops(s') => NotRead(s')
      case Continues(s') => ReadToken(s', rounds - 1, fuel)
      case Returns(t, s') =>
        if t.typ != TT_STRING then Got(t, s')
        else
          match ReadToken(s', rounds - 1, fuel)
          case ReadStuck => ReadStuck
          case NotRead(s'') => Got(t, s'')
          case Got(u, s'') =>
            if u.typ != TT_STRING || t.str == "" || u.str == "" then Got(t, UnreadSourceToken(s'', u))
            else if !JoinFits(t, u) then NotRead(s'')
            else Got(JoinStrings(t, u), s'')
  }

  /** Reading to the end of the source with at most `calls` calls. */
  function ReadAll(s: Source, calls: nat, rounds: nat, fuel: nat): Option<(seq<Token>, Source)>
    requires Valid(s)
    decreases calls
  {
    if calls == 0 then None
    else
      match ReadToken(s, rounds, fuel)
      case ReadStuck => None
      case NotRead(s') => Some(([], s'))
      case Got(t, s') =>
        match ReadAll(s', calls - 1, rounds, fuel)
        case None => None
        case Some((ts, s'')) => Some(([t] + ts, s''))
  }
}
