/** What every call of PC_ReadToken keeps, on every source and every text. */
module SourceInvariants {
  import opened Options
  import opened Tokens
  import opened Macros
  import opened Precompiler

  function SkipBits(indents: seq<Indent>): int {
    if indents == [] then 0 else Bit(indents[0].skip) + SkipBits(indents[1..])
  }

  /** No two scripts on the stack have the same name, upper and lower case alike. */
  ghost predicate DistinctNames(scripts: seq<Script>) {
    forall i, j :: 0 <= i < j < |scripts| ==> Fold(scripts[i].filename) != Fold(scripts[j].filename)
  }

  /** Later scripts lie above earlier ones. */
  ghost predicate Stacked(scripts: seq<Script>, loaded: nat) {
    && (forall i :: 0 <= i < |scripts| ==> scripts[i].id < loaded)
    && (forall i, j :: 0 <= i < j < |scripts| ==> scripts[i].id > scripts[j].id)
  }

  ghost predicate OnScripts(scripts: seq<Script>, id: nat) {
    exists i :: 0 <= i < |scripts| && scripts[i].id == id
  }

  /** Every indent belongs to a script still on the stack, those of later scripts
      lying above those of earlier ones. */
  ghost predicate Nested(scripts: seq<Script>, indents: seq<Indent>) {
    && (forall i :: 0 <= i < |indents| ==> OnScripts(scripts, indents[i].script))
    && (forall i, j :: 0 <= i < j < |indents| ==> indents[i].script >= indents[j].script)
  }

  /** No script being read and no file that can be included has a lexing error. */
  ghost predicate Clean(s: Source) {
    (forall i :: 0 <= i < |s.scripts| ==> s.scripts[i].clean) && (forall name <- s.files :: s.files[name].clean)
  }

  /** `orderly` says that the run has met no lexing error. */
  ghost predicate Invariant(s: Source, orderly: bool) {
    && Valid(s)
    && s.skip == SkipBits(s.indents)
    && DistinctNames(s.scripts) && Stacked(s.scripts, s.loaded)
    && (orderly ==> Clean(s) && Nested(s.scripts, s.indents))
  }

  /** A source just loaded. */
  lemma LoadedSource(s: Source)
    requires |s.scripts| == 1 && s.scripts[0].id < s.loaded && s.indents == [] && s.skip == 0
    ensures Invariant(s, Clean(s))
  {
  }

  // ------------------------------------------------- the four operations

  lemma PushIndentKeeps(s: Source, typ: IndentType, skip: bool, orderly: bool)
    requires Invariant(s, orderly)
    ensures Invariant(PushIndent(s, typ, skip), orderly)
  {
    assert PushIndent(s, typ, skip).indents[1..] == s.indents;
    if orderly {
      assert OnScripts(s.scripts, s.scripts[0].id);
      forall i | 0 <= i < |s.indents| ensures s.scripts[0].id >= s.indents[i].script {
        assert OnScripts(s.scripts, s.indents[i].script);
      }
    }
  }

  lemma PopIndentKeeps(s: Source, orderly: bool)
    requires Invariant(s, orderly)
    ensures Invariant(PopIndent(s), orderly)
  {
  }

  lemma {:induction false} DropIndentsKeeps(s: Source, orderly: bool)
    requires Invariant(s, orderly)
    ensures Invariant(DropIndents(s), orderly) && TopIndent(DropIndents(s)).None?
    decreases |s.indents|
  {
    if TopIndent(s).Some? {
      PopIndentKeeps(s, orderly);
      DropIndentsKeeps(PopIndent(s), orderly);
    }
  }

  lemma PushScriptKeeps(s: Source, filename: string, orderly: bool)
    requires Invariant(s, orderly) && filename in s.files
    ensures Invariant(PushScript(s, filename, s.files[filename]), orderly)
  {
    var s' := PushScript(s, filename, s.files[filename]);
    if s' != s {
      assert forall i :: 0 < i < |s'.scripts| ==> s'.scripts[i] == s.scripts[i - 1];
      if orderly {
        forall i | 0 <= i < |s.indents| ensures OnScripts(s'.scripts, s.indents[i].script) {
          var j :| 0 <= j < |s.scripts| && s.scripts[j].id == s.indents[i].script;
          assert s'.scripts[j + 1].id == s.indents[i].script;
        }
      }
    }
  }

  /** The exhausted script goes, after its indents. */
  lemma PopScriptKeeps(s: Source, orderly: bool)
    requires Invariant(s, orderly) && |s.scripts| > 1 && (orderly ==> TopIndent(s).None?)
    ensures Invariant(s.(scripts := s.scripts[1..]), orderly)
  {
    if orderly {
      forall i | 0 <= i < |s.indents| ensures OnScripts(s.scripts[1..], s.indents[i].script) {
        assert OnScripts(s.scripts, s.indents[0].script) && OnScripts(s.scripts, s.indents[i].script);
        var j :| 0 <= j < |s.scripts| && s.scripts[j].id == s.indents[i].script;
        assert j > 0 && s.scripts[1..][j - 1].id == s.indents[i].script;
      }
    }
  }

  /** The end of the last script leaves no conditional open and nothing skipped. */
  lemma NothingLeft(s: Source)
    requires Invariant(s, true) && |s.scripts| == 1 && TopIndent(s).None?
    ensures s.indents == [] && s.skip == 0
  {
    assert s.indents != [] ==> OnScripts(s.scripts, s.indents[0].script);
  }

  // ---------------------------------------------------------- reading tokens

  ghost predicate ReadKeeps(r: Read, orderly: bool) {
    match r
    case Got(_, s) => Invariant(s, orderly)
    case NotRead(s) => Invariant(s, orderly)
    case ReadStuck => true
  }

  ghost predicate DoneKeeps(d: Done, orderly: bool) {
    match d
    case Ok(s) => Invariant(s, orderly)
    case Fail(s) => Invariant(s, orderly)
    case Stuck => true
  }

  lemma {:induction false} ReadSourceTokenKeeps(s: Source, orderly: bool)
    requires Invariant(s, orderly)
    ensures ReadKeeps(ReadSourceToken(s), orderly)
    ensures orderly && ReadSourceToken(s).NotRead? ==>
         ReadSourceToken(s).src.indents == [] && ReadSourceToken(s).src.skip == 0
    decreases |s.scripts|
  {
    if s.tokens == [] {
      var script := s.scripts[0];
      if script.toks != [] {
        ReadScriptKeeps(s, orderly);
      } else {
        var s' := if script.clean then DropIndents(s) else s;
        if script.clean { DropIndentsKeeps(s, orderly); }
        if |s.scripts| > 1 {
          PopScriptKeeps(s', orderly);
          ReadSourceTokenKeeps(s'.(scripts := s.scripts[1..]), orderly);
        } else if orderly {
          NothingLeft(s');
        }
      }
    }
  }

  lemma ReadScriptKeeps(s: Source, orderly: bool)
    requires Invariant(s, orderly) && s.scripts[0].toks != []
    ensures Invariant(s.(scripts := [s.scripts[0].(toks := s.scripts[0].toks[1..])] + s.scripts[1..]), orderly)
  {
    var scripts := [s.scripts[0].(toks := s.scripts[0].toks[1..])] + s.scripts[1..];
    assert forall i :: 0 <= i < |scripts| ==> scripts[i] == s.scripts[i].(toks := scripts[i].toks);
    if orderly {
      forall i | 0 <= i < |s.indents| ensures OnScripts(scripts, s.indents[i].script) {
        var j :| 0 <= j < |s.scripts| && s.scripts[j].id == s.indents[i].script;
        assert scripts[j].id == s.indents[i].script;
      }
    }
  }

  lemma {:induction false} ReadLineFromKeeps(s: Source, crossline: nat, orderly: bool)
    requires Invariant(s, orderly)
    ensures ReadKeeps(ReadLineFrom(s, crossline), orderly)
    decreases Remaining(s)
  {
    hide DistinctNames, Stacked, Nested, Clean, SkipBits, ReadSourceToken;
    ReadSourceTokenKeeps(s, orderly);
    match ReadSourceToken(s)
    case NotRead(_) =>
    case Got(t, s') =>
      SameControl(s', UnreadSourceToken(s', t), orderly);
      if t.linescrossed <= crossline && t.str == "\\" {
        ReadLineFromKeeps(s', 1, orderly);
      }
  }

  /** Only the scripts, the indents and the counters matter. */
  lemma SameControl(s: Source, s': Source, orderly: bool)
    requires s'.scripts == s.scripts && s'.indents == s.indents && s'.skip == s.skip && s'.loaded == s.loaded
    requires s'.files == s.files
    ensures Invariant(s, orderly) ==> Invariant(s', orderly)
  {
  }

  lemma ReadLineKeeps(s: Source, orderly: bool)
    requires Invariant(s, orderly)
    ensures ReadKeeps(ReadLine(s), orderly)
  {
    ReadLineFromKeeps(s, 0, orderly);
  }

  // -------------------------------------------------------------- expansion

  ghost predicate ArgumentsKeep(a: Arguments, orderly: bool) {
    match a
    case Arguments(_, s) => Invariant(s, orderly)
    case NoArguments(s) => Invariant(s, orderly)
    case ArgumentsStuck => true
  }

  lemma {:induction false} ReadArgumentsKeep(s: Source, args: seq<seq<Token>>, k: nat, depth: nat, fuel: nat,
          orderly: bool)
    requires Invariant(s, orderly) && k < |args| && depth > 0
    ensures ArgumentsKeep(ReadArguments(s, args, k, depth, fuel), orderly)
    decreases fuel, 1
  {
    hide DistinctNames, Stacked, Nested, Clean, SkipBits, ReadSourceToken, ExpandDefineIntoSource;
    ReadSourceTokenKeeps(s, orderly);
    if fuel > 0 && ReadSourceToken(s).Got? {
      var Got(t, s') := ReadSourceToken(s);
      if t.str == "," && depth <= 1 {
        if k + 1 < |args| { ReadArgumentsKeep(s', args, k + 1, depth, fuel - 1, orderly); }
      } else if t.str == "(" {
        ReadArgumentsKeep(s', AppendTo(args, k, t), k, depth + 1, fuel - 1, orderly);
      } else if t.str == ")" {
        if depth > 1 { ReadArgumentsKeep(s', AppendTo(args, k, t), k, depth - 1, fuel - 1, orderly); }
      } else if t.typ == TT_NAME && t.str in s'.defs {
        ExpandKeeps(s', s'.defs[t.str], fuel - 1, orderly);
        match ExpandDefineIntoSource(s', s'.defs[t.str], fuel - 1)
        case Ok(s'') => ReadArgumentsKeep(s'', args, k, depth, fuel - 1, orderly);
        case _ =>
      } else {
        ReadArgumentsKeep(s', AppendTo(args, k, t), k, depth, fuel - 1, orderly);
      }
    }
  }

  lemma SpliceKeeps(s: Source, expansion: Option<seq<Token>>, orderly: bool)
    requires Invariant(s, orderly)
    ensures DoneKeeps(Splice(s, expansion), orderly)
  {
  }

  lemma {:induction false} ExpandKeeps(s: Source, d: Define, fuel: nat, orderly: bool)
    requires Invariant(s, orderly)
    ensures DoneKeeps(ExpandDefineIntoSource(s, d, fuel), orderly)
    decreases fuel, 3
  {
    hide DistinctNames, Stacked, Nested, Clean, SkipBits, ReadSourceToken, Splice, ReadArguments;
    if d.parms == [] {
      SpliceKeeps(s, MergePass(Substitute(d.body, [], [])), orderly);
    } else {
      ReadSourceTokenKeeps(s, orderly);
      if ReadSourceToken(s).Got? {
        var Got(t, s') := ReadSourceToken(s);
        SameControl(s', UnreadSourceToken(s', t), orderly);
        ReadArgumentsKeep(s', seq(|d.parms|, _ => []), 0, 1, fuel, orderly);
      }
      match ReadDefineParms(s, |d.parms|, fuel)
      case Arguments(args, s') => SpliceKeeps(s', MergePass(Substitute(d.body, d.parms, args)), orderly);
      case _ =>
    }
  }

  // ------------------------------------------------------------- evaluation

  ghost predicate EvaluationKeeps(e: Evaluation, orderly: bool) {
    match e
    case Value(_, _, s) => Invariant(s, orderly)
    case NoValue(s) => Invariant(s, orderly)
    case EvaluationStuck => true
  }

  lemma {:induction false} CollectLineKeeps(s: Source, t: Token, acc: seq<Token>, defined: bool, integer: bool,
          fuel: nat, orderly: bool)
    requires Invariant(s, orderly)
    ensures EvaluationKeeps(CollectLine(s, t, acc, defined, integer, fuel), orderly)
    decreases fuel, 1
  {
    hide DistinctNames, Stacked, Nested, Clean, SkipBits, ExpandDefineIntoSource;
    if t.typ == TT_NAME && !defined && t.str != "defined" {
      if t.str in s.defs {
        ExpandKeeps(s, s.defs[t.str], fuel, orderly);
        match ExpandDefineIntoSource(s, s.defs[t.str], fuel)
        case Ok(s') => CollectNextKeeps(s', acc, defined, integer, fuel, orderly);
        case _ =>
      }
    } else {
      CollectNextKeeps(s, acc + [t], if t.typ == TT_NAME then !defined else defined, integer, fuel, orderly);
    }
  }

  lemma {:induction false} CollectNextKeeps(s: Source, acc: seq<Token>, defined: bool, integer: bool, fuel: nat,
          orderly: bool)
    requires Invariant(s, orderly)
    ensures EvaluationKeeps(CollectNext(s, acc, defined, integer, fuel), orderly)
    decreases fuel, 0
  {
    hide DistinctNames, Stacked, Nested, Clean, SkipBits, ReadLine;
    ReadLineKeeps(s, orderly);
    match ReadLine(s)
    case Got(t, s') => if fuel > 0 { CollectLineKeeps(s', t, acc, defined, integer, fuel - 1, orderly); }
    case NotRead(_) =>
  }

  lemma EvaluateLineKeeps(s: Source, integer: bool, fuel: nat, orderly: bool)
    requires Invariant(s, orderly)
    ensures EvaluationKeeps(EvaluateLine(s, integer, fuel), orderly)
  {
    hide DistinctNames, Stacked, Nested, Clean, SkipBits, ReadLine, CollectLine;
    ReadLineKeeps(s, orderly);
    match ReadLine(s)
    case Got(t, s') => CollectLineKeeps(s', t, [], false, integer, fuel, orderly);
    case NotRead(_) =>
  }

  lemma {:induction false} CollectDollarKeeps(s: Source, t: Token, acc: seq<Token>, defined: bool, depth: int,
          integer: bool, fuel: nat, orderly: bool)
    requires Invariant(s, orderly)
    ensures EvaluationKeeps(CollectDollar(s, t, acc, defined, depth, integer, fuel), orderly)
    decreases fuel, 1
  {
    hide DistinctNames, Stacked, Nested, Clean, SkipBits, ExpandDefineIntoSource;
    if t.typ == TT_NAME && !defined && t.str != "defined" {
      if t.str in s.defs {
        ExpandKeeps(s, s.defs[t.str], fuel, orderly);
        match ExpandDefineIntoSource(s, s.defs[t.str], fuel)
        case Ok(s') => CollectDollarNextKeeps(s', acc, defined, depth, integer, fuel, orderly);
        case _ =>
      }
    } else {
      var depth' := if t.str != "" && t.str[0] == '(' then depth + 1
          else if t.str != "" && t.str[0] == ')' then depth - 1 else depth;
      CollectDollarNextKeeps(s, acc + [t], !defined, depth, integer, fuel, orderly);
      CollectDollarNextKeeps(s, acc + [t], defined, depth', integer, fuel, orderly);
    }
  }

  lemma {:induction false} CollectDollarNextKeeps(s: Source, acc: seq<Token>, defined: bool, depth: int, integer: bool,
          fuel: nat, orderly: bool)
    requires Invariant(s, orderly)
    ensures EvaluationKeeps(CollectDollarNext(s, acc, defined, depth, integer, fuel), orderly)
    decreases fuel, 0
  {
    hide DistinctNames, Stacked, Nested, Clean, SkipBits, ReadSourceToken;
    ReadSourceTokenKeeps(s, orderly);
    match ReadSourceToken(s)
    case Got(t, s') => if fuel > 0 { CollectDollarKeeps(s', t, acc, defined, depth, integer, fuel - 1, orderly); }
    case NotRead(_) =>
  }

  lemma DollarEvaluateKeeps(s: Source, integer: bool, fuel: nat, orderly: bool)
    requires Invariant(s, orderly)
    ensures EvaluationKeeps(DollarEvaluate(s, integer, fuel), orderly)
  {
    hide DistinctNames, Stacked, Nested, Clean, SkipBits, ReadSourceToken, CollectDollar;
    ReadSourceTokenKeeps(s, orderly);
    match ReadSourceToken(s)
    case NotRead(_) =>
    case Got(_, s') =>
      ReadSourceTokenKeeps(s', orderly);
      match ReadSourceToken(s')
      case NotRead(_) =>
      case Got(t, s'') => CollectDollarKeeps(s'', t, [], false, 1, integer, fuel, orderly);
  }

  lemma PutBackKeeps(e: Evaluation, integer: bool, orderly: bool)
    requires EvaluationKeeps(e, orderly)
    ensures DoneKeeps(PutBack(e, integer), orderly)
  {
  }

  // ------------------------------------------------------------- directives

  lemma DirectiveIfdefKeeps(s: Source, typ: IndentType, orderly: bool)
    requires Invariant(s, orderly)
    ensures DoneKeeps(DirectiveIfdef(s, typ), orderly)
  {
    hide DistinctNames, Stacked, Nested, Clean, SkipBits, ReadLine, PushIndent;
    ReadLineKeeps(s, orderly);
    if ReadLine(s).Got? {
      var Got(t, s') := ReadLine(s);
      SameControl(s', UnreadSourceToken(s', t), orderly);
      PushIndentKeeps(s', typ, (typ == INDENT_IFDEF) == (t.str !in s'.defs), orderly);
    }
  }

  lemma DirectiveElseKeeps(s: Source, orderly: bool)
    requires Invariant(s, orderly)
    ensures DoneKeeps(DirectiveElse(s), orderly) && DoneKeeps(DirectiveEndif(s), orderly)
  {
    hide DistinctNames, Stacked, Nested, Clean, SkipBits, PushIndent, PopIndent;
    PopIndentKeeps(s, orderly);
    if TopIndent(s).Some? {
      PushIndentKeeps(PopIndent(s), INDENT_ELSE, !TopIndent(s).value.skip, orderly);
    }
  }

  lemma PushConditionKeeps(e: Evaluation, typ: IndentType, orderly: bool)
    requires EvaluationKeeps(e, orderly)
    ensures DoneKeeps(PushCondition(e, typ), orderly)
  {
    hide DistinctNames, Stacked, Nested, Clean, SkipBits, PushIndent;
    if e.Value? { PushIndentKeeps(e.src, typ, e.intvalue == 0, orderly); }
  }

  lemma DirectiveIfKeeps(s: Source, fuel: nat, orderly: bool)
    requires Invariant(s, orderly)
    ensures DoneKeeps(DirectiveIf(s, fuel), orderly) && DoneKeeps(DirectiveElif(s, fuel), orderly)
  {
    hide DistinctNames, Stacked, Nested, Clean, SkipBits, PushCondition, EvaluateLine, PopIndent;
    PopIndentKeeps(s, orderly);
    EvaluateLineKeeps(s, true, fuel, orderly);
    EvaluateLineKeeps(PopIndent(s), true, fuel, orderly);
    PushConditionKeeps(EvaluateLine(s, true, fuel), INDENT_IF, orderly);
    PushConditionKeeps(EvaluateLine(PopIndent(s), true, fuel), INDENT_ELIF, orderly);
  }

  lemma DirectiveUndefKeeps(s: Source, orderly: bool)
    requires Invariant(s, orderly)
    ensures DoneKeeps(DirectiveUndef(s), orderly)
  {
    hide DistinctNames, Stacked, Nested, Clean, SkipBits, ReadLine;
    ReadLineKeeps(s, orderly);
    if ReadLine(s).Got? {
      var Got(t, s') := ReadLine(s);
      SameControl(s', UnreadSourceToken(s', t), orderly);
      SameControl(s', Undefine(s', t.str), orderly);
    }
  }

  lemma {:induction false} ReadBodyKeeps(s: Source, d: Define, t: Token, orderly: bool)
    requires Invariant(s, orderly)
    ensures DoneKeeps(ReadBody(s, d, t), orderly)
    decreases Remaining(s)
  {
    hide DistinctNames, Stacked, Nested, Clean, SkipBits, ReadLine;
    var d' := if t.typ == TT_NAME && t.str == d.name then d else d.(body := d.body + [ClearWhiteSpace(t)]);
    ReadLineKeeps(s, orderly);
    match ReadLine(s)
    case Got(u, s') => ReadBodyKeeps(s', d', u, orderly);
    case NotRead(s') => SameControl(s', SetDefine(s', d'), orderly);
  }

  lemma {:induction false} ReadParmNamesKeep(s: Source, d: Define, orderly: bool)
    requires Invariant(s, orderly)
    ensures Invariant(ReadParmNames(s, d).1, orderly)
    decreases Remaining(s)
  {
    hide DistinctNames, Stacked, Nested, Clean, SkipBits, ReadLine;
    ReadLineKeeps(s, orderly);
    var s' := ReadLine(s).src;
    SameControl(s', SetDefine(s', d), orderly);
    if ReadLine(s).Got? {
      var t := ReadLine(s).token;
      if t.typ == TT_NAME && t.str !in d.parms {
        var d' := d.(parms := d.parms + [t.str]);
        ReadLineKeeps(s', orderly);
        var s'' := ReadLine(s').src;
        SameControl(s'', SetDefine(s'', d'), orderly);
        if ReadLine(s').Got? && ReadLine(s').token.str == "," {
          ReadParmNamesKeep(s'', d', orderly);
        }
      }
    }
  }

  lemma {:induction false} ReadAngledKeeps(s: Source, path: string, orderly: bool)
    requires Invariant(s, orderly)
    ensures Invariant(ReadAngled(s, path).1, orderly)
    decreases Remaining(s)
  {
    hide DistinctNames, Stacked, Nested, Clean, SkipBits, ReadSourceToken;
    ReadSourceTokenKeeps(s, orderly);
    if ReadSourceToken(s).Got? {
      var Got(t, s') := ReadSourceToken(s);
      SameControl(s', UnreadSourceToken(s', t), orderly);
      if !(t.linescrossed > 0 || (t.typ == TT_PUNCTUATION && t.str != "" && t.str[0] == '>')) {
        ReadAngledKeeps(s', path + t.str, orderly);
      }
    }
  }

  lemma LoadKeeps(s: Source, filename: string, orderly: bool)
    requires Invariant(s, orderly)
    ensures Load(s, filename).Some? ==> Invariant(Load(s, filename).value, orderly)
  {
    if filename in s.files { PushScriptKeeps(s, filename, orderly); }
  }

  lemma DirectiveIncludeKeeps(s: Source, orderly: bool)
    requires Invariant(s, orderly)
    ensures DoneKeeps(DirectiveInclude(s), orderly)
  {
    hide DistinctNames, Stacked, Nested, Clean, SkipBits, ReadSourceToken, Load, ReadAngled, ConvertPath,
      StripDoubleQuotes;
    ReadSourceTokenKeeps(s, orderly);
    if ReadSourceToken(s).Got? {
      var Got(t, s') := ReadSourceToken(s);
      var name := ConvertPath(StripDoubleQuotes(t.str));
      LoadKeeps(s', name, orderly);
      LoadKeeps(s', s'.includepath + name, orderly);
      ReadAngledKeeps(s', s'.includepath, orderly);
      LoadKeeps(ReadAngled(s', s'.includepath).1, ConvertPath(ReadAngled(s', s'.includepath).0), orderly);
    }
  }

  lemma {:induction false} SkipLineKeeps(s: Source, orderly: bool)
    requires Invariant(s, orderly)
    ensures Invariant(SkipLine(s), orderly)
    decreases Remaining(s)
  {
    hide DistinctNames, Stacked, Nested, Clean, SkipBits, ReadLine;
    ReadLineKeeps(s, orderly);
    if ReadLine(s).Got? { SkipLineKeeps(ReadLine(s).src, orderly); }
  }

  lemma {:induction false} DirectiveDefineKeeps(s: Source, fuel: nat, orderly: bool)
    requires Invariant(s, orderly)
    ensures DoneKeeps(DirectiveDefine(s, fuel), orderly)
    decreases fuel, 2
  {
    hide DistinctNames, Stacked, Nested, Clean, SkipBits, ReadLine, DirectiveUndef, ReadBody, ReadToken, ReadParmNames;
    ReadLineKeeps(s, orderly);
    if s.skip <= 0 && ReadLine(s).Got? {
      var Got(t, s') := ReadLine(s);
      SameControl(s', UnreadSourceToken(s', t), orderly);
      DirectiveUndefKeeps(UnreadSourceToken(s', t), orderly);
      var undefined := if t.str in s'.defs then DirectiveUndef(UnreadSourceToken(s', t)) else Ok(s');
      if undefined.Ok? {
        var d := Define(t.str, [], [], false);
        SameControl(undefined.src, SetDefine(undefined.src, d), orderly);
        DefineTailKeeps(SetDefine(undefined.src, d), d, fuel, orderly);
      }
    }
  }

  /** #define from the point where the name is in the table. */
  lemma {:induction false} DefineTailKeeps(s: Source, d: Define, fuel: nat, orderly: bool)
    requires Invariant(s, orderly)
    ensures DoneKeeps(DefineTail(s, d, fuel), orderly)
    decreases fuel, 1
  {
    hide DistinctNames, Stacked, Nested, Clean, SkipBits, ReadLine, ReadBody, CheckTokenString, ReadParmNames;
    ReadLineKeeps(s, orderly);
    if ReadLine(s).Got? {
      var Got(u, s1) := ReadLine(s);
      ReadBodyKeeps(s1, d, u, orderly);
      CheckTokenStringKeeps(s1, ")", fuel, orderly);
      var (closes, s2) := CheckTokenString(s1, ")", fuel);
      if closes.Some? {
        ReadParmNamesKeep(s2, d, orderly);
        var (d', s3) := if closes.value then (Some(d), s2) else ReadParmNames(s2, d);
        if d'.Some? { DefineEndKeeps(s3, d'.value, orderly); }
      }
    }
  }

  lemma DefineEndKeeps(s: Source, d: Define, orderly: bool)
    requires Invariant(s, orderly)
    ensures Invariant(SetDefine(ReadLine(s).src, d), orderly)
    ensures ReadLine(s).Got? ==> DoneKeeps(ReadBody(SetDefine(ReadLine(s).src, d), d, ReadLine(s).token), orderly)
  {
    hide DistinctNames, Stacked, Nested, Clean, SkipBits, ReadLine, ReadBody;
    ReadLineKeeps(s, orderly);
    SameControl(ReadLine(s).src, SetDefine(ReadLine(s).src, d), orderly);
    if ReadLine(s).Got? { ReadBodyKeeps(SetDefine(ReadLine(s).src, d), d, ReadLine(s).token, orderly); }
  }

  lemma {:induction false} CheckTokenStringKeeps(s: Source, str: string, fuel: nat, orderly: bool)
    requires Invariant(s, orderly)
    ensures Invariant(CheckTokenString(s, str, fuel).1, orderly)
    decreases fuel, 0
  {
    hide DistinctNames, Stacked, Nested, Clean, SkipBits, ReadToken;
    if fuel > 0 {
      ReadTokenKeeps(s, fuel - 1, fuel - 1, orderly);
      match ReadToken(s, fuel - 1, fuel - 1)
      case Got(t, s') => SameControl(s', UnreadSourceToken(s', t), orderly);
      case _ =>
    }
  }

  lemma {:induction false} DirectiveKeeps(name: string, s: Source, fuel: nat, orderly: bool)
    requires Invariant(s, orderly)
    ensures DoneKeeps(Directive(name, s, fuel), orderly)
    decreases fuel, 3
  {
    hide DistinctNames, Stacked, Nested, Clean, SkipBits, DirectiveIf, DirectiveIfdef, DirectiveElif, DirectiveElse,
      DirectiveEndif, DirectiveInclude, DirectiveDefine, DirectiveUndef, ReadSourceToken, SkipLine, PutBack,
      EvaluateLine;
    DirectiveIfKeeps(s, fuel, orderly);
    DirectiveIfdefKeeps(s, INDENT_IFDEF, orderly);
    DirectiveIfdefKeeps(s, INDENT_IFNDEF, orderly);
    DirectiveElseKeeps(s, orderly);
    DirectiveIncludeKeeps(s, orderly);
    DirectiveDefineKeeps(s, fuel, orderly);
    DirectiveUndefKeeps(s, orderly);
    ReadSourceTokenKeeps(s, orderly);
    SkipLineKeeps(s, orderly);
    EvaluateLineKeeps(s, true, fuel, orderly);
    EvaluateLineKeeps(s, false, fuel, orderly);
    PutBackKeeps(EvaluateLine(s, true, fuel), true, orderly);
    PutBackKeeps(EvaluateLine(s, false, fuel), false, orderly);
  }

  lemma {:induction false} ReadDirectiveKeeps(s: Source, fuel: nat, orderly: bool)
    requires Invariant(s, orderly)
    ensures DoneKeeps(ReadDirective(s, fuel), orderly)
    decreases fuel, 4
  {
    hide DistinctNames, Stacked, Nested, Clean, SkipBits, ReadSourceToken, Directive;
    ReadSourceTokenKeeps(s, orderly);
    if ReadSourceToken(s).Got? {
      var Got(t, s') := ReadSourceToken(s);
      SameControl(s', UnreadSourceToken(s', t), orderly);
      DirectiveKeeps(t.str, s', fuel, orderly);
    }
  }

  lemma ReadDollarDirectiveKeeps(s: Source, fuel: nat, orderly: bool)
    requires Invariant(s, orderly)
    ensures DoneKeeps(ReadDollarDirective(s, fuel), orderly)
  {
    hide DistinctNames, Stacked, Nested, Clean, SkipBits, ReadSourceToken, DollarEvaluate, PutBack;
    ReadSourceTokenKeeps(s, orderly);
    if ReadSourceToken(s).Got? {
      var Got(t, s') := ReadSourceToken(s);
      SameControl(s', UnreadSourceToken(s', t), orderly);
      DollarEvaluateKeeps(s', true, fuel, orderly);
      DollarEvaluateKeeps(s', false, fuel, orderly);
      PutBackKeeps(DollarEvaluate(s', true, fuel), true, orderly);
      PutBackKeeps(DollarEvaluate(s', false, fuel), false, orderly);
    }
  }

  // ------------------------------------------------------------- PC_ReadToken

  ghost predicate StepKeeps(r: Step, orderly: bool) {
    match r
    case Returns(_, s) => Invariant(s, orderly)
    case Continues(s) => Invariant(s, orderly)
    case Stops(s) => Invariant(s, orderly)
    case StepStuck => true
  }

  lemma {:induction false} ReadStepKeeps(s: Source, fuel: nat, orderly: bool)
    requires Invariant(s, orderly)
    ensures StepKeeps(ReadStep(s, fuel), orderly)
    decreases fuel, 5
  {
    hide DistinctNames, Stacked, Nested, Clean, SkipBits, ReadSourceToken, ReadDirective, ReadDollarDirective,
      ExpandDefineIntoSource;
    ReadSourceTokenKeeps(s, orderly);
    if ReadSourceToken(s).Got? {
      var Got(t, s') := ReadSourceToken(s);
      ReadDirectiveKeeps(s', fuel, orderly);
      ReadDollarDirectiveKeeps(s', fuel, orderly);
      if t.str in s'.defs { ExpandKeeps(s', s'.defs[t.str], fuel, orderly); }
    }
  }

  lemma {:induction false} ReadTokenKeeps(s: Source, rounds: nat, fuel: nat, orderly: bool)
    requires Invariant(s, orderly)
    ensures ReadKeeps(ReadToken(s, rounds, fuel), orderly)
    decreases fuel, 6, rounds
  {
    hide DistinctNames, Stacked, Nested, Clean, SkipBits, ReadStep;
    if rounds > 0 {
      ReadStepKeeps(s, fuel, orderly);
      match ReadStep(s, fuel)
      case Continues(s') => ReadTokenKeeps(s', rounds - 1, fuel, orderly);
      case Returns(t, s') =>
        ReadTokenKeeps(s', rounds - 1, fuel, orderly);
        if ReadToken(s', rounds - 1, fuel).Got? {
          var Got(u, s'') := ReadToken(s', rounds - 1, fuel);
          SameControl(s'', UnreadSourceToken(s'', u), orderly);
        }
      case _ =>
    }
  }

  /** Over a whole run of PC_ReadToken calls, from a source just loaded to the first
      failing call: the counter is the sum of the skip bits, no file is on the
      stack twice, and without lexing errors every indent has its script. */
  lemma {:induction false} ReadAllKeeps(s: Source, calls: nat, rounds: nat, fuel: nat, orderly: bool)
    requires Invariant(s, orderly) && ReadAll(s, calls, rounds, fuel).Some?
    ensures Invariant(ReadAll(s, calls, rounds, fuel).value.1, orderly)
    decreases calls
  {
    hide DistinctNames, Stacked, Nested, Clean, SkipBits, ReadToken;
    ReadTokenKeeps(s, rounds, fuel, orderly);
    match ReadToken(s, rounds, fuel)
    case Got(_, s') => ReadAllKeeps(s', calls - 1, rounds, fuel, orderly);
    case _ =>
  }
}
