/** The bounds that calls carry only decide whether they return: a call that returns
    under some bounds returns the same under all larger ones. */
module Fuel {
  import opened Tokens
  import opened Macros
  import opened Precompiler

  // -------------------------------------------------------- macro expansion

  lemma {:induction false} MoreArguments(s: Source, args: seq<seq<Token>>, k: nat, depth: nat, fuel: nat, more: nat)
    requires Valid(s) && k < |args| && depth > 0 && fuel <= more
    requires !ReadArguments(s, args, k, depth, fuel).ArgumentsStuck?
    ensures ReadArguments(s, args, k, depth, more) == ReadArguments(s, args, k, depth, fuel)
    decreases fuel, 1
  {
    hide ReadSourceToken, ExpandDefineIntoSource, AppendTo;
    if ReadSourceToken(s).Got? {
      var Got(t, s') := ReadSourceToken(s);
      if t.str == "," && depth <= 1 {
        if k + 1 < |args| { MoreArguments(s', args, k + 1, depth, fuel - 1, more - 1); }
      } else if t.str == "(" {
        MoreArguments(s', AppendTo(args, k, t), k, depth + 1, fuel - 1, more - 1);
      } else if t.str == ")" {
        if depth > 1 { MoreArguments(s', AppendTo(args, k, t), k, depth - 1, fuel - 1, more - 1); }
      } else if t.typ == TT_NAME && t.str in s'.defs {
        MoreExpansion(s', s'.defs[t.str], fuel - 1, more - 1);
        if ExpandDefineIntoSource(s', s'.defs[t.str], fuel - 1).Ok? {
          MoreArguments(ExpandDefineIntoSource(s', s'.defs[t.str], fuel - 1).src, args, k, depth, fuel - 1, more - 1);
        }
      } else {
        MoreArguments(s', AppendTo(args, k, t), k, depth, fuel - 1, more - 1);
      }
    }
  }

  lemma {:induction false} MoreExpansion(s: Source, d: Define, fuel: nat, more: nat)
    requires Valid(s) && fuel <= more && !ExpandDefineIntoSource(s, d, fuel).Stuck?
    ensures ExpandDefineIntoSource(s, d, more) == ExpandDefineIntoSource(s, d, fuel)
    decreases fuel, 2
  {
    hide ReadSourceToken, ReadArguments, MergePass, Substitute;
    if d.parms != [] && ReadSourceToken(s).Got? {
      var Got(t, s') := ReadSourceToken(s);
      if |d.parms| <= MAX_DEFINEPARMS && t.str == "(" {
        MoreArguments(s', seq(|d.parms|, _ => []), 0, 1, fuel, more);
      }
    }
  }

  // ------------------------------------------------------------- evaluation

  lemma {:induction false} MoreLine(s: Source, t: Token, acc: seq<Token>, defined: bool, integer: bool, fuel: nat,
          more: nat)
    requires Valid(s) && fuel <= more && !CollectLine(s, t, acc, defined, integer, fuel).EvaluationStuck?
    ensures CollectLine(s, t, acc, defined, integer, more) == CollectLine(s, t, acc, defined, integer, fuel)
    decreases fuel, 1
  {
    hide ExpandDefineIntoSource, EvaluateList;
    if t.typ == TT_NAME && !defined && t.str != "defined" {
      if t.str in s.defs {
        MoreExpansion(s, s.defs[t.str], fuel, more);
        if ExpandDefineIntoSource(s, s.defs[t.str], fuel).Ok? {
          MoreNext(ExpandDefineIntoSource(s, s.defs[t.str], fuel).src, acc, defined, integer, fuel, more);
        }
      }
    } else if t.typ != TT_STRING && t.typ != TT_LITERAL {
      MoreNext(s, acc + [t], if t.typ == TT_NAME then !defined else defined, integer, fuel, more);
    }
  }

  lemma {:induction false} MoreNext(s: Source, acc: seq<Token>, defined: bool, integer: bool, fuel: nat, more: nat)
    requires Valid(s) && fuel <= more && !CollectNext(s, acc, defined, integer, fuel).EvaluationStuck?
    ensures CollectNext(s, acc, defined, integer, more) == CollectNext(s, acc, defined, integer, fuel)
    decreases fuel, 0
  {
    hide ReadLine, CollectLine, EvaluateList;
    if ReadLine(s).Got? {
      MoreLine(ReadLine(s).src, ReadLine(s).token, acc, defined, integer, fuel - 1, more - 1);
    }
  }

  lemma MoreEvaluation(s: Source, integer: bool, fuel: nat, more: nat)
    requires Valid(s) && fuel <= more && !EvaluateLine(s, integer, fuel).EvaluationStuck?
    ensures EvaluateLine(s, integer, more) == EvaluateLine(s, integer, fuel)
  {
    hide ReadLine, CollectLine;
    if ReadLine(s).Got? { MoreLine(ReadLine(s).src, ReadLine(s).token, [], false, integer, fuel, more); }
  }

  lemma {:induction false} MoreDollar(s: Source, t: Token, acc: seq<Token>, defined: bool, depth: int, integer: bool,
          fuel: nat, more: nat)
    requires Valid(s) && fuel <= more && !CollectDollar(s, t, acc, defined, depth, integer, fuel).EvaluationStuck?
    ensures CollectDollar(s, t, acc, defined, depth, integer, more)
         == CollectDollar(s, t, acc, defined, depth, integer, fuel)
    decreases fuel, 1
  {
    hide ExpandDefineIntoSource, EvaluateList, CollectDollarNext;
    if t.typ == TT_NAME {
      if defined || t.str == "defined" {
        MoreDollarNext(s, acc + [t], !defined, depth, integer, fuel, more);
      } else if t.str in s.defs {
        MoreExpansion(s, s.defs[t.str], fuel, more);
        if ExpandDefineIntoSource(s, s.defs[t.str], fuel).Ok? {
          MoreDollarNext(ExpandDefineIntoSource(s, s.defs[t.str], fuel).src, acc, defined, depth, integer, fuel, more);
        }
      }
    } else if t.typ != TT_STRING && t.typ != TT_LITERAL {
      var depth' := if t.str != "" && t.str[0] == '(' then depth + 1
          else if t.str != "" && t.str[0] == ')' then depth - 1 else depth;
      if depth' > 0 { MoreDollarNext(s, acc + [t], defined, depth', integer, fuel, more); }
    }
  }

  lemma {:induction false} MoreDollarNext(s: Source, acc: seq<Token>, defined: bool, depth: int, integer: bool,
          fuel: nat, more: nat)
    requires Valid(s) && fuel <= more && !CollectDollarNext(s, acc, defined, depth, integer, fuel).EvaluationStuck?
    ensures CollectDollarNext(s, acc, defined, depth, integer, more)
         == CollectDollarNext(s, acc, defined, depth, integer, fuel)
    decreases fuel, 0
  {
    hide ReadSourceToken, CollectDollar, EvaluateList;
    if ReadSourceToken(s).Got? {
      MoreDollar(ReadSourceToken(s).src, ReadSourceToken(s).token, acc, defined, depth, integer, fuel - 1, more - 1);
    }
  }

  // ------------------------------------------------------------- directives

  lemma MoreDollarDirective(s: Source, fuel: nat, more: nat)
    requires Valid(s) && fuel <= more && !ReadDollarDirective(s, fuel).Stuck?
    ensures ReadDollarDirective(s, more) == ReadDollarDirective(s, fuel)
  {
    hide ReadSourceToken, CollectDollar;
    if ReadSourceToken(s).Got? {
      var s1 := ReadSourceToken(s).src;
      if ReadSourceToken(s1).Got? {
        var s2 := ReadSourceToken(s1).src;
        if ReadSourceToken(s2).Got? {
          var Got(t, s3) := ReadSourceToken(s2);
          if ReadSourceToken(s).token.str == "evalint" {
            if !CollectDollar(s3, t, [], false, 1, true, fuel).EvaluationStuck? {
              MoreDollar(s3, t, [], false, 1, true, fuel, more);
            }
          } else if ReadSourceToken(s).token.str == "evalfloat" {
            if !CollectDollar(s3, t, [], false, 1, false, fuel).EvaluationStuck? {
              MoreDollar(s3, t, [], false, 1, false, fuel, more);
            }
          }
        }
      }
    }
  }

  lemma {:induction false} MoreCheck(s: Source, str: string, fuel: nat, more: nat)
    requires Valid(s) && fuel <= more && CheckTokenString(s, str, fuel).0.Some?
    ensures CheckTokenString(s, str, more) == CheckTokenString(s, str, fuel)
    decreases fuel, 0
  {
    hide ReadToken;
    MoreToken(s, fuel - 1, more - 1, fuel - 1, more - 1);
  }

  lemma {:induction false} MoreTail(s: Source, d: Define, fuel: nat, more: nat)
    requires Valid(s) && fuel <= more && !DefineTail(s, d, fuel).Stuck?
    ensures DefineTail(s, d, more) == DefineTail(s, d, fuel)
    decreases fuel, 1
  {
    hide ReadLine, ReadBody, CheckTokenString, ReadParmNames;
    if ReadLine(s).Got? {
      var Got(u, s1) := ReadLine(s);
      if !u.whitespace && u.str == "(" { MoreCheck(s1, ")", fuel, more); }
    }
  }

  lemma {:induction false} MoreDefine(s: Source, fuel: nat, more: nat)
    requires Valid(s) && fuel <= more && !DirectiveDefine(s, fuel).Stuck?
    ensures DirectiveDefine(s, more) == DirectiveDefine(s, fuel)
    decreases fuel, 2
  {
    hide ReadLine, DefineTail, DirectiveUndef;
    if s.skip <= 0 && ReadLine(s).Got? {
      var Got(t, s') := ReadLine(s);
      if t.typ == TT_NAME && !(t.str in s'.defs && s'.defs[t.str].fixed) {
        var undefined := if t.str in s'.defs then DirectiveUndef(UnreadSourceToken(s', t)) else Ok(s');
        var d := Define(t.str, [], [], false);
        if undefined.Ok? { MoreTail(SetDefine(undefined.src, d), d, fuel, more); }
      }
    }
  }

  lemma {:induction false} MoreDirective(name: string, s: Source, fuel: nat, more: nat)
    requires Valid(s) && fuel <= more && !Directive(name, s, fuel).Stuck?
    ensures Directive(name, s, more) == Directive(name, s, fuel)
    decreases fuel, 3
  {
    hide EvaluateLine, DirectiveDefine, DirectiveInclude, DirectiveUndef, DirectiveIfdef, DirectiveElse, DirectiveEndif,
      SkipLine;
    if name == "define" {
      MoreDefine(s, fuel, more);
    } else if name == "if" || name == "eval" {
      MoreEvaluation(s, true, fuel, more);
    } else if name == "evalfloat" {
      MoreEvaluation(s, false, fuel, more);
    } else if name == "elif" && TopIndent(s).Some? && TopIndent(s).value.typ != INDENT_ELSE {
      MoreEvaluation(PopIndent(s), true, fuel, more);
    }
  }

  // ---------------------------------------------------------- PC_ReadToken

  lemma {:induction false} MoreStep(s: Source, fuel: nat, more: nat)
    requires Valid(s) && fuel <= more && !ReadStep(s, fuel).StepStuck?
    ensures ReadStep(s, more) == ReadStep(s, fuel)
    decreases fuel, 5
  {
    hide ReadSourceToken, Directive, ReadDollarDirective, ExpandDefineIntoSource;
    if ReadSourceToken(s).Got? {
      var Got(t, s') := ReadSourceToken(s);
      if StartsWith(t, '#') {
        if ReadSourceToken(s').Got? {
          var Got(u, s'') := ReadSourceToken(s');
          if u.linescrossed == 0 && u.typ == TT_NAME { MoreDirective(u.str, s'', fuel, more); }
        }
      } else if StartsWith(t, '$') {
        MoreDollarDirective(s', fuel, more);
      } else if s'.skip == 0 && t.typ == TT_NAME && t.str in s'.defs {
        MoreExpansion(s', s'.defs[t.str], fuel, more);
      }
    }
  }

  lemma {:induction false} MoreToken(s: Source, rounds: nat, more: nat, fuel: nat, more': nat)
    requires Valid(s) && rounds <= more && fuel <= more' && !ReadToken(s, rounds, fuel).ReadStuck?
    ensures ReadToken(s, more, more') == ReadToken(s, rounds, fuel)
    decreases fuel, 6, rounds
  {
    hide ReadStep;
    MoreStep(s, fuel, more');
    match ReadStep(s, fuel)
    case Continues(s') => MoreToken(s', rounds - 1, more - 1, fuel, more');
    case Returns(t, s') => if t.typ == TT_STRING { MoreToken(s', rounds - 1, more - 1, fuel, more'); }
    case _ =>
  }

  /** Calls that get to the end do so under all larger bounds, with the same result. */
  lemma {:induction false} MoreAll(s: Source, calls: nat, rounds: nat, fuel: nat, calls': nat, rounds': nat, fuel': nat)
    requires Valid(s) && calls <= calls' && rounds <= rounds' && fuel <= fuel' && ReadAll(s, calls, rounds, fuel).Some?
    ensures ReadAll(s, calls', rounds', fuel') == ReadAll(s, calls, rounds, fuel)
    decreases calls
  {
    hide ReadToken;
    MoreToken(s, rounds, rounds', fuel, fuel');
    if ReadToken(s, rounds, fuel).Got? {
      MoreAll(ReadToken(s, rounds, fuel).src, calls - 1, rounds, fuel, calls' - 1, rounds', fuel');
    }
  }
}
