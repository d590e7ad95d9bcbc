/** The main result about the pre-compiler: reading a text to its end. */
module Preprocessing {
  import opened Options
  import opened Tokens
  import opened Macros
  import opened Precompiler
  import opened Streams
  import opened Conditionals
  import opened StringJoining
  import opened Fuel
  import E = Evaluator
  import T = ExpressionTrees
  import C = EvaluatorCorrectness

  /** Calling PC_ReadToken until it fails, on the lines of a text, returns exactly
      the tokens the recursive reading of the text yields, with adjacent strings
      joined; it leaves exactly the defines of that reading, and no conditional
      open. That is so under all large enough bounds. */
  lemma ReadsText(s: Source, c: Context, text: Text, depth: nat, fuel: nat) returns (n: nat, end: Source)
    requires At(s, c, Flatten(text)) && c.indents == [] && c.skip == 0 && Lined(text, 2)
    requires Preprocessed(c.defs, text, depth, fuel).Some?
    requires Quoted(Preprocessed(c.defs, text, depth, fuel).value.0)
    requires Fits(Preprocessed(c.defs, text, depth, fuel).value.0)
    ensures forall calls, rounds, more :: calls > n && rounds > n && more >= fuel ==>
              ReadAll(s, calls, rounds, more) == Some((Join(Preprocessed(c.defs, text, depth, fuel).value.0), end))
    ensures At(end, c.(defs := Preprocessed(c.defs, text, depth, fuel).value.1), [])
  {
    hide Preprocessed, Advance, Fits, Quoted;
    assert Flatten(text) + [] == Flatten(text);
    n, end := RunsText(s, c, text, [], 2, depth, fuel);
    var (out, defs) := Preprocessed(c.defs, text, depth, fuel).value;
    ReadsNothing(end, c.(defs := defs));
    forall calls, rounds, more | calls > n && rounds > n && more >= fuel
      ensures ReadAll(s, calls, rounds, more) == Some((Join(out), end))
    {
      ReadAllJoins(s, n, calls, rounds, fuel, out, end);
      MoreAll(s, calls, rounds, fuel, calls, rounds, more);
    }
  }

  // --------------------------------------------------- the first parameter

  lemma {:induction false} ParmNamesGrow(s: Source, d: Define)
    requires Valid(s) && ReadParmNames(s, d).0.Some?
    ensures ReadLine(s).Got? && d.parms + [ReadLine(s).token.str] <= ReadParmNames(s, d).0.value.parms
    decreases Remaining(s)
  {
    hide ReadLine;
    var d' := d.(parms := d.parms + [ReadLine(s).token.str]);
    var s' := ReadLine(s).src;
    if ReadLine(s').token.str != ")" { ParmNamesGrow(ReadLine(s').src, d'); }
  }

  /** In any state, a token put back by the look for a closing parenthesis becomes no
      parameter if it is the name of a define: what is put back is fully expanded. */
  lemma FirstParameterIsPlain(s: Source, d: Define, fuel: nat)
    requires Valid(s) && d.parms == [] && fuel > 0 && ReadToken(s, fuel - 1, fuel - 1).Got?
    requires OnLine(ReadToken(s, fuel - 1, fuel - 1).token) && ReadToken(s, fuel - 1, fuel - 1).token.str != ")"
    requires ReadToken(s, fuel - 1, fuel - 1).token.typ != TT_STRING
    ensures var s' := CheckTokenString(s, ")", fuel).1;
            var r := ReadParmNames(s', d).0;
            r.Some? ==> r.value.parms != [] && r.value.parms[0] !in s'.defs
  {
    hide ReadToken, ReadParmNames;
    GotIsRereadable(s, fuel - 1, fuel - 1);
    var Got(t, s2) := ReadToken(s, fuel - 1, fuel - 1);
    var s' := UnreadSourceToken(s2, t);
    ReadsPutBack(s2, t);
    if ReadParmNames(s', d).0.Some? {
      ParmNamesGrow(s', d);
      FirstIsName(s', d);
    }
  }

  lemma ReadsPutBack(s: Source, t: Token)
    requires Valid(s) && t.linescrossed == 0 && t.str != "\\"
    ensures ReadLine(UnreadSourceToken(s, t)) == Got(t, s)
  {
    assert ([t] + s.tokens)[1..] == s.tokens;
  }

  lemma FirstIsName(s: Source, d: Define)
    requires Valid(s) && ReadParmNames(s, d).0.Some?
    ensures ReadLine(s).Got? && ReadLine(s).token.typ == TT_NAME
  {
    hide ReadLine;
  }

  // ------------------------------------------- conditions that are expressions

  ghost predicate Lexed(e: T.Expr) {
    match e
    case Number(_, _, _) => true
    case Defined(name, _) => name != "\\" && name != "("
    case Unary(us, e) => (forall u <- us :: E.IsUnary(u)) && Lexed(e)
    case Binary(_, l, r) => Lexed(l) && Lexed(r)
    case Conditional(c, a, b) => Lexed(c) && Lexed(a) && Lexed(b)
    case Paren(e) => Lexed(e)
  }

  /** Tokens that are collected as they are: names come only behind `defined`,
      and are single. */
  ghost predicate Verbatim(ts: seq<Token>, defined: bool) {
    if ts == [] then !defined
    else
      && OnLine(ts[0])
      && (ts[0].typ == TT_NAME || ts[0].typ == TT_NUMBER || ts[0].typ == TT_PUNCTUATION)
      && (ts[0].typ == TT_NAME ==> defined || ts[0].str == "defined")
      && Verbatim(ts[1..], if ts[0].typ == TT_NAME then !defined else defined)
  }

  lemma {:induction false} VerbatimConcat(ts: seq<Token>, us: seq<Token>, defined: bool)
    requires Verbatim(ts, defined) && Verbatim(us, false)
    ensures Verbatim(ts + us, defined)
    decreases ts
  {
    if ts == [] {
      assert ts + us == us;
    } else {
      assert (ts + us)[0] == ts[0] && (ts + us)[1..] == ts[1..] + us;
      VerbatimConcat(ts[1..], us, if ts[0].typ == TT_NAME then !defined else defined);
    }
  }

  lemma VerbatimOperator(op: int)
    ensures Verbatim([T.OperatorToken(op)], false)
  {
    assert [T.OperatorToken(op)][1..] == [];
  }

  lemma {:induction false} VerbatimOperators(us: seq<int>)
    ensures Verbatim(T.OperatorTokens(us), false)
    decreases us
  {
    if us != [] {
      VerbatimOperator(us[0]);
      VerbatimOperators(us[1..]);
      VerbatimConcat([T.OperatorToken(us[0])], T.OperatorTokens(us[1..]), false);
      assert T.OperatorTokens(us) == [T.OperatorToken(us[0])] + T.OperatorTokens(us[1..]);
    }
  }

  lemma VerbatimFirst(t: Token, ts: seq<Token>, defined: bool)
    requires OnLine(t) && (t.typ == TT_NAME || t.typ == TT_NUMBER || t.typ == TT_PUNCTUATION)
    requires t.typ == TT_NAME ==> defined || t.str == "defined"
    requires Verbatim(ts, if t.typ == TT_NAME then !defined else defined)
    ensures Verbatim([t] + ts, defined)
  {
    assert ([t] + ts)[1..] == ts;
  }

  lemma VerbatimLast(t: Token, defined: bool)
    requires OnLine(t) && (t.typ == TT_NAME || t.typ == TT_NUMBER || t.typ == TT_PUNCTUATION)
    requires t.typ == TT_NAME <==> defined
    ensures Verbatim([t], defined)
  {
    assert [t][1..] == [];
  }

  lemma VerbatimAtom(e: T.Expr)
    requires (e.Number? || e.Defined?) && Lexed(e)
    ensures Verbatim(T.Flatten(e), false)
  {
    hide Verbatim;
    var ts := T.Flatten(e);
    if e.Number? {
      var (minus, number) := (T.OperatorToken(P_SUB), T.NumberToken(e.intvalue, e.floatvalue));
      VerbatimLast(number, false);
      VerbatimFirst(minus, [number], false);
      assert ts == if e.negative then [minus] + [number] else [number];
    } else if e.braces {
      VerbatimLast(ts[3], false);
      VerbatimFirst(ts[2], [ts[3]], true);
      VerbatimFirst(ts[1], [ts[2]] + [ts[3]], true);
      VerbatimFirst(ts[0], [ts[1]] + ([ts[2]] + [ts[3]]), false);
      assert ts == [ts[0]] + ([ts[1]] + ([ts[2]] + [ts[3]]));
    } else {
      VerbatimLast(ts[1], true);
      VerbatimFirst(ts[0], [ts[1]], false);
      assert ts == [ts[0]] + [ts[1]];
    }
  }

  lemma VerbatimAround(a: seq<Token>, b: seq<Token>, c: seq<Token>)
    requires Verbatim(a, false) && Verbatim(b, false) && Verbatim(c, false)
    ensures Verbatim(a + b + c, false)
  {
    VerbatimConcat(a, b, false);
    VerbatimConcat(a + b, c, false);
  }

  /** The text of an expression is collected as it is. */
  lemma {:induction false} VerbatimTree(e: T.Expr)
    requires Lexed(e)
    ensures Verbatim(T.Flatten(e), false)
    decreases e
  {
    match e
    case Number(_, _, _) => VerbatimAtom(e);
    case Defined(_, _) => VerbatimAtom(e);
    case Unary(us, e') =>
      VerbatimOperators(us);
      VerbatimTree(e');
      VerbatimConcat(T.OperatorTokens(us), T.Flatten(e'), false);
    case Binary(op, l, r) =>
      VerbatimTree(l);
      VerbatimOperator(op);
      VerbatimTree(r);
      VerbatimAround(T.Flatten(l), [T.OperatorToken(op)], T.Flatten(r));
    case Conditional(c, a, b) =>
      VerbatimTree(c);
      VerbatimOperator(P_QUESTIONMARK);
      VerbatimTree(a);
      VerbatimOperator(P_COLON);
      VerbatimTree(b);
      VerbatimAround(T.Flatten(c), [T.OperatorToken(P_QUESTIONMARK)], T.Flatten(a));
      VerbatimAround(T.Flatten(c) + [T.OperatorToken(P_QUESTIONMARK)] + T.Flatten(a), [T.OperatorToken(P_COLON)],
          T.Flatten(b));
    case Paren(e') =>
      VerbatimTree(e');
      assert [Open()][1..] == [] && [Close()][1..] == [];
      VerbatimAround([Open()], T.Flatten(e'), [Close()]);
  }

  lemma {:induction false} CollectedVerbatim(defs: map<string, Define>, ts: seq<Token>, defined: bool, fuel: nat)
    requires Verbatim(ts, defined) && fuel >= |ts|
    ensures Collect(defs, ts, defined, fuel) == Collected(ts)
    decreases ts
  {
    VerbatimIsLogical(ts, defined);
    if ts != [] {
      CollectedVerbatim(defs, ts[1..], if ts[0].typ == TT_NAME then !defined else defined, fuel - 1);
      assert Rest(ts) == ts[1..] && [ts[0]] + ts[1..] == ts;
    }
  }

  lemma NothingLogical()
    ensures Logical([]) == []
  {
  }

  lemma OnLineIsNoBackslash(t: Token)
    requires OnLine(t)
    ensures !IsBackslash(t)
  {
  }

  lemma {:induction false} VerbatimIsLogical(ts: seq<Token>, defined: bool)
    requires Verbatim(ts, defined)
    ensures Logical(ts) == ts
    decreases ts
  {
    hide IsBackslash, Logical;
    if ts == [] {
      NothingLogical();
    } else {
      assert ts == [ts[0]] + ts[1..];
      OnLineIsNoBackslash(ts[0]);
      LogicalOne(ts[0], ts[1..]);
      VerbatimIsLogical(ts[1..], if ts[0].typ == TT_NAME then !defined else defined);
    }
  }

  lemma {:induction false} ParenthesizeLexed(e: T.Expr)
    requires C.Proper(e) && Lexed(e)
    ensures Lexed(C.Parenthesize(e))
    decreases e
  {
    match e
    case Unary(us, e') => ParenthesizeLexed(e');
    case Binary(_, l, r) => ParenthesizeLexed(l); ParenthesizeLexed(r);
    case Conditional(c, a, b) => ParenthesizeLexed(c); ParenthesizeLexed(a); ParenthesizeLexed(b);
    case Paren(e') => ParenthesizeLexed(e');
    case _ =>
  }

  /** An #if over an expression takes its branch exactly when the ordinary reading
      of the expression is not zero, and is an error exactly when the expression
      is too large, nests a ?: in a third operand, or has no value. */
  lemma IfTakesReading(defs: map<string, Define>, e: T.Expr, fuel: nat)
    requires C.Proper(e) && C.Named(e) && Lexed(e)
    requires fuel + 1 >= |T.Flatten(C.Parenthesize(e))|
    ensures Taken(defs, If(T.Flatten(C.Parenthesize(e))), fuel)
         == if !C.Fits(E.INITIAL_SCAN, e, true) || C.NestedInThird(e) || C.Reading(defs.Keys, e, true).None? then None
            else Some(C.Reading(defs.Keys, e, true).value.intvalue != 0)
  {
    hide E.Evaluate, C.Reading, C.Parenthesize, C.Fits, C.NestedInThird, T.Flatten, C.Proper, C.Named;
    ParenthesizeLexed(e);
    VerbatimTree(C.Parenthesize(e));
    CollectedVerbatim(defs, T.Flatten(C.Parenthesize(e)), false, fuel + 1);
    C.EvaluateAnyTree(defs.Keys, e, true);
  }
}
