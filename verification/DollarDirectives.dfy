/** $evalint: an expression in the text is replaced by its value. */
module DollarDirectives {
  import opened Options
  import opened Tokens
  import opened Macros
  import opened Precompiler
  import opened Streams
  import opened Calls
  import opened Preprocessing
  import Bits
  import opened Numerals
  import E = Evaluator
  import T = ExpressionTrees
  import C = EvaluatorCorrectness

  /** The tokens up to the parenthesis that closes `depth` open ones, with their
      defines and calls expanded, and what follows it. A name behind `defined` is left
      alone. */
  ghost function Gathered(defs: map<string, Define>, ts: seq<Token>, defined: bool, depth: int,
          fuel: nat): Option<(seq<Token>, seq<Token>)>
    decreases fuel
  {
    if fuel == 0 || ts == [] then None
    else
      var (t, later) := (ts[0], ts[1..]);
      if t.typ == TT_NAME && !defined && t.str != "defined" then
        if t.str !in defs then None
        else
          match Spread(defs, defs[t.str], later, fuel - 1)
          case None => None
          case Some((body, left)) =>
            if fuel - 1 < SpreadNeed(defs, defs[t.str], later, fuel - 1) then None
            else Gathered(defs, body + left, defined, depth, fuel - 1)
      else if t.typ == TT_STRING || t.typ == TT_LITERAL then None
      else
        var depth' := DepthAfter(t, depth);
        if depth' <= 0 then Some(([], later))
        else
          match Gathered(defs, later, if t.typ == TT_NAME then !defined else defined, depth', fuel - 1)
          case None => None
          case Some((g, rest)) => Some(([t] + g, rest))
  }

  function DepthAfter(t: Token, depth: int): int {
    if t.typ == TT_NAME || t.str == "" then depth
    else if t.str[0] == '(' then depth + 1
    else if t.str[0] == ')' then depth - 1
    else depth
  }

  lemma GathersSomething(defs: map<string, Define>, ts: seq<Token>, defined: bool, depth: int, fuel: nat)
    requires Gathered(defs, ts, defined, depth, fuel).Some?
    ensures fuel > 0 && ts != []
  {
  }

  /** The first token gathered: a name is expanded, the last parenthesis ends it all,
      and any other token is stored. */
  lemma GathersFirst(defs: map<string, Define>, t: Token, later: seq<Token>, defined: bool, depth: int, fuel: nat)
    requires fuel > 0 && Gathered(defs, [t] + later, defined, depth, fuel).Some?
    ensures var all := Gathered(defs, [t] + later, defined, depth, fuel);
            if t.typ == TT_NAME && !defined && t.str != "defined" then
              && t.str in defs && Spread(defs, defs[t.str], later, fuel - 1).Some?
              && fuel - 1 >= SpreadNeed(defs, defs[t.str], later, fuel - 1)
              && var (body, left) := Spread(defs, defs[t.str], later, fuel - 1).value;
              all == Gathered(defs, body + left, defined, depth, fuel - 1)
            else if DepthAfter(t, depth) <= 0 then
              t.typ != TT_STRING && t.typ != TT_LITERAL && all == Some(([], later))
            else
              var g := Gathered(defs, later, if t.typ == TT_NAME then !defined else defined, DepthAfter(t, depth),
                  fuel - 1);
              && t.typ != TT_STRING && t.typ != TT_LITERAL && g.Some?
              && all == Some(([t] + g.value.0, g.value.1))
  {
    hide Spread, SpreadNeed, DepthAfter;
    assert ([t] + later)[1..] == later;
  }

  lemma CollectsDollar(s: Source, t: Token, acc: seq<Token>, defined: bool, depth: int, fuel: nat)
    requires Valid(s) && t.typ != TT_STRING && t.typ != TT_LITERAL
    requires !(t.typ == TT_NAME && !defined && t.str != "defined")
    ensures CollectDollar(s, t, acc, defined, depth, true, fuel)
         == if DepthAfter(t, depth) <= 0 && t.typ != TT_NAME then EvaluateList(s, acc, true)
            else CollectDollarNext(s, acc + [t], if t.typ == TT_NAME then !defined else defined, DepthAfter(t, depth),
                true, fuel)
  {
    hide EvaluateList, ExpandDefineIntoSource, CollectDollarNext;
  }

  lemma NameKeepsDepth(t: Token, depth: int)
    ensures t.typ == TT_NAME ==> DepthAfter(t, depth) == depth
  {
  }

  lemma {:induction false} GathersFrom(s: Source, c: Context, ts: seq<Token>, acc: seq<Token>, defined: bool,
          depth: int, fuel: nat)
      returns (s': Source)
    requires At(s, c, ts) && depth > 0 && Gathered(c.defs, ts, defined, depth, fuel).Some?
    ensures At(s', c, Gathered(c.defs, ts, defined, depth, fuel).value.1)
    ensures CollectDollarNext(s, acc, defined, depth, true, fuel)
         == EvaluateList(s', acc + Gathered(c.defs, ts, defined, depth, fuel).value.0, true)
    decreases fuel
  {
    hide EvaluateList, ReadSourceToken, Spread, SpreadNeed, Expands, ExpandDefineIntoSource, DepthAfter, Gathered, At;
    AtIsValid(s, c, ts);
    GathersSomething(c.defs, ts, defined, depth, fuel);
    var (t, later) := (ts[0], ts[1..]);
    assert ts == [t] + later;
    GathersFirst(c.defs, t, later, defined, depth, fuel);
    ReadsNext(s, c, t, later);
    var s1 := ReadSourceToken(s).src;
    AtIsValid(s1, c, later);
    assert CollectDollarNext(s, acc, defined, depth, true, fuel)
        == CollectDollar(s1, t, acc, defined, depth, true, fuel - 1);
    if t.typ == TT_NAME && !defined && t.str != "defined" {
      var (body, left) := Spread(c.defs, c.defs[t.str], later, fuel - 1).value;
      assert later + [] == later && body + (left + []) == body + left;
      SameDefines(s1, c, later);
      var s2 := SpreadStep(s1, c, c.defs[t.str], later, [], fuel - 1);
      ExpandsNow(s1, c.defs[t.str], s2, SpreadNeed(c.defs, c.defs[t.str], later, fuel - 1), fuel - 1);
      assert CollectDollar(s1, t, acc, defined, depth, true, fuel - 1)
          == CollectDollarNext(s2, acc, defined, depth, true, fuel - 1);
      s' := GathersFrom(s2, c, body + left, acc, defined, depth, fuel - 1);
    } else if DepthAfter(t, depth) <= 0 {
      NameKeepsDepth(t, depth);
      CollectsDollar(s1, t, acc, defined, depth, fuel - 1);
      s' := s1;
      assert acc + [] == acc;
    } else {
      var defined' := if t.typ == TT_NAME then !defined else defined;
      s' := GathersFrom(s1, c, later, acc + [t], defined', DepthAfter(t, depth), fuel - 1);
      CollectsDollar(s1, t, acc, defined, depth, fuel - 1);
      var g := Gathered(c.defs, later, defined', DepthAfter(t, depth), fuel - 1).value.0;
      assert (acc + [t]) + g == acc + ([t] + g);
    }
  }

  predicate IsDollar(t: Token, word: Token) {
    t.typ == TT_PUNCTUATION && t.str == "$" && word.typ == TT_NAME && word.str == "evalint" && word.linescrossed == 0
  }

  function NumberTokens(v: int): seq<Token> {
    if v < 0 then [SignToken(), IntegerToken(v)] else [IntegerToken(v)]
  }

  /** `$evalint ( E )` is replaced, in front of the untouched rest, by a number
      token with a minus sign before it exactly when the value is negative; the
      token's numeral reads back as the value's magnitude. The opening
      parenthesis can be any token. */
  lemma EvalintReplaces(s: Source, c: Context, dollar: Token, word: Token, open: Token, ts: seq<Token>, fuel: nat)
      returns (s': Source, v: int)
    requires IsDollar(dollar, word) && At(s, c, [dollar] + ([word] + ([open] + ts)))
    requires Gathered(c.defs, ts, false, 1, fuel + 1).Some?
    requires E.Evaluate(c.defs.Keys, Gathered(c.defs, ts, false, 1, fuel + 1).value.0, true).Success?
    ensures v == E.Evaluate(c.defs.Keys, Gathered(c.defs, ts, false, 1, fuel + 1).value.0, true).intvalue
    ensures ReadStep(s, fuel) == Continues(s')
    ensures At(s', c, NumberTokens(v) + Gathered(c.defs, ts, false, 1, fuel + 1).value.1)
    ensures DecimalValue(IntegerToken(v).str) == Bits.Abs(v) && (NumberTokens(v)[0] == SignToken() <==> v < 0)
  {
    hide Gathered, E.Evaluate;
    var (gathered, rest) := Gathered(c.defs, ts, false, 1, fuel + 1).value;
    v := E.Evaluate(c.defs.Keys, gathered, true).intvalue;
    ReadsNext(s, c, dollar, [word] + ([open] + ts));
    var s1 := ReadSourceToken(s).src;
    ReadsNext(s1, c, word, [open] + ts);
    var s2 := ReadSourceToken(s1).src;
    ReadsNext(s2, c, open, ts);
    var s3 := ReadSourceToken(s2).src;
    var s4 := GathersFrom(s3, c, ts, [], false, 1, fuel + 1);
    assert [] + gathered == gathered;
    GatheringReads(s3, c, ts, fuel);
    s' := UnreadNumber(s4, IntegerToken(v), v < 0);
    UnreadsNumber(s4, c, v, rest);
    DecimalRoundTrip(Bits.Abs(v));
  }

  lemma GatheringReads(s: Source, c: Context, ts: seq<Token>, fuel: nat)
    requires At(s, c, ts) && Gathered(c.defs, ts, false, 1, fuel + 1).Some?
    ensures ReadSourceToken(s).Got?
    ensures CollectDollarNext(s, [], false, 1, true, fuel + 1)
         == CollectDollar(ReadSourceToken(s).src, ReadSourceToken(s).token, [], false, 1, true, fuel)
  {
    assert ts == [ts[0]] + ts[1..];
    ReadsNext(s, c, ts[0], ts[1..]);
  }

  lemma UnreadsNumber(s: Source, c: Context, v: int, rest: seq<Token>)
    requires At(s, c, rest)
    ensures At(UnreadNumber(s, IntegerToken(v), v < 0), c, NumberTokens(v) + rest)
  {
    var s1 := UnreadSourceToken(s, IntegerToken(v));
    UnreadsNext(s, c, IntegerToken(v), rest);
    if v < 0 {
      UnreadsNext(s1, c, SignToken(), [IntegerToken(v)] + rest);
      assert [SignToken()] + ([IntegerToken(v)] + rest) == NumberTokens(v) + rest;
    }
  }

  // ------------------------------------------------- expressions in the text

  lemma GathersOne(defs: map<string, Define>, t: Token, later: seq<Token>, defined: bool, depth: int, fuel: nat)
    requires fuel > 0 && DepthAfter(t, depth) > 0 && t.typ != TT_STRING && t.typ != TT_LITERAL
    requires t.typ == TT_NAME ==> defined || t.str == "defined"
    ensures Gathered(defs, [t] + later, defined, depth, fuel)
         == match Gathered(defs, later, if t.typ == TT_NAME then !defined else defined, DepthAfter(t, depth), fuel - 1)
            case None => None
            case Some((g, after)) => Some(([t] + g, after))
  {
    hide Spread, SpreadNeed, DepthAfter;
    assert ([t] + later)[1..] == later;
  }

  /** Gathering the text of an expression only passes over it. */
  lemma {:induction false} GathersVerbatim(defs: map<string, Define>, ts: seq<Token>, rest: seq<Token>, defined: bool,
          depth: int, fuel: nat)
    requires Verbatim(ts, defined) && depth > 0 && StaysOpen(ts, depth) && fuel >= |ts|
    ensures Gathered(defs, ts + rest, defined, depth, fuel)
         == match Gathered(defs, rest, false, FinalDepth(ts, depth), fuel - |ts|)
            case None => None
            case Some((g, after)) => Some((ts + g, after))
    decreases ts
  {
    hide DepthAfter, Gathered;
    if ts == [] {
      assert ts + rest == rest;
      match Gathered(defs, rest, false, depth, fuel)
      case None =>
      case Some((g, after)) => assert [] + g == g;
    } else {
      var t := ts[0];
      assert ts + rest == [t] + (ts[1..] + rest);
      GathersOne(defs, t, ts[1..] + rest, defined, depth, fuel);
      GathersVerbatim(defs, ts[1..], rest, if t.typ == TT_NAME then !defined else defined, DepthAfter(t, depth),
          fuel - 1);
      match Gathered(defs, rest, false, FinalDepth(ts, depth), fuel - |ts|)
      case None =>
      case Some((g, after)) => assert [t] + (ts[1..] + g) == ts + g;
    }
  }

  function FinalDepth(ts: seq<Token>, depth: int): int {
    if ts == [] then depth else FinalDepth(ts[1..], DepthAfter(ts[0], depth))
  }

  predicate StaysOpen(ts: seq<Token>, depth: int) {
    if ts == [] then true else DepthAfter(ts[0], depth) > 0 && StaysOpen(ts[1..], DepthAfter(ts[0], depth))
  }

  /** Parentheses balance, and the depth never falls below where it starts. */
  ghost predicate BalancedText(ts: seq<Token>) {
    forall d {:trigger StaysOpen(ts, d)} :: d > 0 ==> StaysOpen(ts, d) && FinalDepth(ts, d) == d
  }

  lemma {:induction false} DepthConcat(ts: seq<Token>, us: seq<Token>, d: int)
    ensures FinalDepth(ts + us, d) == FinalDepth(us, FinalDepth(ts, d))
    ensures StaysOpen(ts + us, d) <==> StaysOpen(ts, d) && StaysOpen(us, FinalDepth(ts, d))
    decreases ts
  {
    if ts == [] {
      assert ts + us == us;
    } else {
      assert (ts + us)[0] == ts[0] && (ts + us)[1..] == ts[1..] + us;
      DepthConcat(ts[1..], us, DepthAfter(ts[0], d));
    }
  }

  lemma BalancedConcat(ts: seq<Token>, us: seq<Token>)
    requires BalancedText(ts) && BalancedText(us)
    ensures BalancedText(ts + us)
  {
    forall d | d > 0 ensures StaysOpen(ts + us, d) && FinalDepth(ts + us, d) == d {
      assert StaysOpen(ts, d) && StaysOpen(us, d);
      DepthConcat(ts, us, d);
    }
  }

  lemma BalancedToken(t: Token)
    requires forall d :: DepthAfter(t, d) == d
    ensures BalancedText([t])
  {
    assert [t][1..] == [];
  }

  lemma BalancedOperator(op: int)
    ensures BalancedText([T.OperatorToken(op)])
  {
    BalancedToken(T.OperatorToken(op));
  }

  lemma {:induction false} BalancedOperators(us: seq<int>)
    ensures BalancedText(T.OperatorTokens(us))
    decreases us
  {
    if us != [] {
      BalancedOperator(us[0]);
      BalancedOperators(us[1..]);
      BalancedConcat([T.OperatorToken(us[0])], T.OperatorTokens(us[1..]));
      assert T.OperatorTokens(us) == [T.OperatorToken(us[0])] + T.OperatorTokens(us[1..]);
    }
  }

  lemma BalancedParen(ts: seq<Token>)
    requires BalancedText(ts)
    ensures BalancedText([Open()] + ts + [Close()])
  {
    forall d | d > 0 ensures StaysOpen([Open()] + ts + [Close()], d) && FinalDepth([Open()] + ts + [Close()], d) == d {
      assert StaysOpen(ts, d + 1);
      assert [Open()][1..] == [] && [Close()][1..] == [];
      assert FinalDepth([Open()], d) == d + 1 && FinalDepth([Close()], d + 1) == d;
      DepthConcat([Open()], ts, d);
      DepthConcat([Open()] + ts, [Close()], d);
    }
  }

  lemma {:induction false} BalancedTree(e: T.Expr)
    ensures BalancedText(T.Flatten(e))
    decreases e, 1
  {
    match e
    case Number(i, f, negative) =>
      BalancedOperator(P_SUB);
      BalancedToken(T.NumberToken(i, f));
      BalancedConcat([T.OperatorToken(P_SUB)], [T.NumberToken(i, f)]);
      assert negative ==> T.Flatten(e) == [T.OperatorToken(P_SUB)] + [T.NumberToken(i, f)];
    case Defined(name, braces) =>
      BalancedToken(T.NameToken("defined"));
      BalancedToken(T.NameToken(name));
      BalancedParen([T.NameToken(name)]);
      BalancedConcat([T.NameToken("defined")],
          if braces then [Open()] + [T.NameToken(name)] + [Close()] else [T.NameToken(name)]);
      assert T.Flatten(e) == [T.NameToken("defined")] + if braces then [Open()] + [T.NameToken(name)] + [Close()]
          else [T.NameToken(name)];
    case Unary(us, e') =>
      BalancedOperators(us);
      BalancedTree(e');
      BalancedConcat(T.OperatorTokens(us), T.Flatten(e'));
    case Binary(op, l, r) =>
      BalancedTree(l);
      BalancedOperator(op);
      BalancedTree(r);
      BalancedConcat(T.Flatten(l), [T.OperatorToken(op)]);
      BalancedConcat(T.Flatten(l) + [T.OperatorToken(op)], T.Flatten(r));
    case Conditional(_, _, _) => BalancedConditional(e);
    case Paren(e') =>
      BalancedTree(e');
      BalancedParen(T.Flatten(e'));
  }

  lemma {:induction false} BalancedConditional(e: T.Expr)
    requires e.Conditional?
    ensures BalancedText(T.Flatten(e))
    decreases e, 0
  {
    var Conditional(c, a, b) := e;
    var (quest, colon) := ([T.OperatorToken(P_QUESTIONMARK)], [T.OperatorToken(P_COLON)]);
    BalancedTree(c);
    BalancedTree(a);
    BalancedTree(b);
    BalancedOperator(P_QUESTIONMARK);
    BalancedOperator(P_COLON);
    BalancedConcat(T.Flatten(c), quest);
    BalancedConcat(T.Flatten(c) + quest, T.Flatten(a));
    BalancedConcat(T.Flatten(c) + quest + T.Flatten(a), colon);
    BalancedConcat(T.Flatten(c) + quest + T.Flatten(a) + colon, T.Flatten(b));
  }

  /** `$evalint ( E )` over an expression puts the ordinary reading of E back. */
  lemma EvalintOfTree(s: Source, c: Context, dollar: Token, word: Token, e: T.Expr, rest: seq<Token>, fuel: nat)
      returns (s': Source)
    requires IsDollar(dollar, word) && C.Proper(e) && C.Named(e) && Lexed(e)
    requires At(s, c, [dollar] + ([word] + ([Open()] + (T.Flatten(C.Parenthesize(e)) + ([Close()] + rest)))))
    requires fuel >= |T.Flatten(C.Parenthesize(e))|
    requires C.Fits(E.INITIAL_SCAN, e, true) && !C.NestedInThird(e) && C.Reading(c.defs.Keys, e, true).Some?
    ensures ReadStep(s, fuel) == Continues(s')
    ensures At(s', c, NumberTokens(C.Reading(c.defs.Keys, e, true).value.intvalue) + rest)
  {
    hide ReadStep, E.Evaluate, C.Reading, C.Parenthesize, T.Flatten, C.Fits, C.Proper, Lexed, StaysOpen;
    var ts := T.Flatten(C.Parenthesize(e));
    var after := [Close()] + rest;
    ParenthesizeLexed(e);
    VerbatimTree(C.Parenthesize(e));
    BalancedTree(C.Parenthesize(e));
    assert StaysOpen(ts, 1) && FinalDepth(ts, 1) == 1;
    GathersVerbatim(c.defs, ts, after, false, 1, fuel + 1);
    GathersClose(c.defs, rest, fuel + 1 - |ts|);
    assert ts + [] == ts;
    C.EvaluateAnyTree(c.defs.Keys, e, true);
    var v;
    s', v := EvalintReplaces(s, c, dollar, word, Open(), ts + after, fuel);
  }

  lemma GathersClose(defs: map<string, Define>, rest: seq<Token>, fuel: nat)
    requires fuel > 0
    ensures Gathered(defs, [Close()] + rest, false, 1, fuel) == Some(([], rest))
  {
    assert ([Close()] + rest)[0] == Close() && ([Close()] + rest)[1..] == rest;
  }
}
