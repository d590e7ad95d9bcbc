/** What PC_EvaluateTokens computes on the text of an expression, compared with
    the ordinary reading of that text, and what it does on any token list. */
module EvaluatorCorrectness {
  import opened Tokens
  import opened Options
  import opened Evaluator
  import opened ExpressionTrees

  // ------------------------------------------------------ the scanning phase

  predicate UsesIntegerOnly(e: Expr) {
    match e
    case Number(_, _, _) => false
    case Defined(_, _) => false
    case Unary(us, e) => (exists u <- us :: IntegerOnly(u)) || UsesIntegerOnly(e)
    case Binary(op, l, r) => IntegerOnly(op) || UsesIntegerOnly(l) || UsesIntegerOnly(r)
    case Conditional(c, a, b) => UsesIntegerOnly(c) || UsesIntegerOnly(a) || UsesIntegerOnly(b)
    case Paren(e) => UsesIntegerOnly(e)
  }

  function ValueCount(e: Expr): nat {
    match e
    case Number(_, _, _) => 1
    case Defined(_, _) => 1
    case Unary(_, e) => ValueCount(e)
    case Binary(_, l, r) => ValueCount(l) + ValueCount(r)
    case Conditional(c, a, b) => ValueCount(c) + ValueCount(a) + ValueCount(b)
    case Paren(e) => ValueCount(e)
  }

  function OperatorCount(e: Expr): nat {
    match e
    case Number(_, _, _) => 0
    case Defined(_, _) => 0
    case Unary(us, e) => |us| + OperatorCount(e)
    case Binary(_, l, r) => OperatorCount(l) + 1 + OperatorCount(r)
    case Conditional(c, a, b) => OperatorCount(c) + OperatorCount(a) + OperatorCount(b) + 2
    case Paren(e) => OperatorCount(e)
  }

  predicate Fits(st: ScanState, e: Expr, integer: bool) {
    && |st.vals| + ValueCount(e) <= MAX_VALUES
    && |st.ops| + OperatorCount(e) <= MAX_OPERATORS
    && (integer || !UsesIntegerOnly(e))
  }

  /** Where an operand may start. */
  ghost predicate Ready(st: ScanState) {
    && !st.lastwasvalue && !st.negativevalue && st.parentheses >= 0
    && |st.vals| <= MAX_VALUES && |st.ops| <= MAX_OPERATORS
  }

  /** Names are names: the lexer never returns "(" as one. */
  ghost predicate Named(e: Expr) {
    match e
    case Number(_, _, _) => true
    case Defined(name, _) => name != "("
    case Unary(_, e) => Named(e)
    case Binary(_, l, r) => Named(l) && Named(r)
    case Conditional(c, a, b) => Named(c) && Named(a) && Named(b)
    case Paren(e) => Named(e)
  }

  ghost function After(defines: set<string>, st: ScanState, e: Expr): ScanState {
    st.(vals := st.vals + Vals(defines, e), ops := st.ops + Ops(e, st.parentheses), lastwasvalue := true)
  }

  ghost function Then(defines: set<string>, rest: seq<Token>, st: ScanState, fits: bool, integer: bool): ScanResult {
    if fits then Scan(defines, rest, st, integer) else ScanFailure
  }

  lemma {:induction false} Counts(defines: set<string>, e: Expr, d: int)
    ensures |Vals(defines, e)| == ValueCount(e) > 0 && |Ops(e, d)| == OperatorCount(e)
    decreases e
  {
    match e
    case Unary(us, e') => Counts(defines, e', d); UnaryCount(us, d);
    case Binary(_, l, r) => Counts(defines, l, d); Counts(defines, r, d);
    case Conditional(c, a, b) => Counts(defines, c, d); Counts(defines, a, d); Counts(defines, b, d);
    case Paren(e') => Counts(defines, e', d + 1);
    case _ =>
  }

  lemma {:induction false} UnaryCount(us: seq<int>, d: int)
    ensures |UnaryOps(us, d)| == |us|
    decreases us
  {
    if us != [] { UnaryCount(us[1..], d); }
  }

  lemma ScanOne(defines: set<string>, t: Token, rest: seq<Token>, st: ScanState, integer: bool)
    ensures var r := ScanStep(defines, [t] + rest, st, integer);
            Scan(defines, [t] + rest, st, integer) == if r.Scanned? then Scan(defines, r.rest, r.state, integer) else r
    ensures t.typ == TT_PUNCTUATION ==>
              ScanStep(defines, [t] + rest, st, integer) == ScanPunctuation(t.subtype, rest, st, integer)
    ensures t.typ == TT_NUMBER ==> ScanStep(defines, [t] + rest, st, integer) == ScanNumber(t, rest, st)
  {
    assert ([t] + rest)[1..] == rest;
  }

  lemma ScanMinus(defines: set<string>, rest: seq<Token>, st: ScanState, integer: bool)
    requires Ready(st)
    ensures Scan(defines, [OperatorToken(P_SUB)] + rest, st, integer)
         == Scan(defines, rest, st.(negativevalue := true), integer)
  {
    hide Spelling;
    ScanOne(defines, OperatorToken(P_SUB), rest, st, integer);
  }

  lemma ScanNumeral(defines: set<string>, e: Expr, rest: seq<Token>, st: ScanState, integer: bool)
    requires e.Number? && Ready(st)
    ensures Scan(defines, [NumberToken(e.intvalue, e.floatvalue)] + rest, st.(negativevalue := e.negative), integer)
         == Then(defines, rest, After(defines, st, e), Fits(st, e, integer), integer)
  {
    assert st.ops + [] == st.ops;
    ScanOne(defines, NumberToken(e.intvalue, e.floatvalue), rest, st.(negativevalue := e.negative), integer);
  }

  lemma ScanLiteral(defines: set<string>, e: Expr, rest: seq<Token>, st: ScanState, integer: bool)
    requires e.Number? && Ready(st)
    ensures Scan(defines, Flatten(e) + rest, st, integer)
         == Then(defines, rest, After(defines, st, e), Fits(st, e, integer), integer)
  {
    hide Spelling, Scan, Then, After, Fits;
    var number := NumberToken(e.intvalue, e.floatvalue);
    ScanNumeral(defines, e, rest, st, integer);
    if e.negative {
      assert Flatten(e) + rest == [OperatorToken(P_SUB)] + ([number] + rest);
      ScanMinus(defines, [number] + rest, st, integer);
    }
  }

  lemma ScanDefined(defines: set<string>, e: Expr, rest: seq<Token>, st: ScanState, integer: bool)
    requires e.Defined? && Named(e) && Ready(st)
    ensures Scan(defines, Flatten(e) + rest, st, integer)
         == Then(defines, rest, After(defines, st, e), Fits(st, e, integer), integer)
  {
    var ts := Flatten(e) + rest;
    assert st.ops + [] == st.ops;
    assert ts[..|Flatten(e)|] == Flatten(e) && ts[|Flatten(e)|..] == rest;
    if e.braces {
      assert ts[1] == Open() && ts[2] == NameToken(e.name) && ts[3] == Close();
    } else {
      assert ts[1] == NameToken(e.name);
    }
    assert ScanStep(defines, ts, st, integer) == ScanName(defines, ts, st);
  }

  /** A two-place operator, ? or : after a complete operand. */
  lemma ScanOperator(defines: set<string>, op: int, rest: seq<Token>, st: ScanState, integer: bool)
    requires IsBinary(op) || op == P_QUESTIONMARK || op == P_COLON
    requires st.lastwasvalue && !st.negativevalue
    ensures Scan(defines, [OperatorToken(op)] + rest, st, integer)
         == Then(defines, rest, st.(ops := st.ops + [OperatorAt(op, st.parentheses)], lastwasvalue := false),
                 |st.ops| < MAX_OPERATORS && (integer || !IntegerOnly(op)), integer)
  {
    hide Spelling;
    ScanOne(defines, OperatorToken(op), rest, st, integer);
  }

  /** A one-place operator where an operand is awaited. */
  lemma ScanUnaryOperator(defines: set<string>, u: int, rest: seq<Token>, st: ScanState, integer: bool)
    requires IsUnary(u) && Ready(st)
    ensures Scan(defines, [OperatorToken(u)] + rest, st, integer)
         == Then(defines, rest, st.(ops := st.ops + [OperatorAt(u, st.parentheses)]),
                 |st.ops| < MAX_OPERATORS && (integer || !IntegerOnly(u)), integer)
  {
    hide Spelling;
    ScanOne(defines, OperatorToken(u), rest, st, integer);
  }

  lemma {:induction false} ScanUnaries(defines: set<string>, us: seq<int>, rest: seq<Token>, st: ScanState,
          integer: bool)
    requires (forall u <- us :: IsUnary(u)) && Ready(st)
    ensures Scan(defines, OperatorTokens(us) + rest, st, integer)
         == Then(defines, rest, st.(ops := st.ops + UnaryOps(us, st.parentheses)),
                 |st.ops| + |us| <= MAX_OPERATORS && (integer || forall u <- us :: !IntegerOnly(u)), integer)
    decreases us
  {
    hide Spelling, Scan, IntegerOnly, OperatorToken;
    if us == [] {
      assert OperatorTokens(us) + rest == rest && st.ops + [] == st.ops;
    } else {
      var o := OperatorAt(us[0], st.parentheses);
      assert us[0] in us && us == [us[0]] + us[1..];
      assert OperatorTokens(us) + rest == [OperatorToken(us[0])] + (OperatorTokens(us[1..]) + rest);
      ScanUnaryOperator(defines, us[0], OperatorTokens(us[1..]) + rest, st, integer);
      if |st.ops| < MAX_OPERATORS && (integer || !IntegerOnly(us[0])) {
        var st' := st.(ops := st.ops + [o]);
        assert st'.ops + UnaryOps(us[1..], st.parentheses) == st.ops + UnaryOps(us, st.parentheses);
        ScanUnaries(defines, us[1..], rest, st', integer);
      }
    }
  }

  /** Scanning the text of a tree appends exactly its values and operators, or
      fails because there are too many or one is illegal on floats. */
  lemma {:induction false} ScanTree(defines: set<string>, e: Expr, rest: seq<Token>, st: ScanState, integer: bool)
    requires Grouped(e) && Named(e) && Ready(st)
    ensures Scan(defines, Flatten(e) + rest, st, integer)
         == Then(defines, rest, After(defines, st, e), Fits(st, e, integer), integer)
    decreases e, 1
  {
    match e
    case Number(_, _, _) => ScanLiteral(defines, e, rest, st, integer);
    case Defined(_, _) => ScanDefined(defines, e, rest, st, integer);
    case Unary(_, _) => ScanUnary(defines, e, rest, st, integer);
    case Binary(_, _, _) => ScanBinary(defines, e, rest, st, integer);
    case Conditional(_, _, _) => ScanConditional(defines, e, rest, st, integer);
    case Paren(_) => ScanParen(defines, e, rest, st, integer);
  }

  lemma {:induction false} ScanUnary(defines: set<string>, e: Expr, rest: seq<Token>, st: ScanState, integer: bool)
    requires e.Unary? && Grouped(e) && Named(e) && Ready(st)
    ensures Scan(defines, Flatten(e) + rest, st, integer)
         == Then(defines, rest, After(defines, st, e), Fits(st, e, integer), integer)
    decreases e, 0
  {
    var Unary(us, e') := e;
    var st' := st.(ops := st.ops + UnaryOps(us, st.parentheses));
    UnaryCount(us, st.parentheses);
    ScanUnaries(defines, us, Flatten(e') + rest, st, integer);
    if |st'.ops| <= MAX_OPERATORS {
      ScanTree(defines, e', rest, st', integer);
    }
    AfterUnary(defines, st, us, e', rest);
  }

  lemma {:induction false} ScanBinary(defines: set<string>, e: Expr, rest: seq<Token>, st: ScanState, integer: bool)
    requires e.Binary? && Grouped(e) && Named(e) && Ready(st)
    ensures Scan(defines, Flatten(e) + rest, st, integer)
         == Then(defines, rest, After(defines, st, e), Fits(st, e, integer), integer)
    decreases e, 0
  {
    var Binary(op, l, r) := e;
    var ts := [OperatorToken(op)] + (Flatten(r) + rest);
    assert Flatten(e) + rest == Flatten(l) + ts;
    ScanTree(defines, l, ts, st, integer);
    ReadyAfter(defines, st, l, integer);
    if Fits(st, l, integer) {
      ScanRight(defines, op, r, rest, After(defines, st, l), integer);
    }
    AfterBinary(defines, st, op, l, r, integer);
  }

  lemma {:induction false} ScanConditional(defines: set<string>, e: Expr, rest: seq<Token>, st: ScanState,
          integer: bool)
    requires e.Conditional? && Grouped(e) && Named(e) && Ready(st)
    ensures Scan(defines, Flatten(e) + rest, st, integer)
         == Then(defines, rest, After(defines, st, e), Fits(st, e, integer), integer)
    decreases e, 0
  {
    var Conditional(c, a, b) := e;
    var (st1, colon) := (After(defines, st, c), [OperatorToken(P_COLON)] + (Flatten(b) + rest));
    FlattenConditional(c, a, b, rest);
    ScanTree(defines, c, [OperatorToken(P_QUESTIONMARK)] + (Flatten(a) + colon), st, integer);
    ReadyAfter(defines, st, c, integer);
    if Fits(st, c, integer) {
      ScanRight(defines, P_QUESTIONMARK, a, colon, st1, integer);
      if FitsOperator(st1, P_QUESTIONMARK, a, integer) {
        ScanRight(defines, P_COLON, b, rest, AfterOperator(defines, st1, P_QUESTIONMARK, a), integer);
      }
    }
    AfterConditional(defines, st, c, a, b, integer);
  }

  lemma AfterParen(defines: set<string>, e: Expr, st: ScanState, integer: bool)
    requires Ready(st)
    ensures var st' := st.(parentheses := st.parentheses + 1);
            && Ready(st') && Fits(st', e, integer) == Fits(st, Paren(e), integer)
            && After(defines, st', e).(parentheses := st.parentheses) == After(defines, st, Paren(e))
            && After(defines, st', e).lastwasvalue && !After(defines, st', e).negativevalue
            && After(defines, st', e).parentheses == st.parentheses + 1
  {
  }

  lemma ScanOpen(defines: set<string>, rest: seq<Token>, st: ScanState, integer: bool)
    requires Ready(st)
    ensures Scan(defines, [Open()] + rest, st, integer)
         == Scan(defines, rest, st.(parentheses := st.parentheses + 1), integer)
  {
    hide Spelling;
    ScanOne(defines, Open(), rest, st, integer);
  }

  lemma ScanClose(defines: set<string>, rest: seq<Token>, st: ScanState, integer: bool)
    requires st.parentheses > 0 && !st.negativevalue
    ensures Scan(defines, [Close()] + rest, st, integer)
         == Scan(defines, rest, st.(parentheses := st.parentheses - 1), integer)
  {
    hide Spelling;
    ScanOne(defines, Close(), rest, st, integer);
  }

  lemma {:induction false} ScanParen(defines: set<string>, e: Expr, rest: seq<Token>, st: ScanState, integer: bool)
    requires e.Paren? && Grouped(e) && Named(e) && Ready(st)
    ensures Scan(defines, Flatten(e) + rest, st, integer)
         == Then(defines, rest, After(defines, st, e), Fits(st, e, integer), integer)
    decreases e, 0
  {
    hide Spelling, Scan, After, Fits;
    var e' := e.e;
    var (st', close) := (st.(parentheses := st.parentheses + 1), [Close()] + rest);
    assert Flatten(e) + rest == [Open()] + (Flatten(e') + close);
    ScanOpen(defines, Flatten(e') + close, st, integer);
    AfterParen(defines, e', st, integer);
    ScanTree(defines, e', close, st', integer);
    ScanClose(defines, rest, After(defines, st', e'), integer);
  }

  ghost function AfterOperator(defines: set<string>, st: ScanState, op: int, r: Expr): ScanState {
    After(defines, st.(ops := st.ops + [OperatorAt(op, st.parentheses)]), r)
  }

  ghost predicate FitsOperator(st: ScanState, op: int, r: Expr, integer: bool) {
    && (integer || !IntegerOnly(op))
    && Fits(st.(ops := st.ops + [OperatorAt(op, st.parentheses)]), r, integer)
  }

  lemma {:induction false} ReadyAfter(defines: set<string>, st: ScanState, e: Expr, integer: bool)
    requires Ready(st)
    ensures Fits(st, e, integer) ==> Ready(After(defines, st, e).(lastwasvalue := false))
  {
    Counts(defines, e, st.parentheses);
  }

  lemma {:induction false} AfterUnary(defines: set<string>, st: ScanState, us: seq<int>, e: Expr, rest: seq<Token>)
    ensures After(defines, st.(ops := st.ops + UnaryOps(us, st.parentheses)), e) == After(defines, st, Unary(us, e))
    ensures Flatten(Unary(us, e)) + rest == OperatorTokens(us) + (Flatten(e) + rest)
  {
  }

  lemma {:induction false} AfterBinary(defines: set<string>, st: ScanState, op: int, l: Expr, r: Expr, integer: bool)
    ensures AfterOperator(defines, After(defines, st, l), op, r) == After(defines, st, Binary(op, l, r))
    ensures Fits(st, Binary(op, l, r), integer)
       <==> Fits(st, l, integer) && FitsOperator(After(defines, st, l), op, r, integer)
  {
    Counts(defines, l, st.parentheses);
  }

  lemma AfterConditional(defines: set<string>, st: ScanState, c: Expr, a: Expr, b: Expr, integer: bool)
    ensures AfterOperator(defines, AfterOperator(defines, After(defines, st, c), P_QUESTIONMARK, a), P_COLON, b)
         == After(defines, st, Conditional(c, a, b))
    ensures Fits(st, Conditional(c, a, b), integer)
       <==> && Fits(st, c, integer)
            && FitsOperator(After(defines, st, c), P_QUESTIONMARK, a, integer)
            && FitsOperator(AfterOperator(defines, After(defines, st, c), P_QUESTIONMARK, a), P_COLON, b, integer)
  {
    hide Fits, FitsOperator, Vals, Ops;
    FitsConditional(defines, st, c, a, b, integer);
    var (d, p, x, y, z) := (st.parentheses, st.vals, Vals(defines, c), Vals(defines, a), Vals(defines, b));
    ConditionalParts(defines, c, a, b, d);
    assert p + x + y + z == p + (x + y + z);
    var (q, colon) := ([OperatorAt(P_QUESTIONMARK, d)], [OperatorAt(P_COLON, d)]);
    assert st.ops + Ops(c, d) + q + Ops(a, d) + colon + Ops(b, d)
        == st.ops + (Ops(c, d) + q + Ops(a, d) + colon + Ops(b, d));
  }

  lemma ConditionalParts(defines: set<string>, c: Expr, a: Expr, b: Expr, d: int)
    ensures Vals(defines, Conditional(c, a, b)) == Vals(defines, c) + Vals(defines, a) + Vals(defines, b)
    ensures Ops(Conditional(c, a, b), d)
         == Ops(c, d) + [OperatorAt(P_QUESTIONMARK, d)] + Ops(a, d) + [OperatorAt(P_COLON, d)] + Ops(b, d)
  {
  }

  lemma FitsConditional(defines: set<string>, st: ScanState, c: Expr, a: Expr, b: Expr, integer: bool)
    ensures Fits(st, Conditional(c, a, b), integer)
       <==> && Fits(st, c, integer)
            && FitsOperator(After(defines, st, c), P_QUESTIONMARK, a, integer)
            && FitsOperator(AfterOperator(defines, After(defines, st, c), P_QUESTIONMARK, a), P_COLON, b, integer)
  {
    hide Vals, Ops;
    Counts(defines, c, st.parentheses);
    Counts(defines, a, st.parentheses);
  }

  lemma FlattenConditional(c: Expr, a: Expr, b: Expr, rest: seq<Token>)
    ensures Flatten(Conditional(c, a, b)) + rest
         == Flatten(c)
             + ([OperatorToken(P_QUESTIONMARK)] + (Flatten(a) + ([OperatorToken(P_COLON)] + (Flatten(b) + rest))))
  {
    hide OperatorToken;
    var (x, q, y, colon, z) := (Flatten(c), [OperatorToken(P_QUESTIONMARK)], Flatten(a), [OperatorToken(P_COLON)],
        Flatten(b));
    assert Flatten(Conditional(c, a, b)) == x + q + y + colon + z;
    hide Flatten;
    Regroup3(x + q + y, colon, z, rest);
    Regroup3(x, q, y, colon + (z + rest));
  }

  lemma Regroup3(a: seq<Token>, b: seq<Token>, c: seq<Token>, d: seq<Token>)
    ensures a + b + c + d == a + (b + (c + d))
  {
    assert a + b + c + d == a + (b + c + d);
  }

  /** An operator and its right operand. */
  lemma {:induction false} ScanRight(defines: set<string>, op: int, r: Expr, rest: seq<Token>, st: ScanState,
          integer: bool)
    requires IsBinary(op) || op == P_QUESTIONMARK || op == P_COLON
    requires Grouped(r) && Named(r) && st.lastwasvalue && Ready(st.(lastwasvalue := false))
    ensures Scan(defines, [OperatorToken(op)] + (Flatten(r) + rest), st, integer)
         == Then(defines, rest, AfterOperator(defines, st, op, r), FitsOperator(st, op, r, integer), integer)
    ensures FitsOperator(st, op, r, integer) ==> Ready(AfterOperator(defines, st, op, r).(lastwasvalue := false))
    decreases r, 2
  {
    var st' := st.(ops := st.ops + [OperatorAt(op, st.parentheses)], lastwasvalue := false);
    ScanOperator(defines, op, Flatten(r) + rest, st, integer);
    if |st.ops| < MAX_OPERATORS {
      ScanTree(defines, r, rest, st', integer);
      ReadyAfter(defines, st', r, integer);
    }
  }

  // ------------------------------------------------------------ main theorem

  lemma {:induction false} ReduceWhole(defines: set<string>, e: Expr, integer: bool)
    requires Grouped(e)
    ensures Result(Reduce(Vals(defines, e), Ops(e, 0), None, integer))
         == match Value(defines, e, false, integer)
            case None => Failure
            case Some(v) => Success(v.intvalue, v.floatvalue)
  {
    assert [] + Vals(defines, e) + [] == Vals(defines, e) && [] + Ops(e, 0) + [] == Ops(e, 0);
    ReduceTree(defines, e, 0, Prec(e), [], [], [], [], None, integer);
    match Value(defines, e, false, integer)
    case None =>
    case Some(v) => assert [] + [v] + [] == [v];
  }

  /** On the text of any grouped tree PC_EvaluateTokens succeeds exactly when
      the text fits the 64-entry heaps, uses no integer-only operator in float
      mode and no subtree fails; then it returns the tree's value. */
  lemma {:induction false} EvaluateTree(defines: set<string>, e: Expr, integer: bool)
    requires Grouped(e) && Named(e)
    ensures Evaluate(defines, Flatten(e), integer)
         == if !Fits(INITIAL_SCAN, e, integer) then Failure
            else match Value(defines, e, false, integer)
                 case None => Failure
                 case Some(v) => Success(v.intvalue, v.floatvalue)
  {
    hide Reduce, Flatten, Value;
    var st := After(defines, INITIAL_SCAN, e);
    assert Flatten(e) + [] == Flatten(e);
    assert [] + Vals(defines, e) == Vals(defines, e) && [] + Ops(e, 0) == Ops(e, 0);
    ScanTree(defines, e, [], INITIAL_SCAN, integer);
    ReduceWhole(defines, e, integer);
  }

  // ------------------------------------------ comparison with plain reading

  /** The ordinary strict reading of a tree: innermost one-place operator first,
      and no limit on where a ?: may stand. */
  function Reading(defines: set<string>, e: Expr, integer: bool): Option<Val> {
    match e
    case Number(_, _, _) => Some(AtomValue(defines, e))
    case Defined(_, _) => Some(AtomValue(defines, e))
    case Unary(us, e) =>
      (match Reading(defines, e, integer)
       case None => None
       case Some(v) => Some(ApplyInnermost(us, v)))
    case Binary(op, l, r) =>
      (match (Reading(defines, l, integer), Reading(defines, r, integer))
       case (Some(v), Some(w)) => Apply(op, v, w)
       case _ => None)
    case Conditional(c, a, b) =>
      (match (Reading(defines, c, integer), Reading(defines, a, integer), Reading(defines, b, integer))
       case (Some(u), Some(v), Some(w)) => Some(Select(u, v, w, integer))
       case _ => None)
    case Paren(e) => Reading(defines, e, integer)
  }

  function ApplyInnermost(us: seq<int>, v: Val): Val {
    if us == [] then v else ApplyUnary(us[0], ApplyInnermost(us[1..], v))
  }

  // ------------------------------------------ runs of one-place operators

  /** What a run makes of an integer: the integer itself or its complement, a test
      for 0 or -1 or the complement of the test's result, or a fixed number. */
  datatype Shape = Same(flipped: bool) | Test(zero: bool, truth: bool, flipped: bool) | Fixed(n: int)

  function Flip(n: int, flipped: bool): int { if flipped then -1 - n else n }

  function IntOf(shape: Shape, n: int): int {
    match shape
    case Same(flipped) => Flip(n, flipped)
    case Test(zero, truth, flipped) => Flip(if (n == if zero then 0 else -1) == truth then 1 else 0, flipped)
    case Fixed(k) => k
  }

  /** One more operator, applied last. */
  function ShapeAfter(shape: Shape, u: int): Shape {
    if u == P_LOGIC_NOT then
      match shape
      case Same(flipped) => Test(!flipped, true, false)
      case Test(zero, truth, flipped) => if flipped then Fixed(0) else Test(zero, !truth, false)
      case Fixed(k) => Fixed(if k == 0 then 1 else 0)
    else
      match shape
      case Same(flipped) => Same(!flipped)
      case Test(zero, truth, flipped) => Test(zero, truth, !flipped)
      case Fixed(k) => Fixed(-1 - k)
  }

  /** The shape of a run whose operators apply in the order of the text. */
  function ShapeOf(us: seq<int>): Shape {
    if us == [] then Same(false) else ShapeAfter(ShapeOf(us[..|us| - 1]), us[|us| - 1])
  }

  function Reversed(us: seq<int>): seq<int> {
    if us == [] then [] else Reversed(us[1..]) + [us[0]]
  }

  /** A run that comes to the same read from either end. */
  predicate Symmetric(us: seq<int>) { ShapeOf(us) == ShapeOf(Reversed(us)) }

  /** How many operators are `!`. */
  function Nots(us: seq<int>): nat {
    if us == [] then 0 else Nots(us[..|us| - 1]) + if us[|us| - 1] == P_LOGIC_NOT then 1 else 0
  }

  function NotReal(k: nat, f: real): real {
    if k == 0 then f else if NotReal(k - 1, f) == 0.0 then 1.0 else 0.0
  }

  lemma {:induction false} ApplyLast(us: seq<int>, u: int, v: Val)
    ensures ApplyUnaries(us + [u], v) == ApplyUnary(u, ApplyUnaries(us, v))
    decreases us
  {
    hide ApplyUnary;
    if us == [] {
      assert [] + [u] == [u] && [u][1..] == [];
      assert ApplyUnaries([u], v) == ApplyUnaries([], ApplyUnary(u, v));
    } else {
      assert (us + [u])[0] == us[0] && (us + [u])[1..] == us[1..] + [u];
      ApplyLast(us[1..], u, ApplyUnary(us[0], v));
    }
  }

  lemma {:induction false} RunHasShape(us: seq<int>, v: Val)
    requires forall u <- us :: IsUnary(u)
    ensures ApplyUnaries(us, v) == Val(IntOf(ShapeOf(us), v.intvalue), NotReal(Nots(us), v.floatvalue))
    decreases us
  {
    if us != [] {
      var (front, u) := (us[..|us| - 1], us[|us| - 1]);
      RunHasShape(front, v);
      assert us == front + [u] && u in us;
      ApplyLast(front, u, v);
    }
  }

  lemma {:induction false} NotsConcat(us: seq<int>, ws: seq<int>)
    ensures Nots(us + ws) == Nots(us) + Nots(ws)
    decreases ws
  {
    if ws == [] {
      assert us + ws == us;
    } else {
      assert (us + ws)[..|us + ws| - 1] == us + ws[..|ws| - 1];
      NotsConcat(us, ws[..|ws| - 1]);
    }
  }

  /** Reading innermost first is applying the run from its end. */
  lemma {:induction false} InnermostIsReversed(us: seq<int>, v: Val)
    ensures ApplyInnermost(us, v) == ApplyUnaries(Reversed(us), v)
    ensures Nots(Reversed(us)) == Nots(us)
    ensures forall u :: u in Reversed(us) <==> u in us
    decreases us
  {
    hide ApplyUnary;
    if us != [] {
      InnermostIsReversed(us[1..], v);
      ApplyLast(Reversed(us[1..]), us[0], v);
      NotsConcat(Reversed(us[1..]), [us[0]]);
      NotsConcat([us[0]], us[1..]);
      assert us == [us[0]] + us[1..];
    }
  }

  lemma ShapesDiffer(a: Shape, b: Shape) returns (n: int)
    requires a != b
    ensures IntOf(a, n) != IntOf(b, n)
  {
    n := if IntOf(a, 0) != IntOf(b, 0) then 0 else if IntOf(a, -1) != IntOf(b, -1) then -1
         else if IntOf(a, 1) != IntOf(b, 1) then 1 else 2;
  }

  lemma RunAgreesAt(us: seq<int>, v: Val)
    requires forall u <- us :: IsUnary(u)
    ensures ApplyUnaries(us, v) == ApplyInnermost(us, v)
       <==> IntOf(ShapeOf(us), v.intvalue) == IntOf(ShapeOf(Reversed(us)), v.intvalue)
  {
    hide ApplyUnaries, ApplyInnermost, ShapeOf, IntOf, Nots, NotReal, Reversed;
    RunHasShape(us, v);
    InnermostIsReversed(us, v);
    RunHasShape(Reversed(us), v);
  }

  /** A run of one-place operators takes effect in the order of the text. It agrees
      with the ordinary reading, innermost first, on all values exactly when it
      comes to the same from either end: `!!` does, and `!~!`, but not `!~`. */
  lemma {:induction false} UnaryRunsAgree(us: seq<int>)
    requires forall u <- us :: IsUnary(u)
    ensures (forall v :: ApplyUnaries(us, v) == ApplyInnermost(us, v)) <==> Symmetric(us)
  {
    hide ApplyUnaries, ApplyInnermost, ShapeOf, IntOf, Reversed;
    if Symmetric(us) {
      forall v ensures ApplyUnaries(us, v) == ApplyInnermost(us, v) { RunAgreesAt(us, v); }
    } else {
      var n := ShapesDiffer(ShapeOf(us), ShapeOf(Reversed(us)));
      var v := Val(n, 0.0);
      RunAgreesAt(us, v);
      assert ApplyUnaries(us, v) != ApplyInnermost(us, v);
    }
  }

  /** For two operators that means that they are the same. */
  lemma TwoUnaryOperators(u: int, w: int)
    requires IsUnary(u) && IsUnary(w)
    ensures Symmetric([u, w]) <==> u == w
    ensures Symmetric([P_LOGIC_NOT, P_BIN_NOT, P_LOGIC_NOT])
  {
    hide ShapeOf, Reversed;
    ReversedPair(u, w);
    ShapePair(u, w);
    ShapePair(w, u);
    ReversedPalindrome(P_LOGIC_NOT, P_BIN_NOT);
  }

  lemma ShapeLast(us: seq<int>, u: int)
    ensures ShapeOf(us + [u]) == ShapeAfter(ShapeOf(us), u)
  {
    assert (us + [u])[..|us + [u]| - 1] == us;
  }

  lemma ShapePair(u: int, w: int)
    ensures ShapeOf([u, w]) == ShapeAfter(ShapeAfter(Same(false), u), w)
  {
    hide ShapeAfter;
    ShapeLast([], u);
    ShapeLast([u], w);
    assert [] + [u] == [u] && [u] + [w] == [u, w];
  }

  lemma ReversedPalindrome(u: int, w: int)
    ensures Reversed([u, w, u]) == [u, w, u]
  {
    ReversedPair(w, u);
    assert [u, w, u][1..] == [w, u];
  }

  lemma ReversedPair(u: int, w: int)
    ensures Reversed([u, w]) == [w, u] && Reversed([u]) == [u]
  {
    assert [u, w][1..] == [w] && [w][1..] == [] && [u][1..] == [];
    assert Reversed([w]) == [w];
  }

  lemma SingleIsSymmetric(u: int)
    ensures Symmetric([u])
  {
    ReversedPair(u, u);
  }

  /** Runs of adjacent one-place operators come to the same from either end. */
  predicate SymmetricRuns(e: Expr) {
    match e
    case Number(_, _, _) => true
    case Defined(_, _) => true
    case Unary(us, e) => (forall u <- us :: IsUnary(u)) && Symmetric(us) && SymmetricRuns(e)
    case Binary(_, l, r) => SymmetricRuns(l) && SymmetricRuns(r)
    case Conditional(c, a, b) => SymmetricRuns(c) && SymmetricRuns(a) && SymmetricRuns(b)
    case Paren(e) => SymmetricRuns(e)
  }

  predicate HasConditional(e: Expr) {
    match e
    case Number(_, _, _) => false
    case Defined(_, _) => false
    case Unary(_, e) => HasConditional(e)
    case Binary(_, l, r) => HasConditional(l) || HasConditional(r)
    case Conditional(_, _, _) => true
    case Paren(e) => HasConditional(e)
  }

  /** Some ?: stands inside the third operand of another. */
  predicate NestedInThird(e: Expr) {
    match e
    case Number(_, _, _) => false
    case Defined(_, _) => false
    case Unary(_, e) => NestedInThird(e)
    case Binary(_, l, r) => NestedInThird(l) || NestedInThird(r)
    case Conditional(c, a, b) => NestedInThird(c) || NestedInThird(a) || HasConditional(b)
    case Paren(e) => NestedInThird(e)
  }

  lemma NestedHasConditional(e: Expr)
    requires NestedInThird(e)
    ensures HasConditional(e)
  {
  }

  lemma {:induction false} ValueIsReading(defines: set<string>, e: Expr, pending: bool, integer: bool)
    requires SymmetricRuns(e)
    ensures Value(defines, e, pending, integer)
         == if NestedInThird(e) || (pending && HasConditional(e)) then None else Reading(defines, e, integer)
    decreases e
  {
    hide ApplyUnaries, ApplyInnermost, Symmetric, Apply, Select;
    match e
    case Unary(us, e') =>
      ValueIsReading(defines, e', pending, integer);
      UnaryRunsAgree(us);
      assert forall v :: ApplyUnaries(us, v) == ApplyInnermost(us, v);
    case Binary(_, l, r) =>
      ValueIsReading(defines, l, pending, integer);
      ValueIsReading(defines, r, pending, integer);
    case Conditional(c, a, b) =>
      ValueIsReading(defines, c, false, integer);
      ValueIsReading(defines, a, false, integer);
      ValueIsReading(defines, b, true, integer);
      if NestedInThird(b) { NestedHasConditional(b); }
    case Paren(e') => ValueIsReading(defines, e', pending, integer);
    case _ =>
  }

  /** The evaluator returns the ordinary reading of the text exactly when the
      text fits, no ?: stands in the third operand of another, and the reading
      exists; in every other case it fails. */
  lemma {:induction false} EvaluateIsReading(defines: set<string>, e: Expr, integer: bool)
    requires Grouped(e) && Named(e) && SymmetricRuns(e)
    ensures Evaluate(defines, Flatten(e), integer)
         == if !Fits(INITIAL_SCAN, e, integer) || NestedInThird(e) || Reading(defines, e, integer).None? then Failure
            else var v := Reading(defines, e, integer).value; Success(v.intvalue, v.floatvalue)
  {
    EvaluateTree(defines, e, integer);
    ValueIsReading(defines, e, false, integer);
  }

  // -------------------------------------------------- any abstract syntax tree

  /** Every operator node is well formed, and one-place operators come singly. */
  ghost predicate Proper(e: Expr) {
    match e
    case Number(_, _, _) => true
    case Defined(_, _) => true
    case Unary(us, e) => |us| == 1 && IsUnary(us[0]) && Proper(e)
    case Binary(op, l, r) => IsBinary(op) && Proper(l) && Proper(r)
    case Conditional(c, a, b) => Proper(c) && Proper(a) && Proper(b)
    case Paren(e) => Proper(e)
  }

  function Bracket(e: Expr, needed: bool): Expr { if needed then Paren(e) else e }

  /** Write parentheses where the priorities need them and nowhere else. */
  function Parenthesize(e: Expr): Expr {
    match e
    case Number(_, _, _) => e
    case Defined(_, _) => e
    case Unary(us, e) => Unary(us, Bracket(Parenthesize(e), Prec(e) < 17))
    case Binary(op, l, r) =>
      Binary(op, Bracket(Parenthesize(l), Prec(l) < OperatorPriority(op)),
             Bracket(Parenthesize(r), Prec(r) <= OperatorPriority(op)))
    case Conditional(c, a, b) =>
      Conditional(Bracket(Parenthesize(c), Prec(c) < 5), Bracket(Parenthesize(a), Prec(a) <= 5),
                  Bracket(Parenthesize(b), Prec(b) <= 5))
    case Paren(e) => Paren(Parenthesize(e))
  }

  lemma {:induction false} ParenthesizeGroups(e: Expr)
    requires Proper(e)
    ensures Named(e) ==> Named(Parenthesize(e))
    ensures Grouped(Parenthesize(e)) && SymmetricRuns(Parenthesize(e)) && Prec(Parenthesize(e)) == Prec(e)
    decreases e
  {
    match e
    case Unary(us, e') => ParenthesizeGroups(e'); SingleIsSymmetric(us[0]); assert us == [us[0]];
    case Binary(_, l, r) => ParenthesizeGroups(l); ParenthesizeGroups(r);
    case Conditional(c, a, b) => ParenthesizeGroups(c); ParenthesizeGroups(a); ParenthesizeGroups(b);
    case Paren(e') => ParenthesizeGroups(e');
    case _ =>
  }

  lemma {:induction false} ParenthesizeKeepsReading(defines: set<string>, e: Expr, integer: bool)
    requires Proper(e)
    ensures Reading(defines, Parenthesize(e), integer) == Reading(defines, e, integer)
    decreases e
  {
    hide Apply, ApplyUnary, Select;
    match e
    case Unary(us, e') => ParenthesizeKeepsReading(defines, e', integer);
    case Binary(_, l, r) =>
      ParenthesizeKeepsReading(defines, l, integer); ParenthesizeKeepsReading(defines, r, integer);
    case Conditional(c, a, b) =>
      ParenthesizeKeepsReading(defines, c, integer);
      ParenthesizeKeepsReading(defines, a, integer);
      ParenthesizeKeepsReading(defines, b, integer);
    case Paren(e') => ParenthesizeKeepsReading(defines, e', integer);
    case _ =>
  }

  predicate SameShape(a: Expr, b: Expr) {
    && ValueCount(a) == ValueCount(b) && OperatorCount(a) == OperatorCount(b)
    && UsesIntegerOnly(a) == UsesIntegerOnly(b)
    && HasConditional(a) == HasConditional(b) && NestedInThird(a) == NestedInThird(b)
  }

  lemma BracketKeepsShape(e: Expr, e': Expr, needed: bool)
    requires SameShape(e, e')
    ensures SameShape(Bracket(e, needed), e')
  {
  }

  lemma {:induction false} ParenthesizeKeepsShape(e: Expr)
    requires Proper(e)
    ensures SameShape(Parenthesize(e), e)
    decreases e, 0
  {
    hide Bracket;
    match e
    case Unary(us, e') => BracketedKeepsShape(e', Prec(e') < 17);
    case Binary(op, l, r) =>
      BracketedKeepsShape(l, Prec(l) < OperatorPriority(op));
      BracketedKeepsShape(r, Prec(r) <= OperatorPriority(op));
    case Conditional(c, a, b) =>
      BracketedKeepsShape(c, Prec(c) < 5);
      BracketedKeepsShape(a, Prec(a) <= 5);
      BracketedKeepsShape(b, Prec(b) <= 5);
    case Paren(e') => ParenthesizeKeepsShape(e');
    case _ =>
  }

  lemma {:induction false} BracketedKeepsShape(e: Expr, needed: bool)
    requires Proper(e)
    ensures SameShape(Bracket(Parenthesize(e), needed), e)
    decreases e, 1
  {
    ParenthesizeKeepsShape(e);
    BracketKeepsShape(Parenthesize(e), e, needed);
  }

  /** Any abstract syntax tree, written with just the parentheses it needs,
      evaluates to its strict recursive value, or fails for a stated reason. */
  lemma {:induction false} EvaluateAnyTree(defines: set<string>, e: Expr, integer: bool)
    requires Proper(e) && Named(e)
    ensures Evaluate(defines, Flatten(Parenthesize(e)), integer)
         == if !Fits(INITIAL_SCAN, e, integer) || NestedInThird(e) || Reading(defines, e, integer).None? then Failure
            else var v := Reading(defines, e, integer).value; Success(v.intvalue, v.floatvalue)
  {
    ParenthesizeGroups(e);
    ParenthesizeKeepsReading(defines, e, integer);
    ParenthesizeKeepsShape(e);
    EvaluateIsReading(defines, Parenthesize(e), integer);
  }

  // -------------------------------------------------------- any token list

  /** No ++ or --, which are reported but queued as operators all the same. */
  ghost predicate NoIncrements(toks: seq<Token>) {
    forall t <- toks :: t.typ == TT_PUNCTUATION ==> t.subtype != P_INC && t.subtype != P_DEC
  }

  predicate EndsInDefined(toks: seq<Token>) {
    |toks| > 0 && toks[|toks| - 1].typ == TT_NAME && toks[|toks| - 1].str == "defined"
  }

  /** Values outnumber two-place operators by one after an operand and are as
      many after an operator. */
  ghost predicate Balanced(st: ScanState) {
    |st.vals| == Joins(st.ops) + if st.lastwasvalue then 1 else 0
  }

  lemma JoinsAppend(ops: seq<Operator>, o: Operator)
    ensures Joins(ops + [o]) == Joins(ops) + if IsUnary(o.op) then 0 else 1
  {
    assert (ops + [o])[..|ops|] == ops;
  }

  lemma ScanStepBalanced(defines: set<string>, toks: seq<Token>, st: ScanState, integer: bool)
    requires |toks| > 0 && Balanced(st) && NoIncrements(toks)
    ensures var r := ScanStep(defines, toks, st, integer);
            && (r.Scanned? ==> Balanced(r.state) && r.rest == toks[|toks| - |r.rest|..])
            && (r.ScanCrash? ==> EndsInDefined(toks))
  {
    assert toks[0] in toks;
    JoinsAppend(st.ops, Operator(toks[0].subtype, OperatorPriority(toks[0].subtype), st.parentheses));
  }

  lemma {:induction false} ScanBalanced(defines: set<string>, toks: seq<Token>, st: ScanState, integer: bool)
    requires Balanced(st) && NoIncrements(toks)
    ensures var r := Scan(defines, toks, st, integer);
            (r.Scanned? ==> Balanced(r.state)) && (r.ScanCrash? ==> EndsInDefined(toks))
    decreases |toks|
  {
    if |toks| > 0 {
      ScanStepBalanced(defines, toks, st, integer);
      var r := ScanStep(defines, toks, st, integer);
      if r.Scanned? {
        assert forall t <- r.rest :: t in toks;
        ScanBalanced(defines, r.rest, r.state, integer);
      }
    }
  }

  /** A reduction step on a balanced list finds both its operands and leaves a
      balanced list with one operator less. */
  lemma {:induction false} ReduceStepBalanced(vals: seq<Val>, ops: seq<Operator>, cond: Option<Val>, integer: bool)
    requires |ops| > 0 && |vals| == Joins(ops) + 1
    ensures Joins(ops[..FirstPeak(ops, 0)]) < |vals|
    ensures var r := ReduceStep(vals, ops, cond, integer);
            && !r.ReduceCrash?
            && (r.Reduced? ==> |r.ops| == |ops| - 1 && |r.vals| == Joins(r.ops) + 1)
  {
    var k := FirstPeak(ops, 0);
    JoinsSplit(ops, k);
    ReduceAtCounts(vals, ops, cond, integer, k, Joins(ops[..k]));
  }

  lemma {:induction false} JoinsSplit(ops: seq<Operator>, k: nat)
    requires k < |ops|
    ensures Joins(ops[..k]) + (if IsUnary(ops[k].op) then 0 else 1) <= Joins(ops)
    ensures Joins(ops) == Joins(Without(ops, k)) + if IsUnary(ops[k].op) then 0 else 1
  {
    var (before, o, after) := (ops[..k], [ops[k]], ops[k + 1..]);
    assert ops == before + o + after;
    JoinsConcat(before, o);
    JoinsConcat(before + o, after);
    JoinsConcat(before, after);
    assert Joins(o) == Joins([]) + if IsUnary(ops[k].op) then 0 else 1;
  }

  /** A one-place operator keeps the number of values, every other takes one away. */
  lemma ReduceAtCounts(vals: seq<Val>, ops: seq<Operator>, cond: Option<Val>, integer: bool, k: nat, i: nat)
    requires k < |ops| && i + (if IsUnary(ops[k].op) then 0 else 1) < |vals|
    ensures var r := ReduceAt(vals, ops, cond, integer, k, i);
            && !r.ReduceCrash?
            && (r.Reduced? ==> r.ops == Without(ops, k) && |r.vals| == |vals| - if IsUnary(ops[k].op) then 0 else 1)
  {
  }

  lemma {:induction false} ReduceBalanced(vals: seq<Val>, ops: seq<Operator>, cond: Option<Val>, integer: bool)
    requires |vals| == Joins(ops) + 1
    ensures var r := Reduce(vals, ops, cond, integer);
            !r.ReduceCrash? && (r.Reduced? ==> |r.vals| == 1)
    decreases |ops|
  {
    if |ops| > 0 {
      ReduceStepBalanced(vals, ops, cond, integer);
      var r := ReduceStep(vals, ops, cond, integer);
      if r.Reduced? {
        ReduceBalanced(r.vals, r.ops, r.cond, integer);
      }
    }
  }

  /** On any token list without ++ and -- a successful run ends with exactly one value. */
  lemma {:induction false} EvaluateLeavesOne(defines: set<string>, toks: seq<Token>, integer: bool)
    requires NoIncrements(toks)
    ensures Evaluate(defines, toks, integer).Success? ==>
              var st := Scan(defines, toks, INITIAL_SCAN, integer).state;
              var r := Reduce(st.vals, st.ops, None, integer);
              r.Reduced? && |r.vals| == 1
  {
    ScanBalanced(defines, toks, INITIAL_SCAN, integer);
    var r := Scan(defines, toks, INITIAL_SCAN, integer);
    if r.Scanned? && r.state.lastwasvalue && r.state.parentheses == 0 {
      ReduceBalanced(r.state.vals, r.state.ops, None, integer);
    }
  }

  /** Where the scan still expects an operand. */
  predicate AwaitsOperand(r: ScanResult) { r.Scanned? && !r.state.lastwasvalue && !r.state.negativevalue }

  /** A token behind the list changes no step that the list allows, and makes no
      other step crash. */
  lemma NameWithMore(defines: set<string>, toks: seq<Token>, t: Token, st: ScanState)
    requires |toks| > 0
    ensures var (r, more) := (ScanName(defines, toks, st), ScanName(defines, toks + [t], st));
            if r.Scanned? then more == Scanned(r.state, r.rest + [t])
            else !more.ScanCrash? && (more.Scanned? ==> more.rest == [])
  {
    var all := toks + [t];
    assert forall i :: 0 <= i < |toks| ==> all[i] == toks[i];
    assert forall i :: 0 <= i <= |toks| ==> all[i..] == toks[i..] + [t];
    assert all[|all|..] == [];
  }

  lemma StepWithMore(defines: set<string>, toks: seq<Token>, t: Token, st: ScanState, integer: bool)
    requires |toks| > 0
    ensures var (r, more) := (ScanStep(defines, toks, st, integer), ScanStep(defines, toks + [t], st, integer));
            if r.Scanned? then more == Scanned(r.state, r.rest + [t])
            else !more.ScanCrash? && (more.Scanned? ==> more.rest == [])
  {
    hide ScanName;
    NameWithMore(defines, toks, t, st);
    assert (toks + [t])[0] == toks[0] && (toks + [t])[1..] == toks[1..] + [t];
  }

  /** The scan crashes exactly on a `defined` at the end of a list that the scan
      accepts up to there and that still awaits an operand. */
  lemma {:induction false} ScanCrashesExactly(defines: set<string>, toks: seq<Token>, t: Token, st: ScanState,
          integer: bool)
    ensures Scan(defines, toks + [t], st, integer).ScanCrash?
       <==> t.typ == TT_NAME && t.str == "defined" && AwaitsOperand(Scan(defines, toks, st, integer))
    decreases |toks|
  {
    if toks == [] {
      assert toks + [t] == [t] && [t][1..] == [];
    } else {
      StepWithMore(defines, toks, t, st, integer);
      var r := ScanStep(defines, toks, st, integer);
      if r.Scanned? { ScanCrashesExactly(defines, r.rest, t, r.state, integer); }
    }
  }

  /** When the evaluator follows a null pointer, on lists without ++ and --: exactly
      when the last token is `defined`, and what comes before it scans and ends where
      an operand is awaited. */
  lemma EvaluateCrashesExactly(defines: set<string>, toks: seq<Token>, integer: bool)
    requires NoIncrements(toks)
    ensures Evaluate(defines, toks, integer) == Crash
       <==> EndsInDefined(toks) && AwaitsOperand(Scan(defines, toks[..|toks| - 1], INITIAL_SCAN, integer))
  {
    var r := Scan(defines, toks, INITIAL_SCAN, integer);
    ScanBalanced(defines, toks, INITIAL_SCAN, integer);
    if toks != [] {
      var (front, t) := (toks[..|toks| - 1], toks[|toks| - 1]);
      assert toks == front + [t];
      ScanCrashesExactly(defines, front, t, INITIAL_SCAN, integer);
    }
    if r.Scanned? && r.state.lastwasvalue && r.state.parentheses == 0 {
      ReduceBalanced(r.state.vals, r.state.ops, None, integer);
    }
  }

  /** With ++ there are other crashes: in front of the only value, for one. */
  lemma IncrementCrashes(defines: set<string>, n: int, f: real, integer: bool)
    ensures Evaluate(defines, [OperatorToken(P_INC), NumberToken(n, f)], integer) == Crash
  {
    var toks := [OperatorToken(P_INC), NumberToken(n, f)];
    var ops := [OperatorAt(P_INC, 0)];
    assert toks == [OperatorToken(P_INC)] + ([NumberToken(n, f)] + []);
    ScanOne(defines, OperatorToken(P_INC), [NumberToken(n, f)] + [], INITIAL_SCAN, integer);
    assert [] + ops == ops && [NumberToken(n, f)] + [] == [NumberToken(n, f)];
    ScanOne(defines, NumberToken(n, f), [], INITIAL_SCAN.(ops := ops), integer);
    assert FirstPeak(ops, 0) == 0 && Joins(ops[..0]) == 0;
  }

  // ------------------------- a run of one-place operators before parentheses

  function FirstValue(defines: set<string>, e: Expr): Val {
    match e
    case Unary(_, e) => FirstValue(defines, e)
    case Binary(_, l, _) => FirstValue(defines, l)
    case Conditional(c, _, _) => FirstValue(defines, c)
    case Paren(e) => FirstValue(defines, e)
    case _ => AtomValue(defines, e)
  }

  /** The tree with the first of its values replaced. */
  function SetFirst(e: Expr, v: Val): Expr {
    match e
    case Unary(us, e) => Unary(us, SetFirst(e, v))
    case Binary(op, l, r) => Binary(op, SetFirst(l, v), r)
    case Conditional(c, a, b) => Conditional(SetFirst(c, v), a, b)
    case Paren(e) => Paren(SetFirst(e, v))
    case _ => Number(v.intvalue, v.floatvalue, false)
  }

  lemma {:induction false} SetFirstOps(e: Expr, v: Val, d: int)
    ensures Ops(SetFirst(e, v), d) == Ops(e, d)
    decreases e
  {
    match e
    case Unary(us, e') => SetFirstOps(e', v, d);
    case Binary(_, l, _) => SetFirstOps(l, v, d);
    case Conditional(c, _, _) => SetFirstOps(c, v, d);
    case Paren(e') => SetFirstOps(e', v, d + 1);
    case _ =>
  }

  lemma {:induction false} SetFirstGroups(e: Expr, v: Val)
    requires Grouped(e)
    ensures Grouped(SetFirst(e, v)) && Prec(SetFirst(e, v)) == Prec(e)
    decreases e
  {
    match e
    case Unary(us, e') => SetFirstGroups(e', v); SetFirstOps(e', v, 0);
    case Binary(_, l, _) => SetFirstGroups(l, v);
    case Conditional(c, _, _) => SetFirstGroups(c, v);
    case Paren(e') => SetFirstGroups(e', v);
    case _ =>
  }

  lemma {:induction false} SetFirstVals(defines: set<string>, e: Expr, v: Val)
    ensures |Vals(defines, e)| > 0 && Vals(defines, e) == [FirstValue(defines, e)] + Vals(defines, e)[1..]
    ensures Vals(defines, SetFirst(e, v)) == [v] + Vals(defines, e)[1..]
    decreases e
  {
    match e
    case Unary(us, e') => SetFirstVals(defines, e', v);
    case Binary(_, l, _) => SetFirstVals(defines, l, v);
    case Conditional(c, _, _) => SetFirstVals(defines, c, v);
    case Paren(e') => SetFirstVals(defines, e', v);
    case _ =>
  }

  lemma SetFirstKeeps(defines: set<string>, e: Expr, v: Val)
    requires Grouped(e)
    ensures Grouped(SetFirst(e, v)) && Prec(SetFirst(e, v)) == Prec(e)
    ensures forall d :: Ops(SetFirst(e, v), d) == Ops(e, d)
    ensures |Vals(defines, e)| > 0 && Vals(defines, e) == [FirstValue(defines, e)] + Vals(defines, e)[1..]
    ensures Vals(defines, SetFirst(e, v)) == [v] + Vals(defines, e)[1..]
  {
    SetFirstGroups(e, v);
    forall d ensures Ops(SetFirst(e, v), d) == Ops(e, d) { SetFirstOps(e, v, d); }
    SetFirstVals(defines, e, v);
  }

  lemma {:induction false} UnaryOpsConcat(us: seq<int>, ws: seq<int>, d: int)
    ensures UnaryOps(us + ws, d) == UnaryOps(us, d) + UnaryOps(ws, d)
    decreases us
  {
    if us == [] {
      assert us + ws == ws;
    } else {
      assert (us + ws)[1..] == us[1..] + ws;
      UnaryOpsConcat(us[1..], ws, d);
    }
  }

  lemma {:induction false} ReduceRunOps(first: Val, tail: seq<Val>, us: seq<int>, u: int, ops: seq<Operator>,
          integer: bool)
    requires (forall w <- us :: IsUnary(w)) && IsUnary(u)
    ensures Reduce([first] + tail, UnaryOps(us + [u], 0) + ops, None, integer)
         == Reduce([ApplyUnaries(us, first)] + tail, UnaryOps([u], 0) + ops, None, integer)
  {
    hide Reduce;
    var last := UnaryOps([u], 0) + ops;
    UnaryOpsConcat(us, [u], 0);
    assert UnaryOps([u], 0) == [OperatorAt(u, 0)] + UnaryOps([u][1..], 0);
    ReduceUnaries([], first, tail, [], us, last, 0, 16, None, integer);
    assert [] + UnaryOps(us, 0) + last == UnaryOps(us + [u], 0) + ops && [] + last == last;
    assert forall v: Val :: [] + [v] + tail == [v] + tail;
  }

  lemma {:induction false} ReduceRun(defines: set<string>, us: seq<int>, u: int, e: Expr, integer: bool)
    requires (forall w <- us :: IsUnary(w)) && IsUnary(u) && Grouped(e)
    ensures var (run, e') := (Unary(us + [u], Paren(e)),
         Unary([u], Paren(SetFirst(e, ApplyUnaries(us, FirstValue(defines, e))))));
            Reduce(Vals(defines, run), Ops(run, 0), None, integer)
                == Reduce(Vals(defines, e'), Ops(e', 0), None, integer)
  {
    hide Reduce;
    var first := FirstValue(defines, e);
    SetFirstKeeps(defines, e, ApplyUnaries(us, first));
    ReduceRunOps(first, Vals(defines, e)[1..], us, u, Ops(e, 1), integer);
  }

  lemma {:induction false} ScanRun(defines: set<string>, us: seq<int>, e: Expr, integer: bool)
    requires (forall w <- us :: IsUnary(w)) && Grouped(e) && Named(e)
    requires Fits(INITIAL_SCAN, Unary(us, Paren(e)), integer)
    ensures Scan(defines, Flatten(Unary(us, Paren(e))), INITIAL_SCAN, integer)
         == Scanned(After(defines, INITIAL_SCAN, Unary(us, Paren(e))), [])
  {
    var st := INITIAL_SCAN.(ops := INITIAL_SCAN.ops + UnaryOps(us, 0));
    UnaryCount(us, 0);
    AfterUnary(defines, INITIAL_SCAN, us, Paren(e), []);
    ScanUnaries(defines, us, Flatten(Paren(e)) + [], INITIAL_SCAN, integer);
    ScanTree(defines, Paren(e), [], st, integer);
    assert Flatten(Unary(us, Paren(e))) + [] == Flatten(Unary(us, Paren(e)));
  }

  /** Of a run of one-place operators in front of a parenthesised tree only the
      last acts on the tree: the others act on the first value inside it. */
  lemma {:induction false} RunBeforeParen(defines: set<string>, us: seq<int>, u: int, e: Expr, integer: bool)
    requires (forall w <- us :: IsUnary(w)) && IsUnary(u) && Grouped(e) && Named(e)
    requires Fits(INITIAL_SCAN, Unary(us + [u], Paren(e)), integer)
    ensures Evaluate(defines, Flatten(Unary(us + [u], Paren(e))), integer)
         == match Value(defines, Unary([u], Paren(SetFirst(e, ApplyUnaries(us, FirstValue(defines, e))))), false,
             integer)
            case None => Failure
            case Some(v) => Success(v.intvalue, v.floatvalue)
  {
    hide Reduce, Flatten, Value, Scan;
    var run := Unary(us + [u], Paren(e));
    var e' := Unary([u], Paren(SetFirst(e, ApplyUnaries(us, FirstValue(defines, e)))));
    SetFirstKeeps(defines, e, ApplyUnaries(us, FirstValue(defines, e)));
    ScanRun(defines, us + [u], e, integer);
    ReduceRun(defines, us, u, e, integer);
    ReduceWhole(defines, e', integer);
    assert [] + Vals(defines, run) == Vals(defines, run) && [] + Ops(run, 0) == Ops(run, 0);
  }

  /** So `!!(0+1)` evaluates to 0, where the ordinary reading gives 1. */
  lemma DoubleNotOfSum(defines: set<string>)
    ensures var e := Unary([P_LOGIC_NOT, P_LOGIC_NOT],
         Paren(Binary(P_ADD, Number(0, 0.0, false), Number(1, 1.0, false))));
            && Evaluate(defines, Flatten(e), true) == Success(0, 0.0)
            && Reading(defines, e, true) == Some(Val(1, 1.0))
  {
    hide Scan, Reduce, Flatten, Fits, Value, Reading, Evaluate;
    var (not, sum) := (P_LOGIC_NOT, Binary(P_ADD, Number(0, 0.0, false), Number(1, 1.0, false)));
    var (zero, one, two) := (Val(0, 0.0), Val(1, 1.0), Val(2, 2.0));
    SumIsSimple(defines);
    NotOf(zero);
    NotOf(two);
    NotTwice(one);
    assert [not] + [not] == [not, not];
    RunBeforeParen(defines, [not], not, sum, true);
    assert SetFirst(sum, one) == Binary(P_ADD, Number(1, 1.0, false), Number(1, 1.0, false));
    ValueOfNot(defines, SetFirst(sum, one), two);
    ReadingOfNots(defines, sum, one);
  }

  lemma SumIsSimple(defines: set<string>)
    ensures var sum := Binary(P_ADD, Number(0, 0.0, false), Number(1, 1.0, false));
            && Fits(INITIAL_SCAN, Unary([P_LOGIC_NOT, P_LOGIC_NOT], Paren(sum)), true)
            && Grouped(sum) && Named(sum) && FirstValue(defines, sum) == Val(0, 0.0)
            && Reading(defines, sum, true) == Some(Val(1, 1.0))
    ensures Value(defines, Binary(P_ADD, Number(1, 1.0, false), Number(1, 1.0, false)), false, true)
         == Some(Val(2, 2.0))
  {
    var sum := Binary(P_ADD, Number(0, 0.0, false), Number(1, 1.0, false));
    assert OperatorCount(sum) == 1 && ValueCount(sum) == 2;
  }

  lemma NotOf(v: Val)
    ensures ApplyUnaries([P_LOGIC_NOT], v) == ApplyUnary(P_LOGIC_NOT, v)
  {
    assert [P_LOGIC_NOT][1..] == [];
  }

  lemma NotTwice(v: Val)
    ensures ApplyInnermost([P_LOGIC_NOT, P_LOGIC_NOT], v) == ApplyUnary(P_LOGIC_NOT, ApplyUnary(P_LOGIC_NOT, v))
  {
    hide ApplyUnary;
    var run := [P_LOGIC_NOT, P_LOGIC_NOT];
    assert run[1..] == [P_LOGIC_NOT] && run[1..][1..] == [];
    assert ApplyInnermost(run[1..], v) == ApplyUnary(P_LOGIC_NOT, v);
  }

  lemma ValueOfNot(defines: set<string>, e: Expr, v: Val)
    requires Value(defines, e, false, true) == Some(v)
    ensures Value(defines, Unary([P_LOGIC_NOT], Paren(e)), false, true) == Some(ApplyUnaries([P_LOGIC_NOT], v))
  {
    assert Value(defines, Paren(e), false, true) == Some(v);
  }

  lemma ReadingOfNots(defines: set<string>, e: Expr, v: Val)
    requires Reading(defines, e, true) == Some(v)
    ensures Reading(defines, Unary([P_LOGIC_NOT, P_LOGIC_NOT], Paren(e)), true)
         == Some(ApplyInnermost([P_LOGIC_NOT, P_LOGIC_NOT], v))
  {
    assert Reading(defines, Paren(e), true) == Some(v);
  }
}
