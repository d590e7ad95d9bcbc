/** Expression trees, their flattening to tokens, and their strict recursive
    value: the reference PC_EvaluateTokens is proved against. */
module ExpressionTrees {
  import opened Tokens
  import opened Options
  import opened Evaluator

  /** `Unary` holds a run of adjacent one-place operators, outermost first.
      `Paren` marks parentheses written in the text. */
  datatype Expr =
    | Number(intvalue: int, floatvalue: real, negative: bool)
    | Defined(name: string, braces: bool)
    | Unary(us: seq<int>, e: Expr)
    | Binary(op: int, l: Expr, r: Expr)
    | Conditional(c: Expr, a: Expr, b: Expr)
    | Paren(e: Expr)

  /** How tightly the outermost operator of the text binds. */
  function Prec(e: Expr): int {
    match e
    case Unary(_, _) => 16
    case Binary(op, _, _) => OperatorPriority(op)
    case Conditional(_, _, _) => 5
    case _ => 17
  }

  /** The text has the parentheses its left-associative priorities need. Two or
      more adjacent one-place operators are allowed on a single value only. */
  ghost predicate Grouped(e: Expr) {
    match e
    case Number(_, _, _) => true
    case Defined(_, _) => true
    case Unary(us, e) =>
      && us != [] && (forall u <- us :: IsUnary(u))
      && Grouped(e) && Prec(e) == 17 && (|us| == 1 || Ops(e, 0) == [])
    case Binary(op, l, r) =>
      IsBinary(op) && Grouped(l) && Grouped(r) && Prec(l) >= OperatorPriority(op) && Prec(r) > OperatorPriority(op)
    case Conditional(c, a, b) =>
      Grouped(c) && Grouped(a) && Grouped(b) && Prec(c) >= 5 && Prec(a) > 5 && Prec(b) > 5
    case Paren(e) => Grouped(e)
  }

  function NumberToken(i: int, f: real): Token { Token("", TT_NUMBER, TT_DECIMAL, i, f, 0, false) }
  function NameToken(name: string): Token { Token(name, TT_NAME, |name|, 0, 0.0, 0, false) }
  function Spelling(op: int): string {
    if op == P_MUL then "*" else if op == P_DIV then "/" else if op == P_MOD then "%"
    else if op == P_ADD then "+" else if op == P_SUB then "-"
    else if op == P_LOGIC_AND then "&&" else if op == P_LOGIC_OR then "||"
    else if op == P_LOGIC_GEQ then ">=" else if op == P_LOGIC_LEQ then "<="
    else if op == P_LOGIC_EQ then "==" else if op == P_LOGIC_UNEQ then "!="
    else if op == P_LOGIC_GREATER then ">" else if op == P_LOGIC_LESS then "<"
    else if op == P_RSHIFT then ">>" else if op == P_LSHIFT then "<<"
    else if op == P_BIN_AND then "&" else if op == P_BIN_OR then "|" else if op == P_BIN_XOR then "^"
    else if op == P_BIN_NOT then "~" else if op == P_LOGIC_NOT then "!"
    else if op == P_COLON then ":" else if op == P_QUESTIONMARK then "?"
    else if op == P_INC then "++" else "--"
  }

  function OperatorToken(op: int): Token { Punctuation(Spelling(op), op) }
  function OperatorTokens(us: seq<int>): seq<Token> { seq(|us|, i requires 0 <= i < |us| => OperatorToken(us[i])) }

  function Flatten(e: Expr): (ts: seq<Token>)
    ensures |ts| > 0 || (e.Unary? && e.us == [])
  {
    match e
    case Number(i, f, negative) => if negative then [OperatorToken(P_SUB), NumberToken(i, f)] else [NumberToken(i, f)]
    case Defined(name, braces) =>
      if braces then [NameToken("defined"), Open(), NameToken(name), Close()]
      else [NameToken("defined"), NameToken(name)]
    case Unary(us, e) => OperatorTokens(us) + Flatten(e)
    case Binary(op, l, r) => Flatten(l) + [OperatorToken(op)] + Flatten(r)
    case Conditional(c, a, b) =>
      Flatten(c) + [OperatorToken(P_QUESTIONMARK)] + Flatten(a) + [OperatorToken(P_COLON)] + Flatten(b)
    case Paren(e) => [Open()] + Flatten(e) + [Close()]
  }

  /** One-place operators take effect left to right. */
  function ApplyUnaries(us: seq<int>, v: Val): Val {
    if us == [] then v else ApplyUnaries(us[1..], ApplyUnary(us[0], v))
  }

  function AtomValue(defines: set<string>, e: Expr): Val
    requires e.Number? || e.Defined?
  {
    match e
    case Number(i, f, negative) => if negative then Val(-i, -f) else Val(i, f)
    case Defined(name, _) => if name in defines then Val(1, 1.0) else Val(0, 0.0)
  }

  /** The strict recursive value of the tree; None is a semantic error. Both
      operands of && and ||, and all three of ?:, are always evaluated.
      `pending` says that an enclosing ? still waits for the end of its third
      operand, where no other ? can be handled. */
  function Value(defines: set<string>, e: Expr, pending: bool, integer: bool): Option<Val> {
    match e
    case Number(_, _, _) => Some(AtomValue(defines, e))
    case Defined(_, _) => Some(AtomValue(defines, e))
    case Unary(us, e) =>
      (match Value(defines, e, pending, integer)
       case None => None
       case Some(v) => Some(ApplyUnaries(us, v)))
    case Binary(op, l, r) =>
      (match (Value(defines, l, pending, integer), Value(defines, r, pending, integer))
       case (Some(v), Some(w)) => Apply(op, v, w)
       case _ => None)
    case Conditional(c, a, b) =>
      (match (pending, Value(defines, c, false, integer), Value(defines, a, false, integer),
          Value(defines, b, true, integer))
       case (false, Some(u), Some(v), Some(w)) => Some(Select(u, v, w, integer))
       case _ => None)
    case Paren(e) => Value(defines, e, pending, integer)
  }

  /** The values and operators a tree puts on the two lists at depth `d`. */
  function Vals(defines: set<string>, e: Expr): seq<Val> {
    match e
    case Number(_, _, _) => [AtomValue(defines, e)]
    case Defined(_, _) => [AtomValue(defines, e)]
    case Unary(_, e) => Vals(defines, e)
    case Binary(_, l, r) => Vals(defines, l) + Vals(defines, r)
    case Conditional(c, a, b) => Vals(defines, c) + Vals(defines, a) + Vals(defines, b)
    case Paren(e) => Vals(defines, e)
  }

  function OperatorAt(op: int, d: int): Operator { Operator(op, OperatorPriority(op), d) }

  function UnaryOps(us: seq<int>, d: int): seq<Operator> {
    if us == [] then [] else [OperatorAt(us[0], d)] + UnaryOps(us[1..], d)
  }

  function Ops(e: Expr, d: int): seq<Operator> {
    match e
    case Number(_, _, _) => []
    case Defined(_, _) => []
    case Unary(us, e) => UnaryOps(us, d) + Ops(e, d)
    case Binary(op, l, r) => Ops(l, d) + [OperatorAt(op, d)] + Ops(r, d)
    case Conditional(c, a, b) =>
      Ops(c, d) + [OperatorAt(P_QUESTIONMARK, d)] + Ops(a, d) + [OperatorAt(P_COLON, d)] + Ops(b, d)
    case Paren(e) => Ops(e, d + 1)
  }

  // ------------------------------------------------- the reduction phase

  /** Every operator of `os` is passed over by the search for a peak, and the
      last one is below anything of priority `p` at depth `d`. */
  ghost predicate Rising(os: seq<Operator>, d: int, p: int) {
    && (forall i :: 0 <= i < |os| - 1 ==> Below(os[i], os[i + 1]))
    && (os != [] ==> Below(os[|os| - 1], Operator(0, p, d)))
  }

  /** Nothing of priority `p` at depth `d` is below the first operator of `os`. */
  ghost predicate Falling(os: seq<Operator>, d: int, p: int) {
    os != [] ==> !Below(Operator(0, p, d), os[0])
  }

  lemma {:induction false} JoinsConcat(a: seq<Operator>, b: seq<Operator>)
    ensures Joins(a + b) == Joins(a) + Joins(b)
  {
    if b == [] {
      assert a + b == a;
    } else {
      JoinsConcat(a, b[..|b| - 1]);
      assert (a + b)[..|a + b| - 1] == a + b[..|b| - 1];
    }
  }

  lemma {:induction false} PeakAt(o1: seq<Operator>, o: Operator, o2: seq<Operator>, k: nat)
    requires Rising(o1, o.parentheses, o.priority) && Falling(o2, o.parentheses, o.priority) && k <= |o1|
    ensures FirstPeak(o1 + [o] + o2, k) == |o1|
    decreases |o1| - k
  {
    var ops := o1 + [o] + o2;
    if k < |o1| {
      assert Below(ops[k], ops[k + 1]);
      PeakAt(o1, o, o2, k + 1);
    }
  }

  /** The next step reduces exactly the operator between a rising and a falling list. */
  lemma StepAt(v1: seq<Val>, v2: seq<Val>, o1: seq<Operator>, o: Operator, o2: seq<Operator>,
               cond: Option<Val>, integer: bool)
    requires Rising(o1, o.parentheses, o.priority) && Falling(o2, o.parentheses, o.priority)
    requires Joins(o1) == |v1| && v2 != []
    ensures ReduceStep(v1 + v2, o1 + [o] + o2, cond, integer)
         == ReduceAt(v1 + v2, o1 + [o] + o2, cond, integer, |o1|, |v1|)
    ensures Without(o1 + [o] + o2, |o1|) == o1 + o2
  {
    PeakAt(o1, o, o2, 0);
    assert (o1 + [o] + o2)[..|o1|] == o1;
  }

  lemma Regroup<T>(a: seq<T>, b: seq<T>, c: seq<T>, d: seq<T>)
    ensures a + (b + c) + d == (a + b) + c + d == a + b + (c + d)
  {
  }

  lemma ReduceUnary(v1: seq<Val>, v: Val, v2: seq<Val>, o1: seq<Operator>, u: int, o2: seq<Operator>,
                    d: int, p: int, cond: Option<Val>, integer: bool)
    requires IsUnary(u) && p <= 16
    requires Rising(o1, d, p) && Falling(o2, d, 16) && Joins(o1) == |v1|
    ensures Reduce(v1 + [v] + v2, o1 + [OperatorAt(u, d)] + o2, cond, integer)
         == Reduce(v1 + [ApplyUnary(u, v)] + v2, o1 + o2, cond, integer)
  {
    var vs := v1 + ([v] + v2);
    assert v1 + [v] + v2 == vs;
    StepAt(v1, [v] + v2, o1, OperatorAt(u, d), o2, cond, integer);
    assert vs[|v1| := ApplyUnary(u, v)] == v1 + [ApplyUnary(u, v)] + v2;
  }

  lemma UnariesFall(us: seq<int>, d: int, p: int, o2: seq<Operator>)
    requires (forall u <- us :: IsUnary(u)) && p <= 16 && Falling(o2, d, p)
    ensures Falling(UnaryOps(us, d) + o2, d, 16)
  {
    assert us != [] ==> us[0] in us;
  }

  lemma UnaryFirst(us: seq<int>, d: int, o1: seq<Operator>, o2: seq<Operator>)
    requires us != []
    ensures o1 + UnaryOps(us, d) + o2 == o1 + [OperatorAt(us[0], d)] + (UnaryOps(us[1..], d) + o2)
    ensures o1 + (UnaryOps(us[1..], d) + o2) == o1 + UnaryOps(us[1..], d) + o2
  {
    assert UnaryOps(us, d) == [OperatorAt(us[0], d)] + UnaryOps(us[1..], d);
  }

  lemma {:induction false} ReduceUnaries(v1: seq<Val>, v: Val, v2: seq<Val>, o1: seq<Operator>, us: seq<int>,
          o2: seq<Operator>, d: int, p: int, cond: Option<Val>, integer: bool)
    requires (forall u <- us :: IsUnary(u)) && p <= 16
    requires Rising(o1, d, p) && Falling(o2, d, p) && Joins(o1) == |v1|
    ensures Reduce(v1 + [v] + v2, o1 + UnaryOps(us, d) + o2, cond, integer)
         == Reduce(v1 + [ApplyUnaries(us, v)] + v2, o1 + o2, cond, integer)
    decreases us
  {
    hide Reduce, Rising, Falling, Joins, ApplyUnary;
    if us == [] {
      assert o1 + UnaryOps(us, d) + o2 == o1 + o2;
    } else {
      var tail := UnaryOps(us[1..], d) + o2;
      assert us[0] in us;
      UnariesFall(us[1..], d, p, o2);
      UnaryFirst(us, d, o1, o2);
      ReduceUnary(v1, v, v2, o1, us[0], tail, d, p, cond, integer);
      ReduceUnaries(v1, ApplyUnary(us[0], v), v2, o1, us[1..], o2, d, p, cond, integer);
    }
  }

  /** What remains of a reduction once a tree in the middle has its value. */
  function Continue(v1: seq<Val>, w: Option<Val>, v2: seq<Val>, ops: seq<Operator>, cond: Option<Val>,
          integer: bool): Reduction
  {
    match w
    case None => ReduceFailure
    case Some(v) => Reduce(v1 + [v] + v2, ops, cond, integer)
  }

  lemma ReplaceTwo(v1: seq<Val>, v: Val, w: Val, x: Val, v2: seq<Val>)
    ensures v1 + [v] + [w] + v2 == v1 + ([v, w] + v2)
    ensures Without((v1 + ([v, w] + v2))[|v1| := x], |v1| + 1) == v1 + [x] + v2
  {
  }

  lemma ReduceAtBinary(v1: seq<Val>, v: Val, w: Val, v2: seq<Val>, ops: seq<Operator>, k: nat,
                       cond: Option<Val>, integer: bool)
    requires k < |ops| && IsBinary(ops[k].op)
    ensures ReduceAt(v1 + ([v, w] + v2), ops, cond, integer, k, |v1|)
         == match Apply(ops[k].op, v, w)
            case None => ReduceFailure
            case Some(x) => Reduced(v1 + [x] + v2, Without(ops, k), cond)
  {
    var vs := v1 + ([v, w] + v2);
    assert vs[|v1|] == v && vs[|v1| + 1] == w;
    match Apply(ops[k].op, v, w)
    case None =>
    case Some(x) => ReplaceTwo(v1, v, w, x, v2);
  }

  /** A two-place operator whose operands are both reduced. */
  lemma ReduceBinary(v1: seq<Val>, v: Val, w: Val, v2: seq<Val>, o1: seq<Operator>, op: int, o2: seq<Operator>,
                     d: int, p: int, cond: Option<Val>, integer: bool)
    requires IsBinary(op) && p <= OperatorPriority(op)
    requires Rising(o1, d, p) && Falling(o2, d, p) && Joins(o1) == |v1|
    ensures Reduce(v1 + [v] + [w] + v2, o1 + [OperatorAt(op, d)] + o2, cond, integer)
         == Continue(v1, Apply(op, v, w), v2, o1 + o2, cond, integer)
  {
    ReplaceTwo(v1, v, w, v, v2);
    StepAt(v1, [v, w] + v2, o1, OperatorAt(op, d), o2, cond, integer);
    ReduceAtBinary(v1, v, w, v2, o1 + [OperatorAt(op, d)] + o2, |o1|, cond, integer);
  }

  /** The heart of the evaluator: inside any context the search for a peak walks
      past, a tree's operators are reduced before anything else, and they
      leave exactly the tree's value. */
  lemma {:induction false} ReduceTree(defines: set<string>, e: Expr, d: int, p: int,
                                      v1: seq<Val>, v2: seq<Val>, o1: seq<Operator>, o2: seq<Operator>,
                                      cond: Option<Val>, integer: bool)
    requires Grouped(e) && p <= Prec(e)
    requires Rising(o1, d, p) && Falling(o2, d, p) && Joins(o1) == |v1|
    ensures Reduce(v1 + Vals(defines, e) + v2, o1 + Ops(e, d) + o2, cond, integer)
         == Continue(v1, Value(defines, e, cond.Some?, integer), v2, o1 + o2, cond, integer)
    decreases e, 1
  {
    match e
    case Number(_, _, _) => assert o1 + Ops(e, d) + o2 == o1 + o2;
    case Defined(_, _) => assert o1 + Ops(e, d) + o2 == o1 + o2;
    case Paren(e') => ReduceTree(defines, e', d + 1, Prec(e'), v1, v2, o1, o2, cond, integer);
    case Unary(us, e') => ReduceTreeUnary(defines, e, d, p, v1, v2, o1, o2, cond, integer);
    case Binary(op, l, r) => ReduceTreeBinary(defines, e, d, p, v1, v2, o1, o2, cond, integer);
    case Conditional(c, a, b) => ReduceTreeConditional(defines, e, d, p, v1, v2, o1, o2, cond, integer);
  }

  lemma {:induction false} OperatorFreeValue(defines: set<string>, e: Expr, d: int, pending: bool, integer: bool)
    requires Grouped(e) && Ops(e, d) == []
    ensures Value(defines, e, pending, integer).Some? && Vals(defines, e) == [Value(defines, e, pending, integer).value]
    ensures forall d' :: Ops(e, d') == []
    decreases e
  {
    match e
    case Paren(e') => OperatorFreeValue(defines, e', d + 1, pending, integer);
    case _ =>
  }

  lemma {:induction false} ReduceTreeUnary(defines: set<string>, e: Expr, d: int, p: int,
                                           v1: seq<Val>, v2: seq<Val>, o1: seq<Operator>, o2: seq<Operator>,
                                           cond: Option<Val>, integer: bool)
    requires e.Unary? && Grouped(e) && p <= Prec(e)
    requires Rising(o1, d, p) && Falling(o2, d, p) && Joins(o1) == |v1|
    ensures Reduce(v1 + Vals(defines, e) + v2, o1 + Ops(e, d) + o2, cond, integer)
         == Continue(v1, Value(defines, e, cond.Some?, integer), v2, o1 + o2, cond, integer)
    decreases e, 0
  {
    hide Reduce;
    var Unary(us, e') := e;
    var (value, unary) := (Value(defines, e', cond.Some?, integer), UnaryOps(us, d));
    Regroup(o1, unary, Ops(e', d), o2);
    if |us| == 1 {
      assert us[0] in us && us[1..] == [];
      assert UnaryOps(us, d) == [OperatorAt(us[0], d)];
      JoinsConcat(o1, unary);
      ReduceTree(defines, e', d, 17, v1, v2, o1 + unary, o2, cond, integer);
    } else {
      OperatorFreeValue(defines, e', 0, cond.Some?, integer);
      assert unary + Ops(e', d) == unary;
    }
    match value
    case None =>
    case Some(v) => ReduceUnaries(v1, v, v2, o1, us, o2, d, p, cond, integer);
  }

  /** The operator of a tree between its operands. */
  lemma BinaryContext(e: Expr, d: int, p: int, o1: seq<Operator>, o2: seq<Operator>)
    requires e.Binary? && Grouped(e) && p <= Prec(e) && Rising(o1, d, p) && Falling(o2, d, p)
    ensures var (q, o) := (OperatorPriority(e.op), [OperatorAt(e.op, d)]);
            && Rising(o1, d, q) && Falling(o + Ops(e.r, d) + o2, d, q)
            && Rising(o1 + o, d, q + 1) && Falling(o2, d, q + 1) && Joins(o1 + o) == Joins(o1) + 1
  {
    JoinsConcat(o1, [OperatorAt(e.op, d)]);
  }

  lemma {:induction false} ReduceTreeBinary(defines: set<string>, e: Expr, d: int, p: int,
                                            v1: seq<Val>, v2: seq<Val>, o1: seq<Operator>, o2: seq<Operator>,
                                            cond: Option<Val>, integer: bool)
    requires e.Binary? && Grouped(e) && p <= Prec(e)
    requires Rising(o1, d, p) && Falling(o2, d, p) && Joins(o1) == |v1|
    ensures Reduce(v1 + Vals(defines, e) + v2, o1 + Ops(e, d) + o2, cond, integer)
         == Continue(v1, Value(defines, e, cond.Some?, integer), v2, o1 + o2, cond, integer)
    decreases e, 0
  {
    hide Reduce, Rising, Falling, Joins;
    var Binary(op, l, r) := e;
    BinaryContext(e, d, p, o1, o2);
    var (q, o, vr) := (OperatorPriority(op), [OperatorAt(op, d)], Vals(defines, r));
    var right := o + Ops(r, d) + o2;
    Regroup(v1, Vals(defines, l), vr, v2);
    RegroupOps(o1, Ops(l, d), o, Ops(r, d), o2);
    ReduceTree(defines, l, d, q, v1, vr + v2, o1, right, cond, integer);
    match Value(defines, l, cond.Some?, integer)
    case None =>
    case Some(v) =>
      Regroup(v1, [v], vr, v2);
      ReduceTree(defines, r, d, q + 1, v1 + [v], v2, o1 + o, o2, cond, integer);
      match Value(defines, r, cond.Some?, integer)
      case None =>
      case Some(w) => ReduceBinary(v1, v, w, v2, o1, op, o2, d, p, cond, integer);
  }

  lemma RegroupOps(o1: seq<Operator>, left: seq<Operator>, o: seq<Operator>, rest: seq<Operator>, o2: seq<Operator>)
    ensures o1 + (left + o + rest) + o2 == o1 + left + (o + rest + o2)
    ensures o1 + (o + rest + o2) == o1 + o + rest + o2
  {
  }

  lemma RisesTo(os: seq<Operator>, d: int, p: int, q: int)
    requires Rising(os, d, p) && p <= q
    ensures Rising(os, d, q)
  {
  }

  /** The condition of a ?: moves from the value list into `cond`. */
  lemma ReduceQuestion(v1: seq<Val>, u: Val, v: Val, v2: seq<Val>, o1: seq<Operator>, o2: seq<Operator>,
                       d: int, p: int, cond: Option<Val>, integer: bool)
    requires p <= 5 && Rising(o1, d, p) && Falling(o2, d, 5) && Joins(o1) == |v1|
    ensures Reduce(v1 + [u] + [v] + v2, o1 + [OperatorAt(P_QUESTIONMARK, d)] + o2, cond, integer)
         == if cond.Some? then ReduceFailure else Reduce(v1 + [v] + v2, o1 + o2, Some(u), integer)
  {
    hide Rising, Falling, Joins;
    var vs := v1 + ([u, v] + v2);
    assert v1 + [u] + [v] + v2 == vs;
    RisesTo(o1, d, p, 5);
    StepAt(v1, [u, v] + v2, o1, OperatorAt(P_QUESTIONMARK, d), o2, cond, integer);
    assert Without(vs, |v1|) == v1 + [v] + v2;
  }

  /** The : chooses between its operands by the pending condition. */
  lemma ReduceColon(v1: seq<Val>, v: Val, w: Val, v2: seq<Val>, o1: seq<Operator>, o2: seq<Operator>,
                    d: int, p: int, u: Val, integer: bool)
    requires p <= 5 && Rising(o1, d, p) && Falling(o2, d, p) && Joins(o1) == |v1|
    ensures Reduce(v1 + [v] + [w] + v2, o1 + [OperatorAt(P_COLON, d)] + o2, Some(u), integer)
         == Reduce(v1 + [Select(u, v, w, integer)] + v2, o1 + o2, None, integer)
  {
    ReplaceTwo(v1, v, w, Select(u, v, w, integer), v2);
    StepAt(v1, [v, w] + v2, o1, OperatorAt(P_COLON, d), o2, Some(u), integer);
  }

  lemma {:induction false} ReduceTreeConditional(defines: set<string>, e: Expr, d: int, p: int,
                                                 v1: seq<Val>, v2: seq<Val>, o1: seq<Operator>, o2: seq<Operator>,
                                                 cond: Option<Val>, integer: bool)
    requires e.Conditional? && Grouped(e) && p <= Prec(e)
    requires Rising(o1, d, p) && Falling(o2, d, p) && Joins(o1) == |v1|
    ensures Reduce(v1 + Vals(defines, e) + v2, o1 + Ops(e, d) + o2, cond, integer)
         == Continue(v1, Value(defines, e, cond.Some?, integer), v2, o1 + o2, cond, integer)
    decreases e, 0
  {
    hide Reduce;
    var Conditional(c, a, b) := e;
    var (quest, colon) := ([OperatorAt(P_QUESTIONMARK, d)], [OperatorAt(P_COLON, d)]);
    var right := colon + Ops(b, d) + o2;
    RegroupConditional(v1, Vals(defines, c), Vals(defines, a), Vals(defines, b), v2);
    RegroupConditionalOps(o1, Ops(c, d), quest, Ops(a, d), colon, Ops(b, d), o2);
    ReduceTree(defines, c, d, 5, v1, Vals(defines, a) + (Vals(defines, b) + v2), o1, quest + Ops(a, d) + right, cond,
        integer);
    match Value(defines, c, cond.Some?, integer)
    case None =>
    case Some(u) =>
      ReduceSecond(defines, a, d, p, v1, u, Vals(defines, b) + v2, o1, right, cond, integer);
      match Value(defines, a, cond.Some?, integer)
      case None =>
      case Some(v) =>
        if cond.None? {
          ReduceThird(defines, b, d, p, v1, v, v2, o1, o2, u, integer);
        }
  }

  lemma RegroupConditional(v1: seq<Val>, vc: seq<Val>, va: seq<Val>, vb: seq<Val>, v2: seq<Val>)
    ensures v1 + (vc + va + vb) + v2 == v1 + vc + (va + (vb + v2))
  {
  }

  lemma RegroupConditionalOps(o1: seq<Operator>, oc: seq<Operator>, quest: seq<Operator>, oa: seq<Operator>,
                              colon: seq<Operator>, ob: seq<Operator>, o2: seq<Operator>)
    ensures o1 + (oc + quest + oa + colon + ob) + o2 == o1 + oc + (quest + oa + (colon + ob + o2))
  {
  }

  /** The second operand of a ?:, reduced before the ? that waits in front of it. */
  lemma {:induction false} ReduceSecond(defines: set<string>, a: Expr, d: int, p: int,
                                        v1: seq<Val>, u: Val, v2: seq<Val>, o1: seq<Operator>, o2: seq<Operator>,
                                        cond: Option<Val>, integer: bool)
    requires Grouped(a) && 5 < Prec(a) && p <= 5
    requires Rising(o1, d, p) && Falling(o2, d, 5) && Joins(o1) == |v1|
    ensures Reduce(v1 + [u] + (Vals(defines, a) + v2), o1 + ([OperatorAt(P_QUESTIONMARK, d)] + Ops(a, d) + o2), cond,
         integer)
         == match Value(defines, a, cond.Some?, integer)
            case None => ReduceFailure
            case Some(v) => if cond.Some? then ReduceFailure else Reduce(v1 + [v] + v2, o1 + o2, Some(u), integer)
    decreases a, 2
  {
    hide Reduce;
    var quest := [OperatorAt(P_QUESTIONMARK, d)];
    JoinsConcat(o1, quest);
    Regroup(v1, [u], Vals(defines, a), v2);
    RegroupOps(o1, [], quest, Ops(a, d), o2);
    ReduceTree(defines, a, d, 6, v1 + [u], v2, o1 + quest, o2, cond, integer);
    match Value(defines, a, cond.Some?, integer)
    case None =>
    case Some(v) => ReduceQuestion(v1, u, v, v2, o1, o2, d, p, cond, integer);
  }

  /** The third operand of a ?: and the : in front of it. */
  lemma {:induction false} ReduceThird(defines: set<string>, b: Expr, d: int, p: int,
                                       v1: seq<Val>, v: Val, v2: seq<Val>, o1: seq<Operator>, o2: seq<Operator>,
                                       u: Val, integer: bool)
    requires Grouped(b) && 5 < Prec(b) && p <= 5
    requires Rising(o1, d, p) && Falling(o2, d, p) && Joins(o1) == |v1|
    ensures Reduce(v1 + [v] + (Vals(defines, b) + v2), o1 + ([OperatorAt(P_COLON, d)] + Ops(b, d) + o2), Some(u),
         integer)
         == match Value(defines, b, true, integer)
            case None => ReduceFailure
            case Some(w) => Reduce(v1 + [Select(u, v, w, integer)] + v2, o1 + o2, None, integer)
    decreases b, 2
  {
    hide Reduce;
    var colon := [OperatorAt(P_COLON, d)];
    JoinsConcat(o1, colon);
    Regroup(v1, [v], Vals(defines, b), v2);
    RegroupOps(o1, [], colon, Ops(b, d), o2);
    ReduceTree(defines, b, d, 6, v1 + [v], v2, o1 + colon, o2, Some(u), integer);
    match Value(defines, b, true, integer)
    case None =>
    case Some(w) => ReduceColon(v1, v, w, v2, o1, o2, d, p, u, integer);
  }
}
