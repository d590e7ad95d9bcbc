/** PC_EvaluateTokens: an expression evaluator without a parse tree. One pass
    over the tokens fills a list of values and a list of operators; a second
    phase repeatedly reduces the leftmost operator that does not bind weaker
    than its successor (src/botlib/l_precomp.c:1672-2352). */
module Evaluator {
  import opened Tokens
  import opened Bits
  import opened Options
  import opened DefineTables

  const MAX_VALUES := 64
  const MAX_OPERATORS := 64

  /** Every value is kept as an integer and as a float, updated side by side. */
  datatype Val = Val(intvalue: int, floatvalue: real)

  datatype Operator = Operator(op: int, priority: int, parentheses: int)

  /** What PC_EvaluateTokens ends in. A Crash is a null pointer dereference. */
  datatype Outcome = Success(intvalue: int, floatvalue: real) | Failure | Crash

  function OperatorPriority(op: int): int {
    if op == P_MUL || op == P_DIV || op == P_MOD then 15
    else if op == P_ADD || op == P_SUB then 14
    else if op == P_LOGIC_AND then 7
    else if op == P_LOGIC_OR then 6
    else if op == P_LOGIC_GEQ || op == P_LOGIC_LEQ then 12
    else if op == P_LOGIC_EQ || op == P_LOGIC_UNEQ then 11
    else if op == P_LOGIC_NOT then 16
    else if op == P_LOGIC_GREATER || op == P_LOGIC_LESS then 12
    else if op == P_RSHIFT || op == P_LSHIFT then 13
    else if op == P_BIN_AND then 10
    else if op == P_BIN_OR then 8
    else if op == P_BIN_XOR then 9
    else if op == P_BIN_NOT then 16
    else if op == P_COLON || op == P_QUESTIONMARK then 5
    else 0
  }

  predicate IsUnary(op: int) { op == P_LOGIC_NOT || op == P_BIN_NOT }

  predicate IsBinary(op: int) {
    0 < OperatorPriority(op) < 16 && op != P_COLON && op != P_QUESTIONMARK
  }

  /** Operators that PC_EvaluateTokens refuses on floating point operands. */
  predicate IntegerOnly(op: int) {
    || op == P_BIN_NOT || op == P_MOD || op == P_RSHIFT || op == P_LSHIFT
    || op == P_BIN_AND || op == P_BIN_OR || op == P_BIN_XOR
  }

  function Truth(i: bool, f: bool): Val {
    Val(if i then 1 else 0, if f then 1.0 else 0.0)
  }

  function AbsReal(x: real): real { if x < 0.0 then -x else x }

  function ApplyUnary(op: int, a: Val): Val {
    if op == P_LOGIC_NOT then Truth(a.intvalue == 0, a.floatvalue == 0.0)
    else a.(intvalue := BitNot(a.intvalue))
  }

  /** The strict two-place operators; only / and % can fail. Operators without
      a case in the source's switch (++ and --) leave the first value alone. */
  function Apply(op: int, a: Val, b: Val): Option<Val> {
    var (x, y, f, g) := (a.intvalue, b.intvalue, a.floatvalue, b.floatvalue);
    if op == P_MUL then Some(Val(x * y, f * g))
    else if op == P_DIV then
      if y == 0 || g == 0.0 then None else Some(Val(Quotient(x, y), f / g))
    else if op == P_MOD then
      if y == 0 then None else Some(a.(intvalue := Remainder(x, y)))
    else if op == P_ADD then Some(Val(x + y, f + g))
    else if op == P_SUB then Some(Val(x - y, f - g))
    else if op == P_LOGIC_AND then Some(Truth(x != 0 && y != 0, f != 0.0 && g != 0.0))
    else if op == P_LOGIC_OR then Some(Truth(x != 0 || y != 0, f != 0.0 || g != 0.0))
    else if op == P_LOGIC_GEQ then Some(Truth(x >= y, f >= g))
    else if op == P_LOGIC_LEQ then Some(Truth(x <= y, f <= g))
    else if op == P_LOGIC_EQ then Some(Truth(x == y, AbsReal(f - g) < 0.0001))
    else if op == P_LOGIC_UNEQ then Some(Truth(x != y, AbsReal(f - g) > 0.0001))
    else if op == P_LOGIC_GREATER then Some(Truth(x > y, f > g))
    else if op == P_LOGIC_LESS then Some(Truth(x < y, f < g))
    else if op == P_RSHIFT then Some(a.(intvalue := ShiftRight(x, y)))
    else if op == P_LSHIFT then Some(a.(intvalue := ShiftLeft(x, y)))
    else if op == P_BIN_AND then Some(a.(intvalue := BitAnd(x, y)))
    else if op == P_BIN_OR then Some(a.(intvalue := BitOr(x, y)))
    else if op == P_BIN_XOR then Some(a.(intvalue := BitXor(x, y)))
    else Some(a)
  }

  /** The value `c ? a : b` leaves behind: only the half that is evaluated
      for is replaced, the other half stays a's. */
  function Select(c: Val, a: Val, b: Val, integer: bool): Val {
    if integer then if c.intvalue == 0 then a.(intvalue := b.intvalue) else a
    else if c.floatvalue == 0.0 then a.(floatvalue := b.floatvalue) else a
  }

  // ---------------------------------------------------------------- scanning

  datatype ScanState = ScanState(
    vals: seq<Val>,
    ops: seq<Operator>,
    parentheses: int,
    lastwasvalue: bool,
    negativevalue: bool)

  const INITIAL_SCAN := ScanState([], [], 0, false, false)

  datatype ScanResult = Scanned(state: ScanState, rest: seq<Token>) | ScanFailure | ScanCrash

  /** `defined NAME` and `defined ( NAME )`; no other name is allowed. */
  function ScanName(defines: set<string>, toks: seq<Token>, st: ScanState): (r: ScanResult)
    requires |toks| > 0
    ensures r.Scanned? ==> |r.rest| < |toks|
  {
    if st.lastwasvalue || st.negativevalue || toks[0].str != "defined" then ScanFailure
    else if |toks| < 2 then ScanCrash
    else
      var brace := toks[1].str == "(";
      var k := if brace then 2 else 1;
      if k >= |toks| || toks[k].typ != TT_NAME then ScanFailure
      else if |st.vals| >= MAX_VALUES then ScanFailure
      else if brace && (k + 1 >= |toks| || toks[k + 1].str != ")") then ScanFailure
      else
        var v := if toks[k].str in defines then Val(1, 1.0) else Val(0, 0.0);
        Scanned(st.(vals := st.vals + [v], lastwasvalue := true), toks[if brace then k + 2 else k + 1..])
  }

  function ScanNumber(t: Token, rest: seq<Token>, st: ScanState): ScanResult {
    if st.lastwasvalue || |st.vals| >= MAX_VALUES then ScanFailure
    else
      var v := if st.negativevalue then Val(-t.intvalue, -t.floatvalue) else Val(t.intvalue, t.floatvalue);
      Scanned(st.(vals := st.vals + [v], lastwasvalue := true, negativevalue := false), rest)
  }

  /** Whether the operator may stand here, given what came before it. */
  predicate OperatorAllowed(op: int, st: ScanState) {
    if IsUnary(op) then !st.lastwasvalue
    else if op == P_INC || op == P_DEC then true
    else OperatorPriority(op) > 0 && st.lastwasvalue
  }

  function ScanPunctuation(p: int, rest: seq<Token>, st: ScanState, integer: bool): ScanResult {
    if st.negativevalue then ScanFailure
    else if p == P_PARENTHESESOPEN then Scanned(st.(parentheses := st.parentheses + 1), rest)
    else if p == P_PARENTHESESCLOSE then
      if st.parentheses - 1 < 0 then ScanFailure
      else Scanned(st.(parentheses := st.parentheses - 1), rest)
    else if !integer && IntegerOnly(p) then ScanFailure
    else if p == P_SUB && !st.lastwasvalue then Scanned(st.(negativevalue := true), rest)
    else if !OperatorAllowed(p, st) || |st.ops| >= MAX_OPERATORS then ScanFailure
    else
      var o := Operator(p, OperatorPriority(p), st.parentheses);
      Scanned(st.(ops := st.ops + [o], lastwasvalue := false), rest)
  }

  function ScanStep(defines: set<string>, toks: seq<Token>, st: ScanState, integer: bool): (r: ScanResult)
    requires |toks| > 0
    ensures r.Scanned? ==> |r.rest| < |toks|
  {
    match toks[0].typ
    case TT_NAME => ScanName(defines, toks, st)
    case TT_NUMBER => ScanNumber(toks[0], toks[1..], st)
    case TT_PUNCTUATION => ScanPunctuation(toks[0].subtype, toks[1..], st, integer)
    case _ => ScanFailure
  }

  function Scan(defines: set<string>, toks: seq<Token>, st: ScanState, integer: bool): ScanResult
    decreases |toks|
  {
    if |toks| == 0 then Scanned(st, [])
    else
      var r := ScanStep(defines, toks, st, integer);
      if r.Scanned? then Scan(defines, r.rest, r.state, integer) else r
  }

  // ---------------------------------------------------------------- reducing

  /** Binds weaker: shallower in parentheses or, at equal depth, lower priority. */
  predicate Below(a: Operator, b: Operator) {
    || a.parentheses < b.parentheses
    || (a.parentheses == b.parentheses && a.priority < b.priority)
  }

  /** The first operator from `k` on that is not below its successor. */
  function FirstPeak(ops: seq<Operator>, k: nat): (p: nat)
    requires k < |ops|
    ensures k <= p < |ops|
    decreases |ops| - k
  {
    if k + 1 == |ops| || !Below(ops[k], ops[k + 1]) then k else FirstPeak(ops, k + 1)
  }

  /** How many operators of the list join two values. */
  function Joins(ops: seq<Operator>): nat {
    if |ops| == 0 then 0
    else Joins(ops[..|ops| - 1]) + if IsUnary(ops[|ops| - 1].op) then 0 else 1
  }

  datatype Reduction =
    | Reduced(vals: seq<Val>, ops: seq<Operator>, cond: Option<Val>)
    | ReduceFailure
    | ReduceCrash

  function Without<T>(s: seq<T>, i: nat): (r: seq<T>)
    requires i < |s|
    ensures |r| == |s| - 1
  {
    s[..i] + s[i + 1..]
  }

  /** Apply the operator at `k` to the value at `i` and its successor. `cond` is
      the condition of a ? whose : has not been reached yet. */
  function ReduceAt(vals: seq<Val>, ops: seq<Operator>, cond: Option<Val>, integer: bool,
                    k: nat, i: nat): (r: Reduction)
    requires k < |ops| && i < |vals|
    ensures r.Reduced? ==> |r.ops| == |ops| - 1
  {
    var op := ops[k].op;
    var ops' := Without(ops, k);
    if IsUnary(op) then Reduced(vals[i := ApplyUnary(op, vals[i])], ops', cond)
    else if op == P_QUESTIONMARK then
      if cond.Some? then ReduceFailure else Reduced(Without(vals, i), ops', Some(vals[i]))
    else if op == P_COLON && cond.None? then ReduceFailure
    else if i + 1 >= |vals| then ReduceCrash
    else if op == P_COLON then
      Reduced(Without(vals[i := Select(cond.value, vals[i], vals[i + 1], integer)], i + 1), ops', None)
    else
      match Apply(op, vals[i], vals[i + 1])
      case None => ReduceFailure
      case Some(v) => Reduced(Without(vals[i := v], i + 1), ops', cond)
  }

  function ReduceStep(vals: seq<Val>, ops: seq<Operator>, cond: Option<Val>, integer: bool): (r: Reduction)
    requires |ops| > 0
    ensures r.Reduced? ==> |r.ops| == |ops| - 1
  {
    var k := FirstPeak(ops, 0);
    var i := Joins(ops[..k]);
    if i < |vals| then ReduceAt(vals, ops, cond, integer, k, i)
    else if k > 0 && (vals != [] || IsUnary(ops[0].op)) then ReduceFailure  // missing values
    else ReduceCrash
  }

  function Reduce(vals: seq<Val>, ops: seq<Operator>, cond: Option<Val>, integer: bool): (r: Reduction)
    ensures r.Reduced? ==> r.ops == []
    decreases |ops|
  {
    if |ops| == 0 then Reduced(vals, [], cond)
    else
      var r := ReduceStep(vals, ops, cond, integer);
      if r.Reduced? then Reduce(r.vals, r.ops, r.cond, integer) else r
  }

  function Result(r: Reduction): Outcome {
    match r
    case ReduceFailure => Failure
    case ReduceCrash => Crash
    case Reduced(vals, _, _) => if vals == [] then Success(0, 0.0) else Success(vals[0].intvalue, vals[0].floatvalue)
  }

  function Evaluate(defines: set<string>, toks: seq<Token>, integer: bool): Outcome {
    match Scan(defines, toks, INITIAL_SCAN, integer)
    case ScanCrash => Crash
    case ScanFailure => Failure
    case Scanned(st, _) =>
      if !st.lastwasvalue || st.parentheses != 0 then Failure
      else Result(Reduce(st.vals, st.ops, None, integer))
  }

  // -------------------------------------------------------------- the method

  /** The value of the `defined` at token `t`, and the last token it takes. */
  method ScanDefined(table: DefineTable, tokens: seq<Token>, t: nat, vals: seq<Val>, ghost st: ScanState)
      returns (v: Option<Val>, last: nat, crash: bool)
    requires table.Valid() && t < |tokens| && tokens[t].str == "defined"
    requires st.vals == vals && !st.lastwasvalue && !st.negativevalue
    ensures v.Some? ==> t < last < |tokens| && !crash
    ensures ScanName(table.defs.Keys, tokens[t..], st)
         == if crash then ScanCrash else if v.None? then ScanFailure
            else Scanned(st.(vals := vals + [v.value], lastwasvalue := true), tokens[last + 1..])
  {
    hide Represents, DefineTable.Valid;
    v, last, crash := None, t + 1, false;
    ghost var toks := tokens[t..];
    assert forall j :: 0 <= j < |toks| ==> toks[j] == tokens[t + j] && toks[j..] == tokens[t + j..];
    if last == |tokens| { return None, last, true; }
    var brace := tokens[last].str == "(";
    if brace { last := last + 1; }
    if last == |tokens| || tokens[last].typ != TT_NAME { return; }
    if |vals| >= MAX_VALUES { return; }
    var d := table.FindHashedDefine(tokens[last].str);
    if brace {
      last := last + 1;
      if last == |tokens| || tokens[last].str != ")" { return; }
    }
    assert last + 1 < |tokens| ==> toks[last + 1 - t..] == tokens[last + 1..];
    v := Some(if d.Some? then Val(1, 1.0) else Val(0, 0.0));
  }

  /** The scanning loop. */
  method ScanTokens(table: DefineTable, tokens: seq<Token>, integer: bool) returns (r: ScanResult)
    requires table.Valid()
    ensures r == Scan(table.defs.Keys, tokens, INITIAL_SCAN, integer)
  {
    hide Represents, DefineTable.Valid, ScanName;
    ghost var defines := table.defs.Keys;
    var vals: seq<Val> := [];
    var ops: seq<Operator> := [];
    var parentheses := 0;
    var lastwasvalue, negativevalue := false, false;
    var t := 0;
    while t < |tokens|
      invariant t <= |tokens|
      invariant Scan(defines, tokens, INITIAL_SCAN, integer)
             == Scan(defines, tokens[t..], ScanState(vals, ops, parentheses, lastwasvalue, negativevalue), integer)
    {
      ghost var toks := tokens[t..];
      assert toks[0] == tokens[t] && toks[1..] == tokens[t + 1..];
      match tokens[t].typ {
        case TT_NAME =>
          ScanNameFails(defines, toks, ScanState(vals, ops, parentheses, lastwasvalue, negativevalue));
          if lastwasvalue || negativevalue { return ScanFailure; }
          if tokens[t].str != "defined" { return ScanFailure; }
          var v, last,
              crash := ScanDefined(table, tokens, t, vals,
              ScanState(vals, ops, parentheses, lastwasvalue, negativevalue));
          if crash { return ScanCrash; }
          if v.None? { return ScanFailure; }
          t, vals, lastwasvalue := last, vals + [v.value], true;
        case TT_NUMBER =>
          if lastwasvalue || |vals| >= MAX_VALUES { return ScanFailure; }
          if negativevalue {
            vals := vals + [Val(-tokens[t].intvalue, -tokens[t].floatvalue)];
          } else {
            vals := vals + [Val(tokens[t].intvalue, tokens[t].floatvalue)];
          }
          lastwasvalue, negativevalue := true, false;
        case TT_PUNCTUATION =>
          var p := tokens[t].subtype;
          if negativevalue { return ScanFailure; }
          if p == P_PARENTHESESOPEN {
            parentheses := parentheses + 1;
          } else if p == P_PARENTHESESCLOSE {
            parentheses := parentheses - 1;
            if parentheses < 0 { return ScanFailure; }
          } else {
            if !integer && IntegerOnly(p) { return ScanFailure; }
            if IsUnary(p) {
              if lastwasvalue { return ScanFailure; }
            } else if p == P_INC || p == P_DEC {
              // reported, but then queued like any other operator
            } else if p == P_SUB {
              if !lastwasvalue { negativevalue := true; }
            } else if OperatorPriority(p) > 0 {
              if !lastwasvalue { return ScanFailure; }
            } else {
              return ScanFailure;
            }
            if !negativevalue {
              if |ops| >= MAX_OPERATORS { return ScanFailure; }
              ops := ops + [Operator(p, OperatorPriority(p), parentheses)];
              lastwasvalue := false;
            }
          }
        case _ =>
          return ScanFailure;
      }
      t := t + 1;
    }
    return Scanned(ScanState(vals, ops, parentheses, lastwasvalue, negativevalue), []);
  }

  /** The search for the operator to reduce, and for its first value, of which there
      are `n`. It fails when it passes more two-place operators than there are values
      for, and follows a null pointer when the first one it passes has no value. */
  method FindPeak(ops: seq<Operator>, n: nat) returns (found: bool, crash: bool, o: nat, v: nat)
    requires |ops| > 0
    ensures found ==> !crash && o == FirstPeak(ops, 0) < |ops| && v == Joins(ops[..o]) && (o > 0 ==> v < n)
    ensures !found ==> 0 < FirstPeak(ops, 0) < |ops| && Joins(ops[..FirstPeak(ops, 0)]) >= n
    ensures !found ==> crash == (n == 0 && !IsUnary(ops[0].op))
  {
    crash, o, v := false, 0, 0;
    while o + 1 < |ops|
      invariant o < |ops| && FirstPeak(ops, 0) == FirstPeak(ops, o)
      invariant v == Joins(ops[..o]) && (o > 0 ==> v < n)
      invariant o + 1 == |ops| ==> FirstPeak(ops, 0) == o
    {
      if ops[o].parentheses > ops[o + 1].parentheses { break; }
      if ops[o].parentheses == ops[o + 1].parentheses {
        if ops[o].priority >= ops[o + 1].priority { break; }
      }
      assert ops[..o + 1][..o] == ops[..o];
      if !IsUnary(ops[o].op) {
        if v >= n {
          MissingValue(ops, o + 1, n);
          return false, true, 0, 0;
        }
        v := v + 1;
      }
      if v >= n {
        MissingValue(ops, o + 1, n);
        return false, false, 0, 0;
      }
      o := o + 1;
    }
    found := true;
  }

  /** The body of the reduction loop. */
  method ReduceOnce(vals: seq<Val>, ops: seq<Operator>, cond: Option<Val>, integer: bool) returns (r: Reduction)
    requires |ops| > 0
    ensures r == ReduceStep(vals, ops, cond, integer)
  {
    hide Apply, ApplyUnary, Select, FirstPeak, Joins;
    var found, crash, o, v := FindPeak(ops, |vals|);
    if crash { return ReduceCrash; }
    if !found { return ReduceFailure; }
    if v >= |vals| { return ReduceCrash; }
    var op := ops[o].op;
    if IsUnary(op) {
      return Reduced(vals[v := ApplyUnary(op, vals[v])], Without(ops, o), cond);
    }
    if op == P_QUESTIONMARK {
      if cond.Some? { return ReduceFailure; }
      return Reduced(Without(vals, v), Without(ops, o), Some(vals[v]));
    }
    if op == P_COLON && cond.None? { return ReduceFailure; }
    if v + 1 >= |vals| { return ReduceCrash; }
    if op == P_COLON {
      var chosen := Select(cond.value, vals[v], vals[v + 1], integer);
      return Reduced(Without(vals[v := chosen], v + 1), Without(ops, o), None);
    }
    var applied := Apply(op, vals[v], vals[v + 1]);
    if applied.None? { return ReduceFailure; }
    r := Reduced(Without(vals[v := applied.value], v + 1), Without(ops, o), cond);
  }

  /** PC_EvaluateTokens: scan, then reduce until no operator is left. */
  method EvaluateTokens(table: DefineTable, tokens: seq<Token>, integer: bool) returns (outcome: Outcome)
    requires table.Valid()
    ensures outcome == Evaluate(table.defs.Keys, tokens, integer)
  {
    hide Represents, ReduceStep;
    var scanned := ScanTokens(table, tokens, integer);
    if scanned.ScanCrash? { return Crash; }
    if scanned.ScanFailure? || !scanned.state.lastwasvalue { return Failure; }
    if scanned.state.parentheses != 0 { return Failure; }
    var vals, ops := scanned.state.vals, scanned.state.ops;
    var cond: Option<Val> := None;
    while |ops| > 0
      invariant Reduce(scanned.state.vals, scanned.state.ops, None, integer) == Reduce(vals, ops, cond, integer)
      decreases |ops|
    {
      var r := ReduceOnce(vals, ops, cond, integer);
      if r.ReduceCrash? { return Crash; }
      if r.ReduceFailure? { return Failure; }
      vals, ops, cond := r.vals, r.ops, r.cond;
    }
    if vals == [] { return Success(0, 0.0); }
    return Success(vals[0].intvalue, vals[0].floatvalue);
  }

  /** Running out of values on the way to the peak means running out at it. */
  lemma MissingValue(ops: seq<Operator>, o: nat, n: nat)
    requires 0 < o < |ops| && FirstPeak(ops, 0) == FirstPeak(ops, o) && Joins(ops[..o]) >= n
    ensures FirstPeak(ops, 0) > 0 && Joins(ops[..FirstPeak(ops, 0)]) >= n
  {
    JoinsMonotone(ops, o, FirstPeak(ops, 0));
  }

  lemma {:induction false} JoinsMonotone(ops: seq<Operator>, a: nat, b: nat)
    requires a <= b <= |ops|
    ensures Joins(ops[..a]) <= Joins(ops[..b])
    decreases b
  {
    if a < b {
      assert ops[..b][..b - 1] == ops[..b - 1];
      JoinsMonotone(ops, a, b - 1);
    }
  }

  lemma ScanNameFails(defines: set<string>, toks: seq<Token>, st: ScanState)
    requires |toks| > 0
    ensures st.lastwasvalue || st.negativevalue || toks[0].str != "defined" ==> ScanName(defines, toks, st).ScanFailure?
  {
  }
}
